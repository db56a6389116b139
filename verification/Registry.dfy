/** The ordered registry of `registry.py`: keys, slots and aliases of one kind of thing. */
module Registry {
  import opened Orders
  import opened Outcomes

  datatype Refused = KeyTaken(key: string) | AliasTaken(alias: string)

  /** The slot the next slotted key takes. */
  ghost function SlottedCount(names: seq<string>, orders: map<string, Option<nat>>): nat
    requires forall n :: n in names ==> n in orders
  {
    if names == [] then 0
    else SlottedCount(names[..|names| - 1], orders) + (if orders[names[|names| - 1]].Some? then 1 else 0)
  }

  /** Every slotted key's slot is the number of slotted keys registered before it. */
  ghost predicate SlotsInOrder(names: seq<string>, orders: map<string, Option<nat>>)
    requires forall n :: n in names ==> n in orders
  {
    forall i :: 0 <= i < |names| && orders[names[i]].Some? ==>
      orders[names[i]].value == SlottedCount(names[..i], orders)
  }

  lemma {:induction false} SameSlots(names: seq<string>, orders: map<string, Option<nat>>,
                                     others: map<string, Option<nat>>)
    requires forall n :: n in names ==> n in orders && n in others && orders[n] == others[n]
    ensures SlottedCount(names, orders) == SlottedCount(names, others)
  {
    if names != [] { SameSlots(names[..|names| - 1], orders, others); }
  }

  lemma {:induction false} CountGrows(names: seq<string>, orders: map<string, Option<nat>>, i: nat, j: nat)
    requires forall n :: n in names ==> n in orders
    requires i <= j <= |names|
    ensures SlottedCount(names[..i], orders) <= SlottedCount(names[..j], orders)
    ensures i < j && orders[names[i]].Some? ==> SlottedCount(names[..i], orders) < SlottedCount(names[..j], orders)
    decreases j
  {
    if i < j {
      assert names[..j][..j - 1] == names[..j - 1];
      CountGrows(names, orders, i, j - 1);
    }
  }

  /** Every slotted key holds a slot of its own, all below the next free one. */
  lemma SlotsDiffer(names: seq<string>, orders: map<string, Option<nat>>, i: nat, j: nat)
    requires forall n :: n in names ==> n in orders
    requires SlotsInOrder(names, orders) && i < j < |names| && orders[names[i]].Some? && orders[names[j]].Some?
    ensures orders[names[i]].value < orders[names[j]].value < SlottedCount(names, orders)
  {
    CountGrows(names, orders, i, j);
    CountGrows(names, orders, j, |names|);
    assert names[..|names|] == names;
  }

  // ---- listing order ----

  /** The sort key of `keys`: an entry with no slot sorts at -1. */
  function Rank(orders: map<string, Option<nat>>, key: string): int {
    if key in orders && orders[key].Some? then orders[key].value else -1
  }

  function Unslotted(names: seq<string>, orders: map<string, Option<nat>>): seq<string> {
    if names == [] then []
    else if Rank(orders, names[0]) < 0 then [names[0]] + Unslotted(names[1..], orders)
    else Unslotted(names[1..], orders)
  }

  function Slotted(names: seq<string>, orders: map<string, Option<nat>>): seq<string> {
    if names == [] then []
    else if Rank(orders, names[0]) < 0 then Slotted(names[1..], orders)
    else [names[0]] + Slotted(names[1..], orders)
  }

  function SlotOrder(orders: map<string, Option<nat>>): (le: (string, string) -> bool)
    ensures forall a, b :: le(a, b) <==> Rank(orders, a) <= Rank(orders, b)
  {
    (a, b) => Rank(orders, a) <= Rank(orders, b)
  }

  ghost predicate Ascending(names: seq<string>, orders: map<string, Option<nat>>) {
    forall i, j :: 0 <= i < j < |names| && Rank(orders, names[i]) >= 0 && Rank(orders, names[j]) >= 0 ==>
      Rank(orders, names[i]) < Rank(orders, names[j])
  }

  lemma {:induction false} InsertAfterUnslotted(x: string, unslotted: seq<string>, slotted: seq<string>,
                                                orders: map<string, Option<nat>>, le: (string, string) -> bool)
    requires Rank(orders, x) >= 0 && le == SlotOrder(orders)
    requires forall u :: u in unslotted ==> Rank(orders, u) < 0
    requires slotted == [] || Rank(orders, x) <= Rank(orders, slotted[0])
    ensures Insert(x, unslotted + slotted, le) == unslotted + ([x] + slotted)
  {
    if unslotted == [] {
      assert unslotted + slotted == slotted;
    } else {
      var s := unslotted + slotted;
      assert s[0] == unslotted[0] && s[1..] == unslotted[1..] + slotted;
      InsertAfterUnslotted(x, unslotted[1..], slotted, orders, le);
      assert unslotted == [unslotted[0]] + unslotted[1..];
    }
  }

  lemma {:induction false} PartsOf(names: seq<string>, orders: map<string, Option<nat>>)
    ensures forall u :: u in Unslotted(names, orders) ==> u in names && Rank(orders, u) < 0
    ensures forall s :: s in Slotted(names, orders) ==> s in names && Rank(orders, s) >= 0
    ensures forall n :: n in names ==> n in Unslotted(names, orders) || n in Slotted(names, orders)
  {
    if names != [] { PartsOf(names[1..], orders); }
  }

  lemma FirstIsLowest(names: seq<string>, orders: map<string, Option<nat>>, later: string)
    requires names != [] && Ascending(names, orders) && later in names[1..]
    requires Rank(orders, names[0]) >= 0 && Rank(orders, later) >= 0
    ensures Rank(orders, names[0]) <= Rank(orders, later)
  {
    var j :| 1 <= j < |names| && names[j] == later;
  }

  /** Sorting by slot lists the keys with no slot first, then the others, both in registration order. */
  lemma {:induction false} ListedBySlot(names: seq<string>, orders: map<string, Option<nat>>)
    requires Ascending(names, orders)
    ensures Sort(names, SlotOrder(orders)) == Unslotted(names, orders) + Slotted(names, orders)
  {
    if names != [] {
      var unslotted, slotted := Unslotted(names[1..], orders), Slotted(names[1..], orders);
      var le := SlotOrder(orders);
      ListedBySlot(names[1..], orders);
      PartsOf(names[1..], orders);
      if Rank(orders, names[0]) >= 0 {
        if slotted != [] { FirstIsLowest(names, orders, slotted[0]); }
        InsertAfterUnslotted(names[0], unslotted, slotted, orders, le);
      } else {
        var all := unslotted + slotted;
        assert all == [] || le(names[0], all[0]);
        assert Insert(names[0], all, le) == [names[0]] + all;
        assert [names[0]] + all == [names[0]] + unslotted + slotted;
      }
    }
  }

  /** `dict.fromkeys(names, key)`. */
  function AliasesTo(key: string, names: seq<string>): map<string, string> {
    map n | n in names :: key
  }

  /** A new slotted key is counted. */
  lemma CountedSlot(names: seq<string>, orders: map<string, Option<nat>>, key: string, slot: nat)
    requires (forall n :: n in names ==> n in orders) && key !in names
    ensures SlottedCount(names + [key], orders[key := Some(slot)]) == SlottedCount(names, orders) + 1
  {
    assert (names + [key])[..|names|] == names;
    SameSlots(names, orders, orders[key := Some(slot)]);
  }

  /** One kind's registry. `registered` is the insertion order of the `entries` dictionary. */
  class Kind<Entry> {
    var registered: seq<string>
    var entries: map<string, Entry>
    var orders: map<string, Option<nat>>
    var aliases: map<string, string>

    constructor ()
      ensures Valid() && registered == [] && entries == map[] && aliases == map[]
    {
      registered, entries, orders, aliases := [], map[], map[], map[];
    }

    /** Names and aliases are disjoint, every alias names a key, and slots follow registration. */
    ghost predicate Valid()
      reads this
    {
      && NoDup(registered) && (forall k :: k in registered <==> k in entries) && orders.Keys == entries.Keys
      && aliases.Keys !! entries.Keys
      && (forall a :: a in aliases ==> aliases[a] in entries)
      && SlotsInOrder(registered, orders)
    }

    ghost predicate Taken(name: string)
      reads this
    {
      name in entries || name in aliases
    }

    /** The key and aliases are new names, each given once. */
    ghost predicate Free(key: string, names: seq<string>)
      reads this
    {
      !Taken(key) && key !in names && NoDup(names) && forall n :: n in names ==> !Taken(n)
    }

    /** The checks of `add`. */
    method Refusal(key: string, names: seq<string>) returns (r: Option<Refused>)
      requires Valid()
      ensures r.None? <==> Free(key, names)
    {
      if key in entries || key in aliases {
        assert Taken(key);
        return Some(KeyTaken(key));
      }
      for i := 0 to |names|
        invariant forall j :: 0 <= j < i ==> names[j] !in entries && names[j] !in aliases && names[j] != key
        invariant forall j :: 0 <= j < i ==> multiset(names)[names[j]] == 1
      {
        var alias := names[i];
        if alias in entries || (alias in aliases && aliases[alias] != key) || alias == key ||
          multiset(names)[alias] > 1 {
          if alias == key || multiset(names)[alias] > 1 { RefusedAlias(key, names, i); } else { assert Taken(alias); }
          return Some(AliasTaken(alias));
        }
      }
      NoDupCount(names);
      r := None;
    }

    /** `add`: a name taken twice is refused and nothing changes; else the key takes the next slot. */
    method Add(key: string, entry: Entry, slotted: bool, names: seq<string>) returns (r: Result<Entry, Refused>)
      requires Valid()
      modifies this
      ensures Valid()
      ensures r.Ok? <==> old(Free(key, names))
      ensures r.Err? ==> registered == old(registered) && entries == old(entries)
      ensures r.Err? ==> orders == old(orders) && aliases == old(aliases)
      ensures r.Ok? ==> r.value == entry && registered == old(registered) + [key]
      ensures r.Ok? ==> entries == old(entries)[key := entry]
      ensures r.Ok? ==> orders == old(orders)[key := if slotted then Some(old(SlottedCount(registered, orders)))
                                              else None]
      ensures r.Ok? ==> aliases == old(aliases) + AliasesTo(key, names)
    {
      var refusal := Refusal(key, names);
      if refusal.Some? { return Err(refusal.value); }
      assert !Taken(key) && forall n :: n in names ==> !Taken(n);
      var slot := NextSlot();
      SlotsExtend(registered, orders, key, if slotted then Some(slot) else None);
      registered := registered + [key];
      entries := entries[key := entry];
      orders := orders[key := if slotted then Some(slot) else None];
      aliases := aliases + AliasesTo(key, names);
      return Ok(entry);
    }

    /** How many keys hold a slot. */
    method NextSlot() returns (slot: nat)
      requires Valid()
      ensures slot == SlottedCount(registered, orders)
    {
      slot := 0;
      for i := 0 to |registered|
        invariant slot == SlottedCount(registered[..i], orders)
      {
        assert registered[..i + 1][..i] == registered[..i];
        if orders[registered[i]].Some? { slot := slot + 1; }
      }
      assert registered[..|registered|] == registered;
    }

    /** `keys`: the keys in slot order, those with no slot first. */
    method Keys() returns (keys: seq<string>)
      requires Valid()
      ensures keys == Unslotted(registered, orders) + Slotted(registered, orders)
      ensures NoDup(keys) && forall k :: k in keys <==> k in entries
    {
      var ranks := orders;
      keys := Sort(registered, SlotOrder(ranks));
      forall i, j | 0 <= i < j < |registered| && Rank(orders, registered[i]) >= 0 && Rank(orders, registered[j]) >= 0
        ensures Rank(orders, registered[i]) < Rank(orders, registered[j])
      {
        SlotsDiffer(registered, orders, i, j);
      }
      ListedBySlot(registered, orders);
      SortKeeps(registered, orders);
      NoDupPermutation(registered, keys);
      SameMembers(registered, keys);
    }

    /** `canonical`: an alias resolved to its key; any other tag passes through. */
    function Canonical(tag: string): string
      reads this
    {
      if tag in aliases then aliases[tag] else tag
    }

    /** Resolving twice is resolving once, and what an alias resolves to is a key. */
    lemma CanonicalOnce(tag: string)
      requires Valid()
      ensures Canonical(Canonical(tag)) == Canonical(tag)
      ensures tag in aliases ==> Canonical(tag) in entries
      ensures tag in entries ==> Canonical(tag) == tag
    {
      assert tag in aliases ==> aliases[tag] in entries.Keys;
    }
  }

  lemma {:induction false} SortKeeps(names: seq<string>, orders: map<string, Option<nat>>)
    ensures multiset(Sort(names, SlotOrder(orders))) == multiset(names)
  {
    if names != [] {
      DropHead(names);
      SortKeeps(names[1..], orders);
      InsertKeeps(names[0], Sort(names[1..], SlotOrder(orders)), SlotOrder(orders));
    }
  }

  lemma RefusedAlias(key: string, names: seq<string>, i: nat)
    requires i < |names| && (names[i] == key || multiset(names)[names[i]] > 1)
    ensures !(key !in names && NoDup(names))
  {
    NoDupCount(names);
  }

  lemma SlotsExtend(names: seq<string>, orders: map<string, Option<nat>>, key: string, slot: Option<nat>)
    requires (forall n :: n in names ==> n in orders) && SlotsInOrder(names, orders) && key !in names
    requires slot.Some? ==> slot.value == SlottedCount(names, orders)
    ensures SlotsInOrder(names + [key], orders[key := slot])
  {
    var all, next := names + [key], orders[key := slot];
    forall i | 0 <= i < |all| && next[all[i]].Some? ensures next[all[i]].value == SlottedCount(all[..i], next) {
      assert all[..i] == names[..i];
      SameSlots(names[..i], orders, next);
      assert names[..|names|] == names;
    }
  }
}
