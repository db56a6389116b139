/** Registering the packets of plugins (`plugins.py`): all of them are checked before any is added. */
module Plugins {
  import opened Composition
  import opened Orders
  import opened Outcomes
  import opened Registry
  import opened Vocabulary

  /** One packet a plugin's manifest declares; `sound` when its phases and prompt tables exist. */
  datatype Declared = Declared(key: string, definition: PacketDef, aliases: seq<string>, sound: bool)

  /** A plugin found: whether its packet tables validate, what they declare, and the skill pages it ships. */
  datatype Plugin = Plugin(valid: bool, packets: seq<Declared>, pages: set<string>)

  datatype Refusal =
    | InvalidPackets(plugin: nat)
    | HidesPages(plugin: nat, pages: set<string>)
    | ShippedPage(name: string)
    | NameTaken(name: string)
    | Unsound(key: string)
    | ComposesItself(chain: seq<string>)

  ghost function NamesOf(d: Declared): set<string> {
    {d.key} + set a | a in d.aliases
  }

  /** No name of these packets is taken, a shipped page's, or declared twice. */
  ghost predicate NewNames(kind: Kind<PacketDef>, declared: seq<Declared>, shipped: set<string>)
    reads kind
  {
    && (forall i :: 0 <= i < |declared| ==>
          kind.Free(declared[i].key, declared[i].aliases) && NamesOf(declared[i]) !! shipped)
    && (forall i, j :: 0 <= i < j < |declared| ==> NamesOf(declared[i]) !! NamesOf(declared[j]))
  }

  function DefinitionsOf(declared: seq<Declared>): map<string, PacketDef> {
    if declared == [] then map[]
    else DefinitionsOf(declared[..|declared| - 1])[declared[|declared| - 1].key := declared[|declared| - 1].definition]
  }

  lemma {:induction false} DefinedKeys(declared: seq<Declared>)
    ensures forall k :: k in DefinitionsOf(declared) <==> exists i :: 0 <= i < |declared| && declared[i].key == k
  {
    if declared != [] {
      var init := declared[..|declared| - 1];
      DefinedKeys(init);
      forall k ensures k in DefinitionsOf(declared) <==> exists i :: 0 <= i < |declared| && declared[i].key == k {
        if k in DefinitionsOf(init) {
          var i :| 0 <= i < |init| && init[i].key == k;
          assert declared[i].key == k;
        }
        if i :| 0 <= i < |declared| && declared[i].key == k {
          if i < |init| { assert init[i].key == k; }
        }
      }
    }
  }

  /** The first name of a declaration that may not be claimed. */
  method ClaimNames(d: Declared, kind: Kind<PacketDef>, shipped: set<string>, claimed: set<string>)
    returns (refusal: Option<Refusal>, now: set<string>)
    requires kind.Valid()
    ensures refusal.None? <==> kind.Free(d.key, d.aliases) && NamesOf(d) !! shipped && NamesOf(d) !! claimed
    ensures refusal.None? ==> now == claimed + NamesOf(d)
  {
    var names := [d.key] + d.aliases;
    now := claimed;
    for i := 0 to |names|
      invariant now == claimed + set j | 0 <= j < i :: names[j]
      invariant forall j :: 0 <= j < i ==> !kind.Taken(names[j]) && names[j] !in shipped && names[j] !in claimed
      invariant forall j, k :: 0 <= j < k < i ==> names[j] != names[k]
    {
      var name := names[i];
      assert name in NamesOf(d);
      if name in shipped { return Some(ShippedPage(name)), now; }
      kind.CanonicalOnce(name);
      if kind.Canonical(name) in kind.entries || name in now {
        if d.key !in d.aliases && NoDup(d.aliases) { NamesDiffer(d, i); }
        return Some(NameTaken(name)), now;
      }
      now := now + {name};
    }
    ClaimedAll(d, names);
    forall n | n in NamesOf(d) ensures !kind.Taken(n) && n !in shipped && n !in claimed {
      var j :| 0 <= j < |names| && names[j] == n;
    }
    refusal := None;
  }

  lemma NamesDiffer(d: Declared, i: nat)
    requires d.key !in d.aliases && NoDup(d.aliases) && i < 1 + |d.aliases|
    ensures forall j :: 0 <= j < i ==> ([d.key] + d.aliases)[j] != ([d.key] + d.aliases)[i]
  {
  }

  lemma ClaimedAll(d: Declared, names: seq<string>)
    requires names == [d.key] + d.aliases && forall j, k :: 0 <= j < k < |names| ==> names[j] != names[k]
    ensures d.key !in d.aliases && NoDup(d.aliases)
    ensures NamesOf(d) == set j | 0 <= j < |names| :: names[j]
    ensures forall n :: n in NamesOf(d) ==> exists j :: 0 <= j < |names| && names[j] == n
  {
    assert names[0] == d.key;
    assert forall j :: 0 <= j < |d.aliases| ==> names[j + 1] == d.aliases[j];
    forall n | n in NamesOf(d) ensures exists j :: 0 <= j < |names| && names[j] == n {
      if n != d.key {
        var j :| 0 <= j < |d.aliases| && d.aliases[j] == n;
        assert names[j + 1] == n;
      }
    }
  }

  /** The checks on names, over all the packets. */
  method ClaimAll(declared: seq<Declared>, kind: Kind<PacketDef>, shipped: set<string>)
    returns (refusal: Option<Refusal>)
    requires kind.Valid()
    ensures refusal.None? <==> NewNames(kind, declared, shipped)
  {
    var claimed: set<string> := {};
    for i := 0 to |declared|
      invariant NewNames(kind, declared[..i], shipped)
      invariant forall n :: n in claimed <==> exists j :: 0 <= j < i && n in NamesOf(declared[j])
    {
      var now;
      ghost var before := claimed;
      refusal, now := ClaimNames(declared[i], kind, shipped, claimed);
      if refusal.Some? {
        ClaimRefused(kind, declared, shipped, i, claimed);
        return;
      }
      claimed := now;
      ClaimExtends(kind, declared, shipped, i, before);
      forall n ensures n in claimed <==> exists j :: 0 <= j < i + 1 && n in NamesOf(declared[j]) {
        if n in NamesOf(declared[i]) { assert 0 <= i < i + 1; }
        if n in before { var j :| 0 <= j < i && n in NamesOf(declared[j]); }
      }
    }
    assert declared[..|declared|] == declared;
    refusal := None;
  }

  lemma ClaimRefused(kind: Kind<PacketDef>, declared: seq<Declared>, shipped: set<string>, i: nat, claimed: set<string>)
    requires i < |declared|
    requires forall n :: n in claimed ==> exists j :: 0 <= j < i && n in NamesOf(declared[j])
    requires !(kind.Free(declared[i].key, declared[i].aliases) && NamesOf(declared[i]) !! shipped &&
               NamesOf(declared[i]) !! claimed)
    ensures !NewNames(kind, declared, shipped)
  {
    if !(NamesOf(declared[i]) !! claimed) {
      var n :| n in NamesOf(declared[i]) && n in claimed;
      var j :| 0 <= j < i && n in NamesOf(declared[j]);
      assert !(NamesOf(declared[j]) !! NamesOf(declared[i]));
    }
  }

  lemma ClaimExtends(kind: Kind<PacketDef>, declared: seq<Declared>, shipped: set<string>, i: nat, claimed: set<string>)
    requires i < |declared| && NewNames(kind, declared[..i], shipped)
    requires forall j :: 0 <= j < i ==> NamesOf(declared[j]) <= claimed
    requires kind.Free(declared[i].key, declared[i].aliases) && NamesOf(declared[i]) !! shipped
    requires NamesOf(declared[i]) !! claimed
    ensures NewNames(kind, declared[..i + 1], shipped)
  {
    var all := declared[..i + 1];
    forall j | 0 <= j < i + 1 ensures kind.Free(all[j].key, all[j].aliases) && NamesOf(all[j]) !! shipped {
      if j < i { assert all[j] == declared[..i][j]; }
    }
    forall j, k | 0 <= j < k < i + 1 ensures NamesOf(all[j]) !! NamesOf(all[k]) {
      if k < i { assert all[j] == declared[..i][j] && all[k] == declared[..i][k]; }
    }
  }

  /** The composition graph with the new packets. */
  function Composing(entries: map<string, PacketDef>, declared: seq<Declared>): Composes {
    ComposesOf(entries) + ComposesOf(DefinitionsOf(declared))
  }

  method CheckLoops(declared: seq<Declared>, composes: Composes) returns (refusal: Option<Refusal>)
    ensures refusal.None? <==> forall i :: 0 <= i < |declared| ==> NoLoopFrom(composes, declared[i].key)
  {
    for i := 0 to |declared|
      invariant forall j :: 0 <= j < i ==> NoLoopFrom(composes, declared[j].key)
    {
      RefusesExactlyLoops(declared[i].key, composes);
      var loop := LoopFrom(declared[i].key, composes, []);
      if loop.Some? { return Some(ComposesItself(loop.value)); }
    }
    refusal := None;
  }

  /** None of the packet's names is given twice or among the taken ones. */
  ghost predicate NewAmong(taken: set<string>, d: Declared) {
    d.key !in d.aliases && NoDup(d.aliases) && NamesOf(d) !! taken
  }

  /** The packets from the `i`-th on still have names of their own. */
  ghost predicate StillNew(taken: set<string>, declared: seq<Declared>, i: nat) {
    && (forall j :: i <= j < |declared| ==> NewAmong(taken, declared[j]))
    && (forall j, k :: i <= j < k < |declared| ==> NamesOf(declared[j]) !! NamesOf(declared[k]))
  }

  ghost function TakenNames(kind: Kind<PacketDef>): set<string>
    reads kind
  {
    kind.entries.Keys + kind.aliases.Keys
  }

  /** Adding a packet takes its own names alone. */
  lemma RestStayNew(taken: set<string>, now: set<string>, declared: seq<Declared>, i: nat)
    requires i < |declared| && StillNew(taken, declared, i) && now <= taken + NamesOf(declared[i])
    ensures StillNew(now, declared, i + 1)
  {
  }

  function KeysOf(declared: seq<Declared>): seq<string> {
    if declared == [] then [] else KeysOf(declared[..|declared| - 1]) + [declared[|declared| - 1].key]
  }

  /** The aliases of the packets, each to its key. */
  function AliasesOf(declared: seq<Declared>): map<string, string> {
    if declared == [] then map[]
    else
      var last := declared[|declared| - 1];
      AliasesOf(declared[..|declared| - 1]) + AliasesTo(last.key, last.aliases)
  }

  /** The first `n` packets hold the slots from `next` on, and every earlier key the slot it had. */
  ghost predicate SlotsTaken(before: map<string, Option<nat>>, now: map<string, Option<nat>>, declared: seq<Declared>,
                             n: nat, next: nat)
    requires n <= |declared|
  {
    && (forall k :: k in before ==> k in now && now[k] == before[k])
    && (forall j :: 0 <= j < n ==> HoldsSlot(now, declared[j].key, next + j))
  }

  ghost predicate HoldsSlot(orders: map<string, Option<nat>>, key: string, slot: nat) {
    key in orders && orders[key].Some? && orders[key].value == slot
  }

  lemma OneMoreEntry(entries: map<string, PacketDef>, registered: seq<string>, declared: seq<Declared>, i: nat)
    requires i < |declared|
    ensures (entries + DefinitionsOf(declared[..i]))[declared[i].key := declared[i].definition] ==
              entries + DefinitionsOf(declared[..i + 1])
    ensures registered + KeysOf(declared[..i]) + [declared[i].key] == registered + KeysOf(declared[..i + 1])
  {
    assert declared[..i + 1][..i] == declared[..i];
  }

  lemma OneMoreSlot(first: map<string, Option<nat>>, before: map<string, Option<nat>>, now: map<string, Option<nat>>,
                    declared: seq<Declared>, i: nat, next: nat)
    requires i < |declared| && SlotsTaken(first, before, declared, i, next) && HoldsSlot(now, declared[i].key, next + i)
    requires forall k :: k in before ==> k in now && now[k] == before[k]
    ensures SlotsTaken(first, now, declared, i + 1, next)
  {
    forall j | 0 <= j < i + 1 ensures HoldsSlot(now, declared[j].key, next + j) {
      if j < i { assert HoldsSlot(before, declared[j].key, next + j); }
    }
  }

  lemma OneMoreAliased(aliases: map<string, string>, declared: seq<Declared>, i: nat)
    requires i < |declared|
    ensures aliases + AliasesOf(declared[..i]) + AliasesTo(declared[i].key, declared[i].aliases) ==
              aliases + AliasesOf(declared[..i + 1])
  {
    assert declared[..i + 1][..i] == declared[..i];
    MapSumAssociates(aliases, AliasesOf(declared[..i]), AliasesTo(declared[i].key, declared[i].aliases));
  }

  lemma MapSumAssociates(a: map<string, string>, b: map<string, string>, c: map<string, string>)
    ensures a + b + c == a + (b + c)
  {
  }

  /** Add one checked packet: the registry takes it, and the rest can still be added. */
  method AddNext(declared: seq<Declared>, i: nat, kind: Kind<PacketDef>)
    requires kind.Valid() && i < |declared| && StillNew(TakenNames(kind), declared, i)
    modifies kind
    ensures kind.Valid() && StillNew(TakenNames(kind), declared, i + 1)
    ensures kind.registered == old(kind.registered) + [declared[i].key]
    ensures kind.entries == old(kind.entries)[declared[i].key := declared[i].definition]
    ensures HoldsSlot(kind.orders, declared[i].key, old(SlottedCount(kind.registered, kind.orders)))
    ensures forall k :: k in old(kind.orders) ==> k in kind.orders && kind.orders[k] == old(kind.orders)[k]
    ensures kind.aliases == old(kind.aliases) + AliasesTo(declared[i].key, declared[i].aliases)
    ensures SlottedCount(kind.registered, kind.orders) == old(SlottedCount(kind.registered, kind.orders)) + 1
  {
    var d := declared[i];
    ghost var taken := TakenNames(kind);
    assert NewAmong(taken, d);
    assert kind.Free(d.key, d.aliases) by { assert d.key in NamesOf(d); }
    CountedSlot(kind.registered, kind.orders, d.key, SlottedCount(kind.registered, kind.orders));
    var added := kind.Add(d.key, d.definition, true, d.aliases);
    assert added.Ok?;
    RestStayNew(taken, TakenNames(kind), declared, i);
  }

  method AddAll(declared: seq<Declared>, kind: Kind<PacketDef>)
    requires kind.Valid() && StillNew(TakenNames(kind), declared, 0)
    modifies kind
    ensures kind.Valid()
    ensures kind.entries == old(kind.entries) + DefinitionsOf(declared)
    ensures kind.registered == old(kind.registered) + KeysOf(declared)
    ensures SlotsTaken(old(kind.orders), kind.orders, declared, |declared|,
                       old(SlottedCount(kind.registered, kind.orders)))
    ensures kind.aliases == old(kind.aliases) + AliasesOf(declared)
  {
    ghost var entries, registered, orders, aliases := kind.entries, kind.registered, kind.orders, kind.aliases;
    ghost var next := SlottedCount(kind.registered, kind.orders);
    for i := 0 to |declared|
      invariant kind.Valid() && StillNew(TakenNames(kind), declared, i)
      invariant SlottedCount(kind.registered, kind.orders) == next + i
      invariant kind.entries == entries + DefinitionsOf(declared[..i])
      invariant kind.registered == registered + KeysOf(declared[..i])
      invariant SlotsTaken(orders, kind.orders, declared, i, next)
      invariant kind.aliases == aliases + AliasesOf(declared[..i])
    {
      OneMoreEntry(entries, registered, declared, i);
      OneMoreAliased(aliases, declared, i);
      ghost var before := kind.orders;
      AddNext(declared, i, kind);
      OneMoreSlot(orders, before, kind.orders, declared, i, next);
    }
    assert declared[..|declared|] == declared;
  }

  /** The packets of all the plugins, in plugin order. */
  function DeclaredBy(found: seq<Plugin>): seq<Declared> {
    if found == [] then [] else DeclaredBy(found[..|found| - 1]) + found[|found| - 1].packets
  }

  /** The checks on the plugins themselves, and the packets they declare. */
  method CheckPlugins(found: seq<Plugin>, shipped: set<string>) returns (r: Result<seq<Declared>, Refusal>)
    ensures r.Ok? <==> (forall i :: 0 <= i < |found| ==> found[i].valid && found[i].pages !! shipped)
    ensures r.Ok? ==> r.value == DeclaredBy(found)
  {
    var declared: seq<Declared> := [];
    for i := 0 to |found|
      invariant declared == DeclaredBy(found[..i]) && forall j :: 0 <= j < i ==> found[j].valid
    {
      if !found[i].valid { return Err(InvalidPackets(i)); }
      assert found[..i + 1][..i] == found[..i];
      declared := declared + found[i].packets;
    }
    assert found[..|found|] == found;
    for i := 0 to |found|
      invariant forall j :: 0 <= j < i ==> found[j].pages !! shipped
    {
      var hidden := found[i].pages * shipped;
      if hidden != {} { return Err(HidesPages(i, hidden)); }
      forall n | n in found[i].pages ensures n !in shipped { assert n in shipped <==> n in hidden; }
    }
    return Ok(declared);
  }

  method CheckSound(declared: seq<Declared>) returns (refusal: Option<Refusal>)
    ensures refusal.None? <==> forall i :: 0 <= i < |declared| ==> declared[i].sound
  {
    for i := 0 to |declared|
      invariant forall j :: 0 <= j < i ==> declared[j].sound
    {
      if !declared[i].sound { return Some(Unsound(declared[i].key)); }
    }
    refusal := None;
  }

  lemma CheckedAreNew(kind: Kind<PacketDef>, declared: seq<Declared>, shipped: set<string>)
    requires NewNames(kind, declared, shipped)
    ensures StillNew(TakenNames(kind), declared, 0)
    ensures forall i :: 0 <= i < |declared| ==> declared[i].key !in kind.entries
  {
    forall j | 0 <= j < |declared| ensures NewAmong(TakenNames(kind), declared[j]) {
      assert kind.Free(declared[j].key, declared[j].aliases);
      forall n | n in NamesOf(declared[j]) ensures n !in TakenNames(kind) { assert !kind.Taken(n); }
    }
  }

  /** When the packets of the plugins found are taken: every plugin's tables validate and none of its pages is a shipped
      page's, every name is new, every packet is sound, and none reaches itself. */
  ghost predicate Registrable(found: seq<Plugin>, kind: Kind<PacketDef>, shipped: set<string>)
    reads kind
  {
    var declared := DeclaredBy(found);
    && (forall i :: 0 <= i < |found| ==> found[i].valid && found[i].pages !! shipped)
    && NewNames(kind, declared, shipped) && (forall i :: 0 <= i < |declared| ==> declared[i].sound)
    && forall i :: 0 <= i < |declared| ==> NoLoopFrom(Composing(kind.entries, declared), declared[i].key)
  }

  /** `register_packets`: all the packets are added in order, or, when any is refused, none; and where no packet reached
      itself before, none does after. */
  method RegisterPackets(found: seq<Plugin>, kind: Kind<PacketDef>, shipped: set<string>)
    returns (r: Result<(), Refusal>)
    requires kind.Valid()
    modifies kind
    ensures kind.Valid()
    ensures r.Ok? <==> old(Registrable(found, kind, shipped))
    ensures r.Err? ==> kind.entries == old(kind.entries) && kind.registered == old(kind.registered) &&
                       kind.orders == old(kind.orders) && kind.aliases == old(kind.aliases)
    ensures r.Ok? ==> kind.entries == old(kind.entries) + DefinitionsOf(DeclaredBy(found))
    ensures r.Ok? ==> kind.registered == old(kind.registered) + KeysOf(DeclaredBy(found))
    ensures r.Ok? ==> SlotsTaken(old(kind.orders), kind.orders, DeclaredBy(found), |DeclaredBy(found)|,
                                 old(SlottedCount(kind.registered, kind.orders)))
    ensures r.Ok? ==> kind.aliases == old(kind.aliases) + AliasesOf(DeclaredBy(found))
    ensures old(Acyclic(ComposesOf(kind.entries))) ==> Acyclic(ComposesOf(kind.entries))
  {
    var checked := CheckPlugins(found, shipped);
    if checked.Err? { return Err(checked.error); }
    var declared := checked.value;
    var refusal := ClaimAll(declared, kind, shipped);
    if refusal.Some? { return Err(refusal.value); }
    refusal := CheckSound(declared);
    if refusal.Some? { return Err(refusal.value); }
    var composes := Composing(kind.entries, declared);
    refusal := CheckLoops(declared, composes);
    if refusal.Some? { return Err(refusal.value); }
    CheckedAreNew(kind, declared, shipped);
    GrowsAcyclic(kind.entries, declared, composes);
    AddAll(declared, kind);
    return Ok(());
  }

  lemma MergedComposes(entries: map<string, PacketDef>, defs: map<string, PacketDef>)
    ensures ComposesOf(entries + defs) == ComposesOf(entries) + ComposesOf(defs)
  {
  }

  /** Checked packets whose keys are new keep the composition graph free of loops. */
  lemma GrowsAcyclic(entries: map<string, PacketDef>, declared: seq<Declared>, composes: Composes)
    requires composes == Composing(entries, declared)
    requires forall i :: 0 <= i < |declared| ==> declared[i].key !in entries && NoLoopFrom(composes, declared[i].key)
    ensures Acyclic(ComposesOf(entries)) ==> Acyclic(ComposesOf(entries + DefinitionsOf(declared)))
  {
    var defs := DefinitionsOf(declared);
    DefinedKeys(declared);
    MergedComposes(entries, defs);
    if Acyclic(ComposesOf(entries)) {
      forall key | key in ComposesOf(defs) ensures NoLoopFrom(composes, key) && key !in entries {
        var i :| 0 <= i < |declared| && declared[i].key == key;
      }
      StaysAcyclic(ComposesOf(entries), ComposesOf(defs));
    }
  }
}
