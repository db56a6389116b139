/** Packet identities and resolution (`packets.py`): what a spec reaches, the key it is recorded under, and the packet
    it resolves to. */
module Packets {
  import opened Composition
  import opened Expansion
  import opened Orders
  import opened Outcomes
  import opened PageOrder
  import opened Registry
  import opened Specs
  import opened Vocabulary

  /** The packet vocabulary: the keys in slot order, what each is, the aliases, and how a joined spec is displayed. */
  datatype Vocab = Vocab(keys: seq<string>, defs: map<string, PacketDef>, aliases: map<string, string>,
                         display: string -> string)

  /** What registration keeps: aliases and keys are disjoint, aliases name keys, no packet reaches itself; and the empty
      key, the control's, is taken. */
  ghost predicate ValidVocab(v: Vocab) {
    && NoDup(v.keys) && (forall k :: k in v.keys <==> k in v.defs)
    && v.aliases.Keys !! v.defs.Keys && (forall a :: a in v.aliases ==> v.aliases[a] in v.defs)
    && Acyclic(ComposesOf(v.defs)) && "" in v.defs
  }

  /** `tags.registry`: the vocabulary as the registry holds it. */
  method TakeVocab(kind: Kind<PacketDef>, display: string -> string) returns (v: Vocab)
    requires kind.Valid() && Acyclic(ComposesOf(kind.entries)) && "" in kind.entries
    ensures ValidVocab(v) && v.defs == kind.entries && v.aliases == kind.aliases && v.display == display
    ensures v.keys == Unslotted(kind.registered, kind.orders) + Slotted(kind.registered, kind.orders)
  {
    var keys := kind.Keys();
    v := Vocab(keys, kind.entries, kind.aliases, display);
  }

  // ---- what a token reaches ----

  /** `reached_keys`: the token and every key it composes, depth first; nothing for a bare page. */
  function ReachedKeys(token: string, defs: map<string, PacketDef>): seq<string>
    requires Acyclic(ComposesOf(defs))
    decreases Height(ComposesOf(defs), token), 1, 0
  {
    if token !in defs then [] else [token] + ReachedFrom(token, 0, defs)
  }

  /** The keys reached through the packets of `key` from the `i`-th on. */
  function ReachedFrom(key: string, i: nat, defs: map<string, PacketDef>): seq<string>
    requires Acyclic(ComposesOf(defs)) && key in defs && i <= |defs[key].packets|
    decreases Height(ComposesOf(defs), key), 0, |defs[key].packets| - i
  {
    if i == |defs[key].packets| then []
    else
      BelowIsLower(key, i, defs);
      ReachedKeys(defs[key].packets[i], defs) + ReachedFrom(key, i + 1, defs)
  }

  lemma BelowIsLower(key: string, i: nat, defs: map<string, PacketDef>)
    requires Acyclic(ComposesOf(defs)) && key in defs && i < |defs[key].packets|
    ensures Height(ComposesOf(defs), defs[key].packets[i]) < Height(ComposesOf(defs), key)
  {
    assert Composed(ComposesOf(defs), key, defs[key].packets[i]);
    HeightDrops(ComposesOf(defs), key, defs[key].packets[i]);
  }

  predicate Acts(d: PacketDef) {
    d.env != [] || d.tools != [] || d.agents != [] || d.overlays != []
  }

  /** What a token stages itself. */
  function OwnLeaves(t: string, defs: map<string, PacketDef>): set<string> {
    if t !in defs then {t}
    else (if Acts(defs[t]) then {t} else {}) + set s | s in defs[t].skills
  }

  /** `leaves`: the pages a token stages, and the keys on the way that do more than stage pages. */
  function Leaves(token: string, defs: map<string, PacketDef>): set<string>
    requires Acyclic(ComposesOf(defs))
    decreases Height(ComposesOf(defs), token), 1, 0
  {
    if token !in defs then {token} else OwnLeaves(token, defs) + LeavesFrom(token, 0, defs)
  }

  function LeavesFrom(key: string, i: nat, defs: map<string, PacketDef>): set<string>
    requires Acyclic(ComposesOf(defs)) && key in defs && i <= |defs[key].packets|
    decreases Height(ComposesOf(defs), key), 0, |defs[key].packets| - i
  {
    if i == |defs[key].packets| then {}
    else
      BelowIsLower(key, i, defs);
      Leaves(defs[key].packets[i], defs) + LeavesFrom(key, i + 1, defs)
  }

  ghost predicate LeafReached(token: string, x: string, defs: map<string, PacketDef>) {
    exists t :: Reaches(ComposesOf(defs), token, t) && x in OwnLeaves(t, defs)
  }

  /** The leaf is reached through a packet of `key` from the `i`-th on. */
  ghost predicate LeafBelow(key: string, i: nat, x: string, defs: map<string, PacketDef>)
    requires key in defs
  {
    exists j :: i <= j < |defs[key].packets| && LeafReached(defs[key].packets[j], x, defs)
  }

  lemma LeafBelowStep(key: string, i: nat, x: string, defs: map<string, PacketDef>)
    requires key in defs && i < |defs[key].packets|
    ensures LeafBelow(key, i, x, defs) <==> LeafReached(defs[key].packets[i], x, defs) || LeafBelow(key, i + 1, x, defs)
  {
  }

  /** What a packet reaches is what it stages itself and what the packets it composes reach. */
  lemma LeafReachedStep(token: string, x: string, defs: map<string, PacketDef>)
    ensures LeafReached(token, x, defs) <==>
              x in OwnLeaves(token, defs) || (token in defs && LeafBelow(token, 0, x, defs))
  {
    var composes := ComposesOf(defs);
    ReachesItself(composes, token);
    if LeafReached(token, x, defs) {
      var t :| Reaches(composes, token, t) && x in OwnLeaves(t, defs);
      ReachesStep(composes, token, t);
      if t != token {
        var sub :| sub in composes[token] && Reaches(composes, sub, t);
        var j :| 0 <= j < |defs[token].packets| && defs[token].packets[j] == sub;
        assert LeafReached(sub, x, defs);
      }
    }
    if token in defs && LeafBelow(token, 0, x, defs) {
      var j :| 0 <= j < |defs[token].packets| && LeafReached(defs[token].packets[j], x, defs);
      var t :| Reaches(composes, defs[token].packets[j], t) && x in OwnLeaves(t, defs);
      ReachesStep(composes, token, t);
    }
  }

  /** The leaves of a token are what the tokens it reaches stage, however they are reached. */
  lemma {:induction false} LeavesAreReached(token: string, x: string, defs: map<string, PacketDef>)
    requires Acyclic(ComposesOf(defs))
    ensures x in Leaves(token, defs) <==> LeafReached(token, x, defs)
    decreases Height(ComposesOf(defs), token), 1, 0
  {
    LeafReachedStep(token, x, defs);
    if token in defs { LeavesBelowAreReached(token, 0, x, defs); }
  }

  lemma {:induction false} LeavesBelowAreReached(key: string, i: nat, x: string, defs: map<string, PacketDef>)
    requires Acyclic(ComposesOf(defs)) && key in defs && i <= |defs[key].packets|
    ensures x in LeavesFrom(key, i, defs) <==> LeafBelow(key, i, x, defs)
    decreases Height(ComposesOf(defs), key), 0, |defs[key].packets| - i
  {
    if i < |defs[key].packets| {
      BelowIsLower(key, i, defs);
      LeavesAreReached(defs[key].packets[i], x, defs);
      LeavesBelowAreReached(key, i + 1, x, defs);
      LeafBelowStep(key, i, x, defs);
    }
  }

  ghost predicate KeyReached(token: string, k: string, defs: map<string, PacketDef>) {
    k in defs && Reaches(ComposesOf(defs), token, k)
  }

  ghost predicate KeyBelow(key: string, i: nat, k: string, defs: map<string, PacketDef>)
    requires key in defs
  {
    exists j :: i <= j < |defs[key].packets| && KeyReached(defs[key].packets[j], k, defs)
  }

  lemma KeyBelowStep(key: string, i: nat, k: string, defs: map<string, PacketDef>)
    requires key in defs && i < |defs[key].packets|
    ensures KeyBelow(key, i, k, defs) <==> KeyReached(defs[key].packets[i], k, defs) || KeyBelow(key, i + 1, k, defs)
  {
  }

  lemma KeyReachedStep(token: string, k: string, defs: map<string, PacketDef>)
    ensures KeyReached(token, k, defs) <==> k in defs && (k == token || (token in defs && KeyBelow(token, 0, k, defs)))
  {
    var composes := ComposesOf(defs);
    ReachesStep(composes, token, k);
    if token in defs && k in defs {
      if sub :| sub in composes[token] && Reaches(composes, sub, k) {
        var j :| 0 <= j < |defs[token].packets| && defs[token].packets[j] == sub;
        assert KeyReached(sub, k, defs);
      }
      if KeyBelow(token, 0, k, defs) {
        var j :| 0 <= j < |defs[token].packets| && KeyReached(defs[token].packets[j], k, defs);
        assert defs[token].packets[j] in composes[token];
      }
    }
  }

  /** `reached_keys` lists exactly the registered keys a token reaches. */
  lemma {:induction false} ReachedKeysAreReached(token: string, k: string, defs: map<string, PacketDef>)
    requires Acyclic(ComposesOf(defs))
    ensures k in ReachedKeys(token, defs) <==> KeyReached(token, k, defs)
    decreases Height(ComposesOf(defs), token), 1, 0
  {
    KeyReachedStep(token, k, defs);
    if token in defs {
      ReachedBelowAreReached(token, 0, k, defs);
      assert ReachedKeys(token, defs) == [token] + ReachedFrom(token, 0, defs);
    }
  }

  lemma {:induction false} ReachedBelowAreReached(key: string, i: nat, k: string, defs: map<string, PacketDef>)
    requires Acyclic(ComposesOf(defs)) && key in defs && i <= |defs[key].packets|
    ensures k in ReachedFrom(key, i, defs) <==> k in defs && KeyBelow(key, i, k, defs)
    decreases Height(ComposesOf(defs), key), 0, |defs[key].packets| - i
  {
    if i < |defs[key].packets| {
      BelowIsLower(key, i, defs);
      ReachedKeysAreReached(defs[key].packets[i], k, defs);
      ReachedBelowAreReached(key, i + 1, k, defs);
      KeyBelowStep(key, i, k, defs);
    }
  }

  // ---- the recorded identity ----

  function LeavesOfAll(parts: seq<string>, defs: map<string, PacketDef>): set<string>
    requires Acyclic(ComposesOf(defs))
  {
    if parts == [] then {} else Leaves(parts[0], defs) + LeavesOfAll(parts[1..], defs)
  }

  /** The first key from the `i`-th on that stages exactly `wanted`. */
  function FirstMatch(i: nat, v: Vocab, wanted: set<string>): Option<string>
    requires ValidVocab(v) && i <= |v.keys|
    decreases |v.keys| - i
  {
    if i == |v.keys| then None
    else
      var d := v.defs[v.keys[i]];
      if (d.skills != [] || d.packets != []) && Leaves(v.keys[i], v.defs) == wanted then Some(v.keys[i])
      else FirstMatch(i + 1, v, wanted)
  }

  function CanonicalOf(parts: seq<string>, v: Vocab): string
    requires ValidVocab(v)
  {
    if parts == [] then ""
    else if |parts| == 1 then parts[0]
    else
      match FirstMatch(0, v, LeavesOfAll(parts, v.defs))
      case Some(key) => key
      case None => Join(Sort(parts, StringLe))
  }

  /** `canonical`: the key a spec is recorded under. */
  function Canonical(spec: string, v: Vocab): string
    requires ValidVocab(v)
  {
    CanonicalOf(Parts(spec, v.aliases), v)
  }

  lemma {:induction false} MatchIsKey(i: nat, v: Vocab, wanted: set<string>)
    requires ValidVocab(v) && i <= |v.keys|
    ensures FirstMatch(i, v, wanted).Some? ==> FirstMatch(i, v, wanted).value in v.defs
    decreases |v.keys| - i
  {
    if i < |v.keys| { MatchIsKey(i + 1, v, wanted); }
  }

  lemma {:induction false} LeavesOfAllMembers(parts: seq<string>, defs: map<string, PacketDef>)
    requires Acyclic(ComposesOf(defs))
    ensures forall x :: x in LeavesOfAll(parts, defs) <==> exists i :: 0 <= i < |parts| && x in Leaves(parts[i], defs)
  {
    if parts != [] {
      LeavesOfAllMembers(parts[1..], defs);
      forall x ensures x in LeavesOfAll(parts, defs) <==> exists i :: 0 <= i < |parts| && x in Leaves(parts[i], defs) {
        if x in LeavesOfAll(parts[1..], defs) {
          var j :| 0 <= j < |parts[1..]| && x in Leaves(parts[1..][j], defs);
          assert x in Leaves(parts[j + 1], defs);
        }
        if i :| 0 <= i < |parts| && x in Leaves(parts[i], defs) {
          if i > 0 { assert x in Leaves(parts[1..][i - 1], defs); }
        }
      }
    }
  }

  lemma SameLeaves(parts: seq<string>, others: seq<string>, defs: map<string, PacketDef>)
    requires Acyclic(ComposesOf(defs)) && forall t :: t in parts <==> t in others
    ensures LeavesOfAll(parts, defs) == LeavesOfAll(others, defs)
  {
    LeavesOfAllMembers(parts, defs);
    LeavesOfAllMembers(others, defs);
    var a, b := LeavesOfAll(parts, defs), LeavesOfAll(others, defs);
    forall x ensures x in a <==> x in b {
      if x in a {
        var i :| 0 <= i < |parts| && x in Leaves(parts[i], defs);
        assert parts[i] in others;
        var j :| 0 <= j < |others| && others[j] == parts[i];
      }
      if x in b {
        var i :| 0 <= i < |others| && x in Leaves(others[i], defs);
        assert others[i] in parts;
        var j :| 0 <= j < |parts| && parts[j] == others[i];
      }
    }
  }

  /** The order of its parts does not change what a spec is recorded under. */
  lemma CanonicalOfIgnoresOrder(parts: seq<string>, others: seq<string>, v: Vocab)
    requires ValidVocab(v) && multiset(parts) == multiset(others)
    ensures CanonicalOf(parts, v) == CanonicalOf(others, v)
  {
    assert |multiset(parts)| == |parts| && |multiset(others)| == |others|;
    SameMembers(parts, others);
    SameLeaves(parts, others, v.defs);
    StringLeIsLinear();
    SortPermutation(parts, others, StringLe);
    if |parts| == 1 { assert parts[0] in others; }
  }

  /** Reordering the tokens of a spec, spacing them out or repeating some does not change what it is recorded under. */
  lemma CanonicalIgnoresOrder(spec: string, respelled: string, v: Vocab)
    requires ValidVocab(v) && SameTokens(spec, respelled)
    ensures Canonical(spec, v) == Canonical(respelled, v)
  {
    assert "" in v.defs.Keys && "" !in v.aliases.Keys;
    PartsIgnoreOrder(spec, respelled, v.aliases);
    CanonicalOfIgnoresOrder(Parts(spec, v.aliases), Parts(respelled, v.aliases), v);
  }

  /** The parts of a spec are distinct names, none of them empty or an alias: clean ones, or the keys its aliases
      name. */
  lemma PartsAreClean(spec: string, v: Vocab)
    requires ValidVocab(v)
    ensures NoDup(Parts(spec, v.aliases))
    ensures forall t :: t in Parts(spec, v.aliases) ==>
              t != "" && t !in v.aliases && (Clean(t) || t in v.aliases.Values)
  {
    var tokens := Split(spec);
    SplitIsSolid(spec);
    DistinctMembers(tokens, v.aliases);
    forall t | t in Parts(spec, v.aliases) ensures t !in v.aliases && (Clean(t) || t in v.aliases.Values) {
      var i :| 0 <= i < |tokens| && Named(tokens[i], v.aliases) == t;
      StripOfSolid(tokens[i]);
      assert t in v.defs.Keys ==> t !in v.aliases.Keys;
    }
  }

  /** A clean name is its own only part. */
  lemma CleanIsOnePart(t: string, aliases: map<string, string>)
    requires Clean(t) && t !in aliases
    ensures Parts(t, aliases) == [t]
  {
    assert Join([t]) == t;
    SplitJoin([t]);
    DistinctOfClean([t], aliases);
  }

  lemma NoParts(v: Vocab)
    requires ValidVocab(v)
    ensures Parts("", v.aliases) == []
  {
    assert Split("") == [""];
    assert "" in v.defs.Keys && "" !in v.aliases.Keys;
    assert Named("", v.aliases) == "";
    assert [""][..0] == [] && Distinct([], v.aliases) == [];
  }

  /** Joined parts split into the parts again. */
  lemma JoinedPartsRoundTrip(parts: seq<string>, aliases: map<string, string>)
    requires parts != [] && NoDup(parts) && forall t :: t in parts ==> Clean(t) && t !in aliases
    ensures Parts(Join(parts), aliases) == parts
  {
    assert forall k :: 0 <= k < |parts| ==> Clean(parts[k]) by {
      assert forall k :: 0 <= k < |parts| ==> parts[k] in parts;
    }
    SplitJoin(parts);
    DistinctOfClean(parts, aliases);
  }

  /** The names a spec's key is spelled with can be spelled in a spec: its parts and the key that matches them. */
  ghost predicate Spellable(parts: seq<string>, v: Vocab)
    requires ValidVocab(v)
  {
    && (forall t :: t in parts ==> Clean(t))
    && (FirstMatch(0, v, LeavesOfAll(parts, v.defs)).Some? ==>
        CanonicalOf(parts, v) == "" || Clean(CanonicalOf(parts, v)))
  }

  /** Recording a recorded key records it as itself. */
  lemma CanonicalIdempotent(spec: string, v: Vocab)
    requires ValidVocab(v) && Spellable(Parts(spec, v.aliases), v)
    ensures Canonical(Canonical(spec, v), v) == Canonical(spec, v)
  {
    var parts, key := Parts(spec, v.aliases), Canonical(spec, v);
    PartsAreClean(spec, v);
    NoParts(v);
    if |parts| == 1 {
      assert parts[0] in parts;
      CleanIsOnePart(key, v.aliases);
    } else if |parts| > 1 {
      var wanted := LeavesOfAll(parts, v.defs);
      MatchIsKey(0, v, wanted);
      if FirstMatch(0, v, wanted).Some? {
        assert key in v.defs.Keys && key !in v.aliases.Keys;
        if key != "" { CleanIsOnePart(key, v.aliases); }
      } else {
        SortedRoundTrip(parts, v);
      }
    }
  }

  /** A key with space around it is not: recorded through an alias, it is read back without the space. */
  lemma PaddedKeyIsLost(alias: string, v: Vocab)
    requires ValidVocab(v) && alias in v.aliases && Clean(alias)
    requires Solid(v.aliases[alias]) && Strip(v.aliases[alias]) != v.aliases[alias]
    requires Strip(v.aliases[alias]) != "" && Strip(v.aliases[alias]) !in v.aliases
    ensures Canonical(alias, v) == v.aliases[alias] && Canonical(Canonical(alias, v), v) == Strip(v.aliases[alias])
  {
    var key := v.aliases[alias];
    StripClean(alias);
    OneToken(alias, v.aliases);
    OneToken(key, v.aliases);
  }

  /** A spec without separators has one part at most. */
  lemma OneToken(t: string, aliases: map<string, string>)
    requires Solid(t) && t != "" && Named(t, aliases) != ""
    ensures Parts(t, aliases) == [Named(t, aliases)]
  {
    assert Join([t]) == t;
    SplitJoin([t]);
    assert [t][..0] == [] && Distinct([], aliases) == [];
  }

  lemma SortedRoundTrip(parts: seq<string>, v: Vocab)
    requires ValidVocab(v) && NoDup(parts) && |parts| > 1 && forall t :: t in parts ==> Clean(t) && t !in v.aliases
    ensures Canonical(Join(Sort(parts, StringLe)), v) == CanonicalOf(parts, v)
  {
    var sorted := Sort(parts, StringLe);
    StringLeIsLinear();
    SortSorts(parts, StringLe);
    NoDupPermutation(parts, sorted);
    SameMembers(parts, sorted);
    JoinedPartsRoundTrip(sorted, v.aliases);
    CanonicalOfIgnoresOrder(parts, sorted, v);
  }

  // ---- resolving a spec ----

  datatype Packet = Packet(key: string, display: string, skills: seq<string>, env: seq<(string, string)>,
                           parts: seq<string>, pages: seq<string>, tools: seq<string>, agents: seq<string>)

  /** `sorted(...)` of a set. */
  ghost predicate Listing(list: seq<string>) {
    Sorted(list, StringLe) && NoDup(list)
  }

  /** A set has one sorted listing. */
  lemma ListingUnique(a: seq<string>, b: seq<string>)
    requires Listing(a) && Listing(b) && forall x :: x in a <==> x in b
    ensures a == b
  {
    StringLeIsLinear();
    SameElements(a, b);
    SortedUnique(a, b, StringLe);
  }

  ghost predicate ToolReached(tool: string, roots: set<string>, defs: map<string, PacketDef>) {
    exists k :: k in defs && Reached(roots, defs, k) && tool in defs[k].tools
  }

  ghost predicate AgentReached(agent: string, roots: set<string>, defs: map<string, PacketDef>) {
    exists k :: k in defs && Reached(roots, defs, k) && agent in defs[k].agents
  }

  /** The settings, sorted by name, each name once. */
  ghost predicate EnvListing(env: seq<(string, string)>) {
    forall i, j :: 0 <= i < j < |env| ==> StringLe(env[i].0, env[j].0) && env[i].0 != env[j].0
  }

  /** The pages in the order the parts spell them, each where it first appears. */
  ghost function PagesInOrder(parts: seq<string>, v: Vocab, setting: Setting): seq<string>
    requires ValidVocab(v)
  {
    BelowTop(parts, v.defs);
    Adding([], SpelledAll(parts, Top(v.defs), v.defs, setting.expand))
  }

  /** What a spec with these parts resolves to, told by what its parts reach. */
  ghost predicate Resolves(p: Packet, parts: seq<string>, v: Vocab, setting: Setting)
    requires ValidVocab(v)
  {
    var roots := RootsOf(parts);
    && p.key == CanonicalOf(parts, v) && p.display == v.display(Join(parts))
    && p.parts == Sort(parts, StringLe)
    && Listing(p.skills) && (forall x :: x in p.skills <==> PageReached(x, roots, v.defs, setting))
    && EnvListing(p.env) && (forall e :: e in p.env <==> ValueReached(e.0, e.1, roots, v.defs, setting))
    && Listing(p.tools) && (forall x :: x in p.tools <==> ToolReached(x, roots, v.defs))
    && Listing(p.agents) && (forall x :: x in p.agents <==> AgentReached(x, roots, v.defs))
    && p.pages == PagesInOrder(parts, v, setting) && NoDup(p.pages) && (forall x :: x in p.pages <==> x in p.skills)
  }

  /** When a spec with these parts resolves: every part is known, everything reached resolves by itself, and no two
      packets reached disagree on a setting. */
  ghost predicate Resolvable(parts: seq<string>, v: Vocab, setting: Setting, known: string -> bool) {
    && (forall t :: t in parts ==> t in v.defs || known(t))
    && AllFine(RootsOf(parts), v.defs, setting) && Consistent(RootsOf(parts), v.defs, setting)
  }

  method SortedSet(s: set<string>) returns (list: seq<string>)
    ensures Listing(list) && forall x :: x in list <==> x in s
  {
    var items: seq<string> := [];
    var left := s;
    while left != {}
      invariant left <= s && NoDup(items) && forall x :: x in items <==> x in s && x !in left
      decreases left
    {
      var x :| x in left;
      items, left := items + [x], left - {x};
    }
    list := Sort(items, StringLe);
    StringLeIsLinear();
    SortSorts(items, StringLe);
    NoDupPermutation(items, list);
    SameMembers(items, list);
  }

  method SortedEnv(env: map<string, string>) returns (list: seq<(string, string)>)
    ensures EnvListing(list) && forall e :: e in list <==> e.0 in env && env[e.0] == e.1
  {
    var names := SortedSet(env.Keys);
    list := [];
    for i := 0 to |names|
      invariant |list| == i && forall j :: 0 <= j < i ==> list[j] == (names[j], env[names[j]])
    {
      assert names[i] in names;
      list := list + [(names[i], env[names[i]])];
    }
    forall e ensures e in list <==> e.0 in env && env[e.0] == e.1 {
      if e.0 in env && env[e.0] == e.1 {
        var i :| 0 <= i < |names| && names[i] == e.0;
        assert list[i] == e;
      }
      if e in list {
        var i :| 0 <= i < |list| && list[i] == e;
        assert names[i] in names;
      }
    }
  }

  /** The keys reached from any of the tokens. */
  function KeysReached(tokens: seq<string>, defs: map<string, PacketDef>): set<string>
    requires Acyclic(ComposesOf(defs))
  {
    set t, k | t in tokens && k in ReachedKeys(t, defs) :: k
  }

  lemma KeysReachedAre(tokens: seq<string>, defs: map<string, PacketDef>)
    requires Acyclic(ComposesOf(defs))
    ensures forall k :: k in KeysReached(tokens, defs) <==> k in defs && Reached(RootsOf(tokens), defs, k)
  {
    forall t, k ensures k in ReachedKeys(t, defs) <==> KeyReached(t, k, defs) {
      ReachedKeysAreReached(t, k, defs);
    }
    forall k | k in defs && Reached(RootsOf(tokens), defs, k) ensures k in KeysReached(tokens, defs) {
      var r :| r in RootsOf(tokens) && Reaches(ComposesOf(defs), r, k);
      assert r in tokens && KeyReached(r, k, defs) && k in ReachedKeys(r, defs);
    }
  }

  /** The tools, or agents, of every key reached. */
  method ListReached(tokens: seq<string>, defs: map<string, PacketDef>)
    returns (tools: seq<string>, agents: seq<string>)
    requires Acyclic(ComposesOf(defs))
    ensures Listing(tools) && forall x :: x in tools <==> ToolReached(x, RootsOf(tokens), defs)
    ensures Listing(agents) && forall x :: x in agents <==> AgentReached(x, RootsOf(tokens), defs)
  {
    var keys := KeysReached(tokens, defs);
    KeysReachedAre(tokens, defs);
    tools := SortedSet(set k, x | k in keys && x in defs[k].tools :: x);
    agents := SortedSet(set k, x | k in keys && x in defs[k].agents :: x);
  }

  /** The packet of an expansion. */
  method Assemble(tokens: seq<string>, pages: seq<string>, env: map<string, string>, v: Vocab, setting: Setting)
    returns (p: Packet)
    requires ValidVocab(v) && IsExpansion(pages, env, RootsOf(tokens), v.defs, setting)
    requires AddsAllSpelled([], pages, tokens, Top(v.defs), v.defs, setting.expand)
    ensures Resolves(p, tokens, v, setting)
  {
    var skills := SortedSet(set x | x in pages);
    var settings := SortedEnv(env);
    var tools, agents := ListReached(tokens, v.defs);
    BelowTop(tokens, v.defs);
    p := Packet(CanonicalOf(tokens, v), v.display(Join(tokens)), skills, settings, Sort(tokens, StringLe), pages, tools,
                agents);
  }

  /** `resolve`: the packet a spec stands for, or why it does not resolve. */
  method Resolve(spec: string, v: Vocab, setting: Setting, known: string -> bool) returns (r: Result<Packet, Fault>)
    requires ValidVocab(v)
    ensures var parts := Parts(ByDevice(spec, setting.language), v.aliases);
      (r.Ok? <==> Resolvable(parts, v, setting, known)) && (r.Ok? ==> Resolves(r.value, parts, v, setting))
  {
    var renamed := ByDevice(spec, setting.language);
    var tokens := Parts(renamed, v.aliases);
    for i := 0 to |tokens|
      invariant forall j :: 0 <= j < i ==> tokens[j] in v.defs || known(tokens[j])
    {
      if tokens[i] !in v.defs && !known(tokens[i]) { return Err(UnknownToken(tokens[i])); }
    }
    var fault, pages, env := Expand(tokens, v.defs, setting);
    if fault.Some? { return Err(fault.value); }
    var packet := Assemble(tokens, pages, env, v, setting);
    return Ok(packet);
  }

  /** Any spec whose tokens are these, in any order and however often, resolves to the same skills, settings, parts,
      tools, agents and key, or does not resolve either. */
  lemma ResolutionIgnoresOrder(spec: string, respelled: string, v: Vocab, setting: Setting, known: string -> bool,
                               p: Packet, q: Packet)
    requires ValidVocab(v) && SameTokens(spec, respelled)
    ensures var parts, others := Parts(ByDevice(spec, setting.language), v.aliases),
              Parts(ByDevice(respelled, setting.language), v.aliases);
      && (Resolvable(parts, v, setting, known) <==> Resolvable(others, v, setting, known))
      && (Resolves(p, parts, v, setting) && Resolves(q, others, v, setting) ==>
          p == q.(display := p.display, pages := p.pages))
  {
    var parts, others := Parts(ByDevice(spec, setting.language), v.aliases),
      Parts(ByDevice(respelled, setting.language), v.aliases);
    assert "" in v.defs.Keys && "" !in v.aliases.Keys;
    DevicePartsIgnoreOrder(spec, respelled, setting.language, v.aliases);
    SameMembers(parts, others);
    assert RootsOf(parts) == RootsOf(others);
    if Resolves(p, parts, v, setting) && Resolves(q, others, v, setting) {
      SamePacket(p, q, parts, others, v, setting);
    }
  }

  lemma SamePacket(p: Packet, q: Packet, parts: seq<string>, others: seq<string>, v: Vocab, setting: Setting)
    requires ValidVocab(v) && multiset(parts) == multiset(others) && RootsOf(parts) == RootsOf(others)
    requires Resolves(p, parts, v, setting) && Resolves(q, others, v, setting)
    ensures p == q.(display := p.display, pages := p.pages)
  {
    CanonicalOfIgnoresOrder(parts, others, v);
    StringLeIsLinear();
    SortPermutation(parts, others, StringLe);
    ListingUnique(p.skills, q.skills);
    ListingUnique(p.tools, q.tools);
    ListingUnique(p.agents, q.agents);
    SameEnv(p.env, q.env);
  }

  lemma SameEnv(a: seq<(string, string)>, b: seq<(string, string)>)
    requires EnvListing(a) && EnvListing(b) && forall e :: e in a <==> e in b
    ensures a == b
  {
    SameElements(a, b);
    assert |multiset(a)| == |a| && |multiset(b)| == |b|;
    EnvListingUnique(a, b);
  }

  lemma {:induction false} EnvListingUnique(a: seq<(string, string)>, b: seq<(string, string)>)
    requires EnvListing(a) && EnvListing(b) && |a| == |b| && forall e :: e in a <==> e in b
    ensures a == b
    decreases |a|
  {
    if a != [] {
      assert a[0] in b && b != [] && b[0] in a;
      var i :| 0 <= i < |b| && b[i] == a[0];
      var j :| 0 <= j < |a| && a[j] == b[0];
      if i > 0 && j > 0 { StringLeAntisymmetric(a[0].0, b[0].0); }
      assert a[0] == b[0];
      TailMembers(a, b);
      EnvListingUnique(a[1..], b[1..]);
    }
  }

  lemma TailMembers(a: seq<(string, string)>, b: seq<(string, string)>)
    requires EnvListing(a) && EnvListing(b) && a != [] && b != [] && a[0] == b[0] && forall e :: e in a <==> e in b
    ensures forall e :: e in a[1..] <==> e in b[1..]
  {
    forall e | e in a[1..] ensures e in b[1..] {
      assert e in a && e in b;
      var j :| 1 <= j < |a| && a[j] == e;
      var i :| 0 <= i < |b| && b[i] == e;
    }
    forall e | e in b[1..] ensures e in a[1..] {
      assert e in b && e in a;
      var j :| 1 <= j < |b| && b[j] == e;
      var i :| 0 <= i < |a| && a[i] == e;
    }
  }
}
