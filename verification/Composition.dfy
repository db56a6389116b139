/** Packets composing packets: walks through a composition graph, and the check of `plugins.py` that a packet does not
    reach itself. */
module Composition {
  import opened Orders
  import opened Outcomes

  /** Which tokens each packet composes; a token that is not a key is a skill page. */
  type Composes = map<string, seq<string>>

  ghost predicate Composed(composes: Composes, whole: string, part: string) {
    whole in composes && part in composes[whole]
  }

  /** A token, one it composes, one that composes, and so on. */
  ghost predicate Walk(composes: Composes, p: seq<string>) {
    p != [] && forall i :: 0 <= i < |p| - 1 ==> Composed(composes, p[i], p[i + 1])
  }

  /** No walk meets a token twice: no packet reaches itself. */
  ghost predicate Acyclic(composes: Composes) {
    forall p :: Walk(composes, p) ==> NoDup(p)
  }

  ghost predicate NoLoopFrom(composes: Composes, key: string) {
    forall p :: Walk(composes, p) && p[0] == key ==> NoDup(p)
  }

  lemma WalkPart(composes: Composes, p: seq<string>, i: nat, j: nat)
    requires Walk(composes, p) && i < j <= |p|
    ensures Walk(composes, p[i..j])
  {
    var q := p[i..j];
    forall k | 0 <= k < |q| - 1 ensures Composed(composes, q[k], q[k + 1]) {
      assert Composed(composes, p[i + k], p[i + k + 1]);
    }
  }

  lemma WalkOn(composes: Composes, p: seq<string>, q: seq<string>)
    requires Walk(composes, p) && Walk(composes, q) && Composed(composes, p[|p| - 1], q[0])
    ensures Walk(composes, p + q)
  {
    var r := p + q;
    forall k | 0 <= k < |r| - 1 ensures Composed(composes, r[k], r[k + 1]) {
      if k < |p| - 1 {
        assert Composed(composes, p[k], p[k + 1]);
      } else if k >= |p| {
        var m := k - |p|;
        assert Composed(composes, q[m], q[m + 1]);
      }
    }
  }

  // ---- the check ----

  ghost predicate IsChain(composes: Composes, chain: seq<string>) {
    NoDup(chain) && forall k :: k in chain ==> k in composes
  }

  /** The keys a chain has not met yet: what the recursion runs out of. */
  ghost function Unmet(composes: Composes, chain: seq<string>): nat {
    |composes.Keys - set k | k in chain|
  }

  lemma ChainGrows(composes: Composes, chain: seq<string>, key: string)
    requires IsChain(composes, chain) && key !in chain && key in composes
    ensures IsChain(composes, chain + [key]) && Unmet(composes, chain + [key]) < Unmet(composes, chain)
  {
    var before, after := composes.Keys - (set k | k in chain), composes.Keys - (set k | k in chain + [key]);
    assert key in before && key !in after;
    assert before == after + {key};
  }

  /** `refuse_composition_loop`: the chain on which `key` composes itself, if there is one. */
  function LoopFrom(key: string, composes: Composes, chain: seq<string>): Option<seq<string>>
    requires IsChain(composes, chain)
    decreases Unmet(composes, chain), 0
  {
    if key in chain then Some(chain + [key])
    else if key !in composes then None
    else
      ChainGrows(composes, chain, key);
      LoopBelow(composes[key], 0, composes, chain + [key])
  }

  function LoopBelow(subs: seq<string>, i: nat, composes: Composes, chain: seq<string>): Option<seq<string>>
    requires IsChain(composes, chain) && i <= |subs|
    decreases Unmet(composes, chain), |subs| - i + 1
  {
    if i == |subs| then None
    else
      var loop := LoopFrom(subs[i], composes, chain);
      if loop.Some? then loop else LoopBelow(subs, i + 1, composes, chain)
  }

  /** A chain the check names is a walk that comes back to a key it met. */
  ghost predicate IsLoop(composes: Composes, chain: seq<string>, loop: seq<string>) {
    Walk(composes, loop) && !NoDup(loop) && chain <= loop
  }

  lemma {:induction false} FoundIsLoop(key: string, composes: Composes, chain: seq<string>)
    requires IsChain(composes, chain) && Walk(composes, chain + [key])
    ensures LoopFrom(key, composes, chain).Some? ==>
              IsLoop(composes, chain + [key], LoopFrom(key, composes, chain).value)
    decreases Unmet(composes, chain), 0
  {
    if key in chain {
      var i :| 0 <= i < |chain| && chain[i] == key;
      assert (chain + [key])[i] == (chain + [key])[|chain|];
    } else if key in composes {
      ChainGrows(composes, chain, key);
      FoundBelowIsLoop(key, 0, composes, chain + [key]);
    }
  }

  lemma {:induction false} FoundBelowIsLoop(key: string, i: nat, composes: Composes, chain: seq<string>)
    requires IsChain(composes, chain) && Walk(composes, chain) && chain[|chain| - 1] == key
    requires key in composes && i <= |composes[key]|
    ensures var loop := LoopBelow(composes[key], i, composes, chain); loop.Some? ==> IsLoop(composes, chain, loop.value)
    decreases Unmet(composes, chain), |composes[key]| - i + 1
  {
    if i < |composes[key]| {
      var sub := composes[key][i];
      assert Composed(composes, key, sub) && Walk(composes, [sub]);
      WalkOn(composes, chain, [sub]);
      FoundIsLoop(sub, composes, chain);
      FoundBelowIsLoop(key, i + 1, composes, chain);
    }
  }

  lemma {:induction false} NothingBelow(subs: seq<string>, i: nat, composes: Composes, chain: seq<string>, sub: string)
    requires IsChain(composes, chain) && i <= |subs| && LoopBelow(subs, i, composes, chain).None? && sub in subs[i..]
    ensures LoopFrom(sub, composes, chain).None?
    decreases |subs| - i
  {
    if subs[i] != sub { NothingBelow(subs, i + 1, composes, chain, sub); }
  }

  /** When the check passes, no walk from the key meets the chain or itself. */
  lemma {:induction false} PassedIsClear(key: string, composes: Composes, chain: seq<string>, p: seq<string>)
    requires IsChain(composes, chain) && LoopFrom(key, composes, chain).None?
    requires Walk(composes, p) && p[0] == key
    ensures NoDup(chain + p)
    decreases |p|
  {
    if |p| == 1 {
      assert p == [key];
    } else {
      assert Composed(composes, p[0], p[1]);
      ChainGrows(composes, chain, key);
      NothingBelow(composes[key], 0, composes, chain + [key], p[1]);
      WalkPart(composes, p, 1, |p|);
      PassedIsClear(p[1], composes, chain + [key], p[1..]);
      assert chain + [key] + p[1..] == chain + p;
    }
  }

  /** `refuse_composition_loop` returns normally exactly when no walk from the key meets a token twice. */
  lemma RefusesExactlyLoops(key: string, composes: Composes)
    ensures LoopFrom(key, composes, []).None? <==> NoLoopFrom(composes, key)
  {
    assert [] + [key] == [key] && Walk(composes, [key]);
    FoundIsLoop(key, composes, []);
    if LoopFrom(key, composes, []).None? {
      forall p | Walk(composes, p) && p[0] == key ensures NoDup(p) {
        PassedIsClear(key, composes, [], p);
        assert [] + p == p;
      }
    } else {
      var loop := LoopFrom(key, composes, []).value;
      assert loop[0] == key;
    }
  }

  // ---- growing the graph ----

  /** A walk that comes back to where it was, told from any token on the way. */
  lemma Rotated(composes: Composes, p: seq<string>, i: nat, m: nat, j: nat)
    requires Walk(composes, p) && i <= m < j < |p| && p[i] == p[j]
    ensures !NoLoopFrom(composes, p[m])
  {
    var out, home := p[m..j], p[i..m + 1];
    WalkPart(composes, p, m, j);
    WalkPart(composes, p, i, m + 1);
    assert Composed(composes, p[j - 1], p[j]);
    WalkOn(composes, out, home);
    var round := out + home;
    assert round[0] == p[m] && round[|round| - 1] == p[m];
  }

  /** New packets that reach no loop leave an acyclic graph acyclic, even where old packets already named them. */
  lemma StaysAcyclic(before: Composes, added: Composes)
    requires Acyclic(before) && before.Keys !! added.Keys
    requires forall key :: key in added ==> NoLoopFrom(before + added, key)
    ensures Acyclic(before + added)
  {
    var all := before + added;
    forall p | Walk(all, p) ensures NoDup(p) {
      forall i, j | 0 <= i < j < |p| ensures p[i] != p[j] {
        if p[i] == p[j] {
          if m :| i <= m < j && p[m] in added {
            Rotated(all, p, i, m, j);
          } else {
            OldWalk(before, added, p, i, j);
          }
        }
      }
    }
  }

  lemma OldWalk(before: Composes, added: Composes, p: seq<string>, i: nat, j: nat)
    requires Acyclic(before) && Walk(before + added, p) && i < j < |p| && forall m :: i <= m < j ==> p[m] !in added
    ensures p[i] != p[j]
  {
    var q := p[i..j + 1];
    forall k | 0 <= k < |q| - 1 ensures Composed(before, q[k], q[k + 1]) {
      assert Composed(before + added, p[i + k], p[i + k + 1]);
    }
    assert Walk(before, q);
    assert q[0] == p[i] && q[|q| - 1] == p[j];
  }

  // ---- how deep a packet reaches ----

  ghost predicate Reaches(composes: Composes, from: string, to: string) {
    exists p :: Walk(composes, p) && p[0] == from && p[|p| - 1] == to
  }

  ghost predicate WalkOfLength(composes: Composes, key: string, n: nat) {
    exists p :: Walk(composes, p) && p[0] == key && |p| == n
  }

  /** The length of the longest walk from a token, of those up to `n`. */
  ghost function LongestUpTo(composes: Composes, key: string, n: nat): nat {
    if n == 0 then 0 else if WalkOfLength(composes, key, n) then n else LongestUpTo(composes, key, n - 1)
  }

  ghost function Height(composes: Composes, key: string): nat {
    LongestUpTo(composes, key, |composes| + 1)
  }

  lemma {:induction false} LongestIsLongest(composes: Composes, key: string, m: nat, n: nat)
    requires m <= n
    ensures WalkOfLength(composes, key, m) ==> m <= LongestUpTo(composes, key, n)
    ensures LongestUpTo(composes, key, n) > 0 ==> WalkOfLength(composes, key, LongestUpTo(composes, key, n))
    decreases n
  {
    if m < n { LongestIsLongest(composes, key, m, n - 1); }
    else if n > 0 { LongestIsLongest(composes, key, n - 1, n - 1); }
  }

  lemma {:induction false} NoDupSize(s: seq<string>, all: set<string>)
    requires NoDup(s) && forall x :: x in s ==> x in all
    ensures |s| <= |all|
    decreases |s|
  {
    if s != [] {
      var init, last := s[..|s| - 1], s[|s| - 1];
      NoDupSize(init, all - {last});
      assert all == (all - {last}) + {last};
    }
  }

  lemma AcyclicWalkIsShort(composes: Composes, p: seq<string>)
    requires Acyclic(composes) && Walk(composes, p)
    ensures |p| <= |composes| + 1
  {
    var keys := p[..|p| - 1];
    forall x | x in keys ensures x in composes.Keys {
      var i :| 0 <= i < |keys| && keys[i] == x;
      assert Composed(composes, p[i], p[i + 1]);
    }
    NoDupSize(keys, composes.Keys);
  }

  lemma {:induction false} LongestIsBounded(composes: Composes, key: string, n: nat)
    ensures LongestUpTo(composes, key, n) <= n
  {
    if n > 0 { LongestIsBounded(composes, key, n - 1); }
  }

  lemma HeightIsBounded(composes: Composes, key: string)
    ensures Height(composes, key) <= |composes| + 1
  {
    LongestIsBounded(composes, key, |composes| + 1);
  }

  /** What a packet composes reaches less deep than the packet: recursion through packets ends. */
  lemma HeightDrops(composes: Composes, whole: string, part: string)
    requires Acyclic(composes) && Composed(composes, whole, part)
    ensures Height(composes, part) < Height(composes, whole)
  {
    var h, bound := Height(composes, part), |composes| + 1;
    LongestIsLongest(composes, part, 1, bound);
    assert Walk(composes, [part]) && Walk(composes, [whole]);
    assert WalkOfLength(composes, part, 1);
    var p :| Walk(composes, p) && p[0] == part && |p| == h;
    WalkOn(composes, [whole], p);
    var longer := [whole] + p;
    AcyclicWalkIsShort(composes, longer);
    assert WalkOfLength(composes, whole, |longer|);
    LongestIsLongest(composes, whole, |longer|, bound);
  }

  lemma ReachesItself(composes: Composes, t: string)
    ensures Reaches(composes, t, t)
  {
    assert Walk(composes, [t]);
  }

  lemma ReachesOn(composes: Composes, from: string, whole: string, part: string)
    requires Reaches(composes, from, whole) && Composed(composes, whole, part)
    ensures Reaches(composes, from, part)
  {
    var p :| Walk(composes, p) && p[0] == from && p[|p| - 1] == whole;
    assert Walk(composes, [part]);
    WalkOn(composes, p, [part]);
    assert (p + [part])[0] == from;
  }

  /** A token reaches itself and what the tokens it composes reach. */
  lemma ReachesStep(composes: Composes, from: string, to: string)
    ensures Reaches(composes, from, to) <==>
              from == to || (from in composes && exists sub :: sub in composes[from] && Reaches(composes, sub, to))
  {
    if Reaches(composes, from, to) && from != to {
      var p :| Walk(composes, p) && p[0] == from && p[|p| - 1] == to;
      assert Composed(composes, p[0], p[1]);
      WalkPart(composes, p, 1, |p|);
      assert Reaches(composes, p[1], to) by { assert p[1..][|p| - 2] == to; }
    }
    if from == to { ReachesItself(composes, from); }
    if from in composes {
      forall sub | sub in composes[from] && Reaches(composes, sub, to) ensures Reaches(composes, from, to) {
        var p :| Walk(composes, p) && p[0] == sub && p[|p| - 1] == to;
        assert Walk(composes, [from]) && Composed(composes, from, sub);
        WalkOn(composes, [from], p);
        assert ([from] + p)[|p|] == to;
      }
    }
  }
}
