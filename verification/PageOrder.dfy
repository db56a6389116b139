/** The order of a packet's pages (`packets.py`): what a token spells when everything it composes is written out, and
    each page kept where it first appears. */
module PageOrder {
  import opened Composition
  import opened Orders
  import opened Outcomes
  import opened Vocabulary

  type Expander = string -> Option<seq<string>>

  /** The entries of `more` added to a list, each where it first appears. */
  function Adding<T(==)>(list: seq<T>, more: seq<T>): seq<T> {
    if more == [] then list else AddingOne(Adding(list, more[..|more| - 1]), more[|more| - 1])
  }

  function AddingOne<T(==)>(list: seq<T>, x: T): seq<T> {
    if x in list then list else list + [x]
  }

  lemma AddingStep<T>(list: seq<T>, more: seq<T>, x: T)
    ensures Adding(list, more + [x]) == AddingOne(Adding(list, more), x)
  {
    assert (more + [x])[..|more|] == more;
  }

  lemma {:induction false} AddingMembers<T>(list: seq<T>, more: seq<T>)
    ensures forall x :: x in Adding(list, more) <==> x in list || x in more
    ensures NoDup(list) ==> NoDup(Adding(list, more))
  {
    if more != [] {
      AddingMembers(list, more[..|more| - 1]);
      assert more == more[..|more| - 1] + [more[|more| - 1]];
    }
  }

  /** Adding in two goes is adding at once. */
  lemma {:induction false} AddingBoth<T>(list: seq<T>, a: seq<T>, b: seq<T>)
    ensures Adding(Adding(list, a), b) == Adding(list, a + b)
  {
    if b == [] {
      assert a + b == a;
    } else {
      var init, last := b[..|b| - 1], b[|b| - 1];
      AddingBoth(list, a, init);
      AddingStep(list, a + init, last);
      assert a + b == a + init + [last];
    }
  }

  /** What is there already adds nothing. */
  lemma {:induction false} AddingKnown<T>(list: seq<T>, more: seq<T>)
    requires forall x :: x in more ==> x in list
    ensures Adding(list, more) == list
  {
    if more != [] {
      assert more == more[..|more| - 1] + [more[|more| - 1]];
      AddingKnown(list, more[..|more| - 1]);
    }
  }

  // ---- what a token spells ----

  /** The pages of some skill tokens, one after another. */
  function PagesFrom(tokens: seq<string>, expand: Expander): seq<string> {
    if tokens == [] then []
    else
      var pages := expand(tokens[|tokens| - 1]);
      PagesFrom(tokens[..|tokens| - 1], expand) + if pages.Some? then pages.value else []
  }

  /** The skill tokens a token stands for: a packet's own, or the token itself. */
  function SkillsOf(t: string, defs: map<string, PacketDef>): seq<string> {
    if t in defs then defs[t].skills else [t]
  }

  /** Every token is lower than `h` in the composition graph. */
  ghost predicate Lower(tokens: seq<string>, h: nat, defs: map<string, PacketDef>) {
    forall i :: 0 <= i < |tokens| ==> Height(ComposesOf(defs), tokens[i]) < h
  }

  /** The pages of a token, then those of what it composes, all written out. */
  ghost function Spelled(t: string, defs: map<string, PacketDef>, expand: Expander): seq<string>
    requires Acyclic(ComposesOf(defs))
    decreases Height(ComposesOf(defs), t), 1, 0
  {
    if t !in defs then PagesFrom(SkillsOf(t, defs), expand)
    else
      PacketsAreLower(t, defs);
      PagesFrom(SkillsOf(t, defs), expand) + SpelledAll(defs[t].packets, Height(ComposesOf(defs), t), defs, expand)
  }

  ghost function SpelledAll(tokens: seq<string>, h: nat, defs: map<string, PacketDef>, expand: Expander): seq<string>
    requires Acyclic(ComposesOf(defs)) && Lower(tokens, h, defs)
    decreases h, 0, |tokens|
  {
    if tokens == [] then []
    else SpelledAll(tokens[..|tokens| - 1], h, defs, expand) + Spelled(tokens[|tokens| - 1], defs, expand)
  }

  lemma PacketsAreLower(key: string, defs: map<string, PacketDef>)
    requires Acyclic(ComposesOf(defs)) && key in defs
    ensures Lower(defs[key].packets, Height(ComposesOf(defs), key), defs)
  {
    var composes := ComposesOf(defs);
    forall i | 0 <= i < |defs[key].packets| ensures Height(composes, defs[key].packets[i]) < Height(composes, key) {
      assert Composed(composes, key, defs[key].packets[i]);
      HeightDrops(composes, key, defs[key].packets[i]);
    }
  }

  /** No token is as high as this. */
  ghost function Top(defs: map<string, PacketDef>): nat { |ComposesOf(defs)| + 2 }

  lemma BelowTop(tokens: seq<string>, defs: map<string, PacketDef>)
    ensures Lower(tokens, Top(defs), defs)
  {
    forall i | 0 <= i < |tokens| ensures Height(ComposesOf(defs), tokens[i]) < Top(defs) {
      HeightIsBounded(ComposesOf(defs), tokens[i]);
    }
  }

  // ---- pages added in that order ----

  /** The pages now are those before and what the token spells, each where it first appears. */
  ghost predicate AddsSpelled(before: seq<string>, now: seq<string>, t: string, defs: map<string, PacketDef>,
                              expand: Expander) {
    Acyclic(ComposesOf(defs)) ==> now == Adding(before, Spelled(t, defs, expand))
  }

  ghost predicate AddsAllSpelled(before: seq<string>, now: seq<string>, tokens: seq<string>, h: nat,
                                 defs: map<string, PacketDef>, expand: Expander) {
    Acyclic(ComposesOf(defs)) && Lower(tokens, h, defs) ==> now == Adding(before, SpelledAll(tokens, h, defs, expand))
  }

  /** Everything these keys spell is among the pages. */
  ghost predicate Told(pages: seq<string>, done: set<string>, defs: map<string, PacketDef>, expand: Expander) {
    Acyclic(ComposesOf(defs)) ==> forall t, page :: t in done && page in Spelled(t, defs, expand) ==> page in pages
  }

  /** The open keys are above the token in the composition graph: it is none of them. */
  ghost predicate OpenAbove(open: set<string>, t: string, defs: map<string, PacketDef>) {
    Acyclic(ComposesOf(defs)) ==> forall k :: k in open ==> Height(ComposesOf(defs), t) < Height(ComposesOf(defs), k)
  }

  /** The open keys are at least as high as `h`, and the tokens lower. */
  ghost predicate OpenOver(open: set<string>, tokens: seq<string>, h: nat, defs: map<string, PacketDef>) {
    Acyclic(ComposesOf(defs)) ==> Lower(tokens, h, defs) && forall k :: k in open ==> h <= Height(ComposesOf(defs), k)
  }

  lemma OpenAboveEach(open: set<string>, tokens: seq<string>, h: nat, i: nat, defs: map<string, PacketDef>)
    requires OpenOver(open, tokens, h, defs) && i < |tokens|
    ensures OpenAbove(open, tokens[i], defs)
  {
  }

  /** Opening a packet keeps the open keys over what it composes. */
  lemma OpenOverPackets(open: set<string>, key: string, defs: map<string, PacketDef>)
    requires OpenAbove(open, key, defs) && key in defs
    ensures OpenOver(open + {key}, defs[key].packets, Height(ComposesOf(defs), key), defs)
  {
    if Acyclic(ComposesOf(defs)) { PacketsAreLower(key, defs); }
  }

  /** A token whose pages were told already adds nothing. */
  lemma AddsNothing(pages: seq<string>, t: string, seen: set<string>, open: set<string>, defs: map<string, PacketDef>,
                    expand: Expander)
    requires Told(pages, seen - open, defs, expand) && t in seen && OpenAbove(open, t, defs)
    ensures AddsSpelled(pages, pages, t, defs, expand)
  {
    if Acyclic(ComposesOf(defs)) { AddingKnown(pages, Spelled(t, defs, expand)); }
  }

  /** A skill page, or token of some, adds its pages. */
  lemma AddsPages(before: seq<string>, t: string, defs: map<string, PacketDef>, expand: Expander)
    requires t !in defs
    ensures AddsSpelled(before, Adding(before, PagesFrom(SkillsOf(t, defs), expand)), t, defs, expand)
  {
  }

  /** The pages of a packet, then of what it composes. */
  lemma AddsPacket(before: seq<string>, own: seq<string>, now: seq<string>, key: string, defs: map<string, PacketDef>,
                   expand: Expander)
    requires key in defs && own == Adding(before, PagesFrom(SkillsOf(key, defs), expand))
    requires AddsAllSpelled(own, now, defs[key].packets, Height(ComposesOf(defs), key), defs, expand)
    ensures AddsSpelled(before, now, key, defs, expand)
  {
    if Acyclic(ComposesOf(defs)) {
      PacketsAreLower(key, defs);
      AddingBoth(before, PagesFrom(SkillsOf(key, defs), expand),
                 SpelledAll(defs[key].packets, Height(ComposesOf(defs), key), defs, expand));
    }
  }

  lemma AddsOneMore(before: seq<string>, middle: seq<string>, now: seq<string>, tokens: seq<string>, i: nat, h: nat,
                    open: set<string>, defs: map<string, PacketDef>, expand: Expander)
    requires i < |tokens| && AddsAllSpelled(before, middle, tokens[..i], h, defs, expand)
    requires AddsSpelled(middle, now, tokens[i], defs, expand) && OpenOver(open, tokens, h, defs)
    ensures AddsAllSpelled(before, now, tokens[..i + 1], h, defs, expand)
  {
    if Acyclic(ComposesOf(defs)) {
      SpelledOneMore(tokens, i, h, defs, expand);
      AddingBoth(before, SpelledAll(tokens[..i], h, defs, expand), Spelled(tokens[i], defs, expand));
    }
  }

  lemma SpelledOneMore(tokens: seq<string>, i: nat, h: nat, defs: map<string, PacketDef>, expand: Expander)
    requires i < |tokens| && Acyclic(ComposesOf(defs)) && Lower(tokens, h, defs)
    ensures Lower(tokens[..i], h, defs) && Lower(tokens[..i + 1], h, defs)
    ensures SpelledAll(tokens[..i + 1], h, defs, expand) ==
              SpelledAll(tokens[..i], h, defs, expand) + Spelled(tokens[i], defs, expand)
  {
    assert tokens[..i + 1][..i] == tokens[..i];
  }

  /** The pages with those of one more skill token. */
  lemma PagesOneMore(before: seq<string>, middle: seq<string>, now: seq<string>, tokens: seq<string>, i: nat,
                     expand: Expander)
    requires i < |tokens| && expand(tokens[i]).Some? && middle == Adding(before, PagesFrom(tokens[..i], expand))
    requires now == Adding(middle, expand(tokens[i]).value)
    ensures now == Adding(before, PagesFrom(tokens[..i + 1], expand))
  {
    assert tokens[..i + 1][..i] == tokens[..i];
    AddingBoth(before, PagesFrom(tokens[..i], expand), expand(tokens[i]).value);
  }

  /** What was told stays told. */
  lemma ToldMore(before: seq<string>, now: seq<string>, more: seq<string>, done: set<string>,
                 defs: map<string, PacketDef>, expand: Expander)
    requires Told(before, done, defs, expand) && now == Adding(before, more)
    ensures Told(now, done, defs, expand)
  {
    AddingMembers(before, more);
  }

  /** A packet that added its pages is told. */
  lemma ToldOneMore(before: seq<string>, now: seq<string>, done: set<string>, t: string, defs: map<string, PacketDef>,
                    expand: Expander)
    requires Told(now, done, defs, expand) && AddsSpelled(before, now, t, defs, expand)
    ensures Told(now, done + {t}, defs, expand)
  {
    if Acyclic(ComposesOf(defs)) { AddingMembers(before, Spelled(t, defs, expand)); }
  }
}
