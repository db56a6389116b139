/** Packet specs as text (`packets.py`): tokens between `+` and `;`, stripped, aliases resolved, each kept once. */
module Specs {
  import opened Orders

  predicate IsSeparator(c: char) { c == '+' || c == ';' }

  /** What Python's `str.strip` strips. */
  predicate IsSpace(c: char) {
    var n := c as int;
    9 <= n <= 13 || 28 <= n <= 32 || n == 0x85 || n == 0xA0 || n == 0x1680 || 0x2000 <= n <= 0x200A ||
    n == 0x2028 || n == 0x2029 || n == 0x202F || n == 0x205F || n == 0x3000
  }

  function TokenEnd(s: string): (e: nat)
    ensures e <= |s| && (forall i :: 0 <= i < e ==> !IsSeparator(s[i])) && (e < |s| ==> IsSeparator(s[e]))
  {
    if s == "" || IsSeparator(s[0]) then 0 else 1 + TokenEnd(s[1..])
  }

  function DropSeparators(s: string): (t: string)
    ensures |t| <= |s| && (s != "" && IsSeparator(s[0]) ==> |t| < |s|)
  {
    if s != "" && IsSeparator(s[0]) then DropSeparators(s[1..]) else s
  }

  /** `re.split(r"[+;]+", s)`. */
  function Split(s: string): seq<string>
    decreases |s|
  {
    var e := TokenEnd(s);
    if e == |s| then [s] else [s[..e]] + Split(DropSeparators(s[e..]))
  }

  function StripLeft(s: string): (t: string)
    ensures t == "" || !IsSpace(t[0])
    ensures Solid(s) ==> Solid(t)
  {
    if s != "" && IsSpace(s[0]) then StripLeft(s[1..]) else s
  }

  function StripRight(s: string): (t: string)
    ensures t == "" || (s != "" && !IsSpace(t[|t| - 1]) && t[0] == s[0])
    ensures Solid(s) ==> Solid(t)
  {
    if s != "" && IsSpace(s[|s| - 1]) then StripRight(s[..|s| - 1]) else s
  }

  function Strip(s: string): string { StripRight(StripLeft(s)) }

  /** A token as splitting leaves it: no separator in it. */
  predicate Solid(t: string) { forall i :: 0 <= i < |t| ==> !IsSeparator(t[i]) }

  /** A name a spec can spell: not empty, no separator in it, no space around it. */
  predicate Clean(t: string) {
    t != "" && Solid(t) && !IsSpace(t[0]) && !IsSpace(t[|t| - 1])
  }

  /** An alias resolved; any other name passes through. */
  function Named(token: string, aliases: map<string, string>): string {
    var t := Strip(token);
    if t in aliases then aliases[t] else t
  }

  /** The named tokens, empty ones and repeats dropped. */
  function Distinct(tokens: seq<string>, aliases: map<string, string>): seq<string> {
    if tokens == [] then []
    else
      var prior, t := Distinct(tokens[..|tokens| - 1], aliases), Named(tokens[|tokens| - 1], aliases);
      if t == "" || t in prior then prior else prior + [t]
  }

  /** `spec_parts`. */
  function Parts(spec: string, aliases: map<string, string>): seq<string> { Distinct(Split(spec), aliases) }

  /** `"+".join`. */
  function Join(tokens: seq<string>): string {
    if tokens == [] then "" else if |tokens| == 1 then tokens[0] else tokens[0] + "+" + Join(tokens[1..])
  }

  lemma {:induction false} SplitIsSolid(s: string)
    ensures forall k :: 0 <= k < |Split(s)| ==> Solid(Split(s)[k])
    decreases |s|
  {
    var e := TokenEnd(s);
    if e < |s| { SplitIsSolid(DropSeparators(s[e..])); }
  }

  lemma TokenEndOf(t: string, s: string)
    requires Solid(t) && t <= s && (t == s || IsSeparator(s[|t|]))
    ensures TokenEnd(s) == |t|
  {
    var e := TokenEnd(s);
    assert forall i :: 0 <= i < |t| ==> t[i] == s[i];
  }

  lemma DropPlus(rest: string)
    ensures DropSeparators("+" + rest) == DropSeparators(rest)
  {
    assert ("+" + rest)[1..] == rest;
  }

  lemma Around(t: string, rest: string)
    ensures (t + "+" + rest)[..|t|] == t && (t + "+" + rest)[|t|..] == "+" + rest
  {
  }

  lemma SplitStep(s: string, t: string, tail: string)
    requires TokenEnd(s) == |t| < |s| && s[..|t|] == t && s[|t|..] == tail
    ensures Split(s) == [t] + Split(DropSeparators(tail))
  {
  }

  lemma SplitAfter(t: string, rest: string)
    requires Solid(t)
    ensures Split(t + "+" + rest) == [t] + Split(DropSeparators(rest))
  {
    var s := t + "+" + rest;
    Around(t, rest);
    TokenEndOf(t, s);
    SplitStep(s, t, "+" + rest);
    DropPlus(rest);
  }

  lemma SplitFirst(t: string, rest: string)
    requires Solid(t) && rest != "" && !IsSeparator(rest[0])
    ensures Split(t + "+" + rest) == [t] + Split(rest)
  {
    SplitAfter(t, rest);
    assert DropSeparators(rest) == rest;
  }

  lemma {:induction false} JoinStarts(tokens: seq<string>)
    requires tokens != [] && tokens[0] != "" && Solid(tokens[0])
    ensures Join(tokens) != "" && Join(tokens)[0] == tokens[0][0] && !IsSeparator(Join(tokens)[0])
  {
  }

  /** Splitting what was joined gives the tokens back. */
  lemma {:induction false} SplitJoin(tokens: seq<string>)
    requires tokens != [] && forall k :: 0 <= k < |tokens| ==> tokens[k] != "" && Solid(tokens[k])
    ensures Split(Join(tokens)) == tokens
  {
    if |tokens| == 1 {
      TokenEndOf(tokens[0], tokens[0]);
    } else {
      SplitJoin(tokens[1..]);
      JoinStarts(tokens[1..]);
      SplitFirst(tokens[0], Join(tokens[1..]));
      assert tokens == [tokens[0]] + tokens[1..];
    }
  }

  lemma StripOfSolid(t: string)
    requires Solid(t)
    ensures Strip(t) == "" || Clean(Strip(t))
  {
  }

  lemma StripClean(t: string)
    requires Clean(t)
    ensures Strip(t) == t
  {
  }

  lemma {:induction false} DistinctMembers(tokens: seq<string>, aliases: map<string, string>)
    ensures NoDup(Distinct(tokens, aliases))
    ensures forall x :: x in Distinct(tokens, aliases) <==>
              x != "" && exists i :: 0 <= i < |tokens| && Named(tokens[i], aliases) == x
  {
    if tokens != [] {
      var init := tokens[..|tokens| - 1];
      DistinctMembers(init, aliases);
      forall x
        ensures x in Distinct(tokens, aliases) <==>
                  x != "" && exists i :: 0 <= i < |tokens| && Named(tokens[i], aliases) == x
      {
        if x in Distinct(init, aliases) {
          var i :| 0 <= i < |init| && Named(init[i], aliases) == x;
          assert Named(tokens[i], aliases) == x;
        }
        if i :| 0 <= i < |tokens| && Named(tokens[i], aliases) == x {
          if i < |init| { assert Named(init[i], aliases) == x; }
        }
      }
    }
  }

  // ---- the tokens of a spec, whatever their order and spacing ----

  /** Some piece, stripped, is the token. */
  ghost predicate HasToken(pieces: seq<string>, token: string) {
    exists i :: 0 <= i < |pieces| && Strip(pieces[i]) == token
  }

  ghost predicate TokensWithin(pieces: seq<string>, others: seq<string>) {
    forall token :: token != "" && HasToken(pieces, token) ==> HasToken(others, token)
  }

  /** The specs have the same tokens: pieces between separators, stripped, empty ones left out. */
  ghost predicate SameTokens(spec: string, respelled: string) {
    TokensWithin(Split(spec), Split(respelled)) && TokensWithin(Split(respelled), Split(spec))
  }

  lemma DistinctWithin(pieces: seq<string>, others: seq<string>, aliases: map<string, string>)
    requires "" !in aliases && TokensWithin(pieces, others)
    ensures forall x :: x in Distinct(pieces, aliases) ==> x in Distinct(others, aliases)
  {
    DistinctMembers(pieces, aliases);
    DistinctMembers(others, aliases);
    forall x | x in Distinct(pieces, aliases) ensures x in Distinct(others, aliases) {
      var i :| 0 <= i < |pieces| && Named(pieces[i], aliases) == x;
      var token := Strip(pieces[i]);
      assert token != "" && HasToken(pieces, token);
      var j :| 0 <= j < |others| && Strip(others[j]) == token;
      assert Named(others[j], aliases) == x;
    }
  }

  /** Reordering, repeating and spacing out the tokens of a spec does not change which parts it has. */
  lemma PartsIgnoreOrder(spec: string, respelled: string, aliases: map<string, string>)
    requires "" !in aliases && SameTokens(spec, respelled)
    ensures forall x :: x in Parts(spec, aliases) <==> x in Parts(respelled, aliases)
    ensures multiset(Parts(spec, aliases)) == multiset(Parts(respelled, aliases))
  {
    DistinctWithin(Split(spec), Split(respelled), aliases);
    DistinctWithin(Split(respelled), Split(spec), aliases);
    DistinctMembers(Split(spec), aliases);
    DistinctMembers(Split(respelled), aliases);
    SameElements(Parts(spec, aliases), Parts(respelled, aliases));
  }

  /** Clean distinct names that are no aliases are their own parts. */
  lemma {:induction false} DistinctOfClean(tokens: seq<string>, aliases: map<string, string>)
    requires NoDup(tokens) && forall t :: t in tokens ==> Clean(t) && t !in aliases
    ensures Distinct(tokens, aliases) == tokens
  {
    if tokens != [] {
      var init, last := tokens[..|tokens| - 1], tokens[|tokens| - 1];
      DistinctOfClean(init, aliases);
      assert last in tokens;
      StripClean(last);
    }
  }

  // ---- joining and splitting with empty tokens about ----

  function Kept(tokens: seq<string>): seq<string> {
    if tokens == [] then [] else if tokens[0] == "" then Kept(tokens[1..]) else [tokens[0]] + Kept(tokens[1..])
  }

  lemma SkippingKeeps(s: string)
    ensures Kept(Split(DropSeparators(s))) == Kept(Split(s))
  {
    if s != "" && IsSeparator(s[0]) {
      assert Split(s) == [""] + Split(DropSeparators(s[0..]));
      assert s[0..] == s;
    }
  }

  /** Joining tokens and splitting again loses empty ones at most. */
  lemma {:induction false} SplitJoinKeeps(tokens: seq<string>)
    requires tokens != [] && forall k :: 0 <= k < |tokens| ==> Solid(tokens[k])
    ensures Kept(Split(Join(tokens))) == Kept(tokens)
  {
    if |tokens| == 1 {
      TokenEndOf(tokens[0], tokens[0]);
    } else {
      SplitJoinKeeps(tokens[1..]);
      var rest := Join(tokens[1..]);
      SplitAfter(tokens[0], rest);
      SkippingKeeps(rest);
      var split := Split(DropSeparators(rest));
      assert ([tokens[0]] + split)[1..] == split;
    }
  }

  lemma {:induction false} KeptMembers(tokens: seq<string>)
    ensures forall t :: t in Kept(tokens) <==> t in tokens && t != ""
  {
    if tokens != [] { KeptMembers(tokens[1..]); }
  }

  /** Which parts a spec has depends on its non-empty tokens alone. */
  lemma PartsOfKept(tokens: seq<string>, others: seq<string>, aliases: map<string, string>)
    requires Kept(tokens) == Kept(others) && "" !in aliases
    ensures forall x :: x in Distinct(tokens, aliases) ==> x in Distinct(others, aliases)
  {
    KeptMembers(tokens);
    KeptMembers(others);
    DistinctMembers(tokens, aliases);
    DistinctMembers(others, aliases);
    forall x | x in Distinct(tokens, aliases) ensures x in Distinct(others, aliases) {
      var i :| 0 <= i < |tokens| && Named(tokens[i], aliases) == x;
      assert tokens[i] != "";
      assert tokens[i] in others;
      var j :| 0 <= j < |others| && others[j] == tokens[i];
    }
  }

  // ---- the GPU names of device-neutral packets ----

  /** `GPU_ALIASES`: the keys a GPU language names differently. */
  const GPU_ALIASES: map<string, string> := map["cpf-src" := "cpf-gpu-src", "cpf-tool" := "cpf-tool-gpu",
                                                "cpf-src-kinds" := "cpf-gpu-src-kinds",
                                                "cpf-tool-kinds" := "cpf-tool-gpu-kinds"]

  function GpuName(token: string): string {
    var t := Strip(token);
    if t in GPU_ALIASES then GPU_ALIASES[t] else token
  }

  /** Each of the tokens, renamed. */
  function Each(tokens: seq<string>, rename: string -> string): seq<string> {
    if tokens == [] then [] else Each(tokens[..|tokens| - 1], rename) + [rename(tokens[|tokens| - 1])]
  }

  function GpuNames(tokens: seq<string>): seq<string> { Each(tokens, GpuName) }

  /** `by_device`: a spec with the keys renamed for a device language. */
  function ByDevice(spec: string, language: string): string {
    if language == "hip" || language == "cuda" then Join(GpuNames(Split(spec))) else spec
  }

  lemma {:induction false} EachAt(tokens: seq<string>, rename: string -> string)
    ensures |Each(tokens, rename)| == |tokens|
    ensures forall k :: 0 <= k < |tokens| ==> Each(tokens, rename)[k] == rename(tokens[k])
  {
    if tokens != [] { EachAt(tokens[..|tokens| - 1], rename); }
  }

  /** The GPU keys are clean names. */
  lemma GpuKeysAreClean()
    ensures forall t :: t in GPU_ALIASES ==> Clean(GPU_ALIASES[t])
  {
  }

  lemma GpuNameSolid(token: string)
    requires Solid(token)
    ensures Solid(GpuName(token))
  {
    GpuKeysAreClean();
  }

  /** The parts of a spec for a language are its tokens renamed for the device, named. */
  lemma DevicePartsAre(spec: string, language: string, aliases: map<string, string>)
    requires "" !in aliases && (language == "hip" || language == "cuda")
    ensures forall x :: x in Parts(ByDevice(spec, language), aliases) <==> x in Distinct(GpuNames(Split(spec)), aliases)
  {
    var tokens := GpuNames(Split(spec));
    SplitIsSolid(spec);
    EachAt(Split(spec), GpuName);
    forall k | 0 <= k < |tokens| ensures Solid(tokens[k]) { GpuNameSolid(Split(spec)[k]); }
    SplitJoinKeeps(tokens);
    PartsOfKept(tokens, Split(Join(tokens)), aliases);
    PartsOfKept(Split(Join(tokens)), tokens, aliases);
  }

  lemma StripAgain(t: string)
    ensures Strip(Strip(t)) == Strip(t)
  {
  }

  /** Renaming goes by the stripped token. */
  lemma GpuNameStrips(t: string)
    ensures Strip(GpuName(t)) == GpuName(Strip(t))
  {
    StripAgain(t);
    if Strip(t) in GPU_ALIASES {
      GpuKeysAreClean();
      StripClean(GPU_ALIASES[Strip(t)]);
    }
  }

  lemma RenamedWithin(pieces: seq<string>, others: seq<string>, rename: string -> string)
    requires TokensWithin(pieces, others) && rename("") == "" && forall t :: Strip(rename(t)) == rename(Strip(t))
    ensures TokensWithin(Each(pieces, rename), Each(others, rename))
  {
    var a, b := Each(pieces, rename), Each(others, rename);
    EachAt(pieces, rename);
    EachAt(others, rename);
    forall token | token != "" && HasToken(a, token) ensures HasToken(b, token) {
      var i :| 0 <= i < |a| && Strip(a[i]) == token;
      assert Strip(pieces[i]) != "" && HasToken(pieces, Strip(pieces[i]));
      var j :| 0 <= j < |others| && Strip(others[j]) == Strip(pieces[i]);
      assert Strip(b[j]) == token;
    }
  }

  lemma GpuNamesWithin(pieces: seq<string>, others: seq<string>)
    requires TokensWithin(pieces, others)
    ensures TokensWithin(GpuNames(pieces), GpuNames(others))
  {
    forall t ensures Strip(GpuName(t)) == GpuName(Strip(t)) { GpuNameStrips(t); }
    RenamedWithin(pieces, others, GpuName);
  }

  /** Reordering, repeating and spacing out tokens does not change the parts a spec has for a language either. */
  lemma DevicePartsIgnoreOrder(spec: string, respelled: string, language: string, aliases: map<string, string>)
    requires "" !in aliases && SameTokens(spec, respelled)
    ensures multiset(Parts(ByDevice(spec, language), aliases)) ==
              multiset(Parts(ByDevice(respelled, language), aliases))
  {
    if language == "hip" || language == "cuda" {
      var a, b := Split(spec), Split(respelled);
      DevicePartsAre(spec, language, aliases);
      DevicePartsAre(respelled, language, aliases);
      GpuNamesWithin(a, b);
      GpuNamesWithin(b, a);
      DistinctWithin(GpuNames(a), GpuNames(b), aliases);
      DistinctWithin(GpuNames(b), GpuNames(a), aliases);
      DistinctMembers(Split(ByDevice(spec, language)), aliases);
      DistinctMembers(Split(ByDevice(respelled, language)), aliases);
      SameElements(Parts(ByDevice(spec, language), aliases), Parts(ByDevice(respelled, language), aliases));
    } else {
      PartsIgnoreOrder(spec, respelled, aliases);
    }
  }
}
