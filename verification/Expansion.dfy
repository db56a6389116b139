/** Expanding packets into pages and settings (`packets.py` `expand_token`): a depth-first walk that visits each packet
    once and refuses two values for one setting. */
module Expansion {
  import opened Composition
  import opened Orders
  import opened Outcomes
  import opened PageOrder
  import opened Vocabulary

  /** What a run is resolved for. `expand` names the pages of a skill token and `fill` completes a value from the
      environment; both can fail. */
  datatype Setting = Setting(language: string, expand: string -> Option<seq<string>>, fill: string -> Option<string>)

  datatype Fault =
    | WrongDevice(key: string)
    | NoSuchPage(token: string)
    | Unset(key: string)
    | Clash(key: string, name: string)
    | UnknownToken(token: string)

  /** `device_fault`: whether a packet for one kind of device cannot serve a run in this language. */
  predicate DeviceFault(device: Device, language: string) {
    match device
    case CPU => language == "hip" || language == "cuda"
    case AMD => language != "hip"
    case NVIDIA => language != "cuda"
  }

  predicate DeviceFits(d: PacketDef, language: string) {
    d.device.None? || !DeviceFault(d.device.value, language)
  }

  ghost predicate HasPage(t: string, defs: map<string, PacketDef>, setting: Setting, page: string) {
    exists s :: s in SkillsOf(t, defs) && setting.expand(s).Some? && page in setting.expand(s).value
  }

  ghost predicate PagesFound(t: string, defs: map<string, PacketDef>, setting: Setting) {
    forall s :: s in SkillsOf(t, defs) ==> setting.expand(s).Some?
  }

  ghost predicate Sets(key: string, defs: map<string, PacketDef>, setting: Setting, name: string, value: string) {
    key in defs && exists e :: e in defs[key].env && e.0 == name && setting.fill(e.1) == Some(value)
  }

  ghost predicate Filled(key: string, defs: map<string, PacketDef>, setting: Setting) {
    key in defs ==> forall e :: e in defs[key].env ==> setting.fill(e.1).Some?
  }

  /** A token that resolves by itself. */
  ghost predicate Fine(t: string, defs: map<string, PacketDef>, setting: Setting) {
    PagesFound(t, defs, setting) && Filled(t, defs, setting) && (t in defs ==> DeviceFits(defs[t], setting.language))
  }

  ghost predicate Reached(roots: set<string>, defs: map<string, PacketDef>, t: string) {
    exists r :: r in roots && Reaches(ComposesOf(defs), r, t)
  }

  lemma ReachedBelow(roots: set<string>, defs: map<string, PacketDef>, key: string, sub: string)
    requires Reached(roots, defs, key) && key in defs && sub in defs[key].packets
    ensures Reached(roots, defs, sub)
  {
    var r :| r in roots && Reaches(ComposesOf(defs), r, key);
    assert Composed(ComposesOf(defs), key, sub);
    ReachesOn(ComposesOf(defs), r, key, sub);
  }

  /** A packet reached gives a setting this value. */
  ghost predicate Gives(key: string, roots: set<string>, defs: map<string, PacketDef>, setting: Setting, name: string,
                        value: string) {
    Reached(roots, defs, key) && Sets(key, defs, setting, name, value)
  }

  /** No two packets reached give one setting different values. */
  ghost predicate Consistent(roots: set<string>, defs: map<string, PacketDef>, setting: Setting) {
    forall k, l, name, v, w :: Gives(k, roots, defs, setting, name, v) && Gives(l, roots, defs, setting, name, w) ==>
      v == w
  }

  ghost predicate AllFine(roots: set<string>, defs: map<string, PacketDef>, setting: Setting) {
    forall t :: Reached(roots, defs, t) ==> Fine(t, defs, setting)
  }

  /** What a fault says is so. */
  ghost predicate Explains(fault: Fault, roots: set<string>, defs: map<string, PacketDef>, setting: Setting) {
    match fault
    case WrongDevice(key) => Reached(roots, defs, key) && key in defs && !DeviceFits(defs[key], setting.language)
    case NoSuchPage(t) => Reached(roots, defs, t) && !PagesFound(t, defs, setting)
    case Unset(key) => Reached(roots, defs, key) && !Filled(key, defs, setting)
    case Clash(key, name) => Reached(roots, defs, key) && !Consistent(roots, defs, setting)
    case UnknownToken(_) => false
  }

  lemma FaultMeansFailure(fault: Fault, roots: set<string>, defs: map<string, PacketDef>, setting: Setting)
    requires Explains(fault, roots, defs, setting)
    ensures !(AllFine(roots, defs, setting) && Consistent(roots, defs, setting))
  {
  }

  /** The pages are those of the tokens visited, all found. */
  ghost predicate PagesOf(pages: seq<string>, defs: map<string, PacketDef>, setting: Setting, visited: set<string>) {
    && NoDup(pages)
    && (forall t :: t in visited ==> PagesFound(t, defs, setting))
    && (forall page :: page in pages <==> exists t :: t in visited && HasPage(t, defs, setting, page))
  }

  lemma PagesWithOneMore(before: seq<string>, now: seq<string>, t: string, defs: map<string, PacketDef>,
                         setting: Setting, visited: set<string>)
    requires PagesOf(before, defs, setting, visited) && PagesFound(t, defs, setting)
    requires now == Adding(before, PagesFrom(SkillsOf(t, defs), setting.expand))
    ensures PagesOf(now, defs, setting, visited + {t})
  {
    AddingMembers(before, PagesFrom(SkillsOf(t, defs), setting.expand));
    forall page ensures page in now <==> exists u :: u in visited + {t} && HasPage(u, defs, setting, page) {
      PagesFromMembers(SkillsOf(t, defs), setting, page);
      if page in before {
        var u :| u in visited && HasPage(u, defs, setting, page);
        assert u in visited + {t};
      }
      if HasPage(t, defs, setting, page) { assert t in visited + {t}; }
    }
  }

  lemma {:induction false} PagesFromMembers(tokens: seq<string>, setting: Setting, page: string)
    ensures page in PagesFrom(tokens, setting.expand) <==>
            exists s :: s in tokens && setting.expand(s).Some? && page in setting.expand(s).value
  {
    if tokens != [] {
      var init, last := tokens[..|tokens| - 1], tokens[|tokens| - 1];
      PagesFromMembers(init, setting, page);
      assert tokens == init + [last];
    }
  }

  /** The settings are those of the packets done with, all filled, none clashing. */
  ghost predicate EnvOf(env: map<string, string>, defs: map<string, PacketDef>, setting: Setting, done: set<string>) {
    && (forall k :: k in done ==> Filled(k, defs, setting))
    && (forall k, name, v :: k in done && Sets(k, defs, setting, name, v) ==> name in env && env[name] == v)
    && (forall name :: name in env ==> SetBy(name, env[name], defs, setting, done))
  }

  ghost predicate SetBy(name: string, value: string, defs: map<string, PacketDef>, setting: Setting,
                        done: set<string>) {
    exists k :: k in done && Sets(k, defs, setting, name, value)
  }

  /** The settings `now` are those before and the first `n` entries. */
  ghost predicate EntriesAdded(before: map<string, string>, now: map<string, string>, entries: seq<(string, string)>,
                               n: nat, setting: Setting)
    requires n <= |entries|
  {
    && (forall name :: name in before ==> name in now && now[name] == before[name])
    && (forall j :: 0 <= j < n ==> entries[j].0 in now && setting.fill(entries[j].1) == Some(now[entries[j].0]))
    && (forall name :: name in now && name !in before ==> exists j :: 0 <= j < n && entries[j].0 == name)
  }

  lemma EntryAdded(before: map<string, string>, now: map<string, string>, entries: seq<(string, string)>, i: nat,
                   setting: Setting, value: string)
    requires i < |entries| && EntriesAdded(before, now, entries, i, setting)
    requires setting.fill(entries[i].1) == Some(value)
    requires entries[i].0 in now ==> now[entries[i].0] == value
    ensures EntriesAdded(before, now[entries[i].0 := value], entries, i + 1, setting)
  {
  }

  lemma EnvWithOneMore(before: map<string, string>, now: map<string, string>, key: string, defs: map<string, PacketDef>,
                       setting: Setting, done: set<string>)
    requires key in defs && EnvOf(before, defs, setting, done)
    requires EntriesAdded(before, now, defs[key].env, |defs[key].env|, setting)
    ensures EnvOf(now, defs, setting, done + {key})
  {
    var entries := defs[key].env;
    forall k, name, v | k in done + {key} && Sets(k, defs, setting, name, v) ensures name in now && now[name] == v {
      if k == key {
        var e :| e in entries && e.0 == name && setting.fill(e.1) == Some(v);
        var j :| 0 <= j < |entries| && entries[j] == e;
      }
    }
    forall name | name in now ensures SetBy(name, now[name], defs, setting, done + {key}) {
      if name in before {
        assert SetBy(name, before[name], defs, setting, done);
        var k :| k in done && Sets(k, defs, setting, name, now[name]);
        assert k in done + {key};
      } else {
        var j :| 0 <= j < |entries| && entries[j].0 == name;
        assert entries[j] in entries && key in done + {key};
        assert Sets(key, defs, setting, name, now[name]);
      }
    }
  }

  /** A second value for a setting, given by an entry, is a clash between packets reached. */
  lemma EntryClashes(before: map<string, string>, now: map<string, string>, key: string, i: nat,
                     defs: map<string, PacketDef>, setting: Setting, done: set<string>, roots: set<string>)
    requires key in defs && EnvOf(before, defs, setting, done) && i < |defs[key].env|
    requires EntriesAdded(before, now, defs[key].env, i, setting)
    requires Reached(roots, defs, key) && forall k :: k in done ==> Reached(roots, defs, k)
    requires defs[key].env[i].0 in now && setting.fill(defs[key].env[i].1).Some?
    requires setting.fill(defs[key].env[i].1) != Some(now[defs[key].env[i].0])
    ensures !Consistent(roots, defs, setting)
  {
    var entries := defs[key].env;
    var name, value := entries[i].0, setting.fill(entries[i].1).value;
    assert entries[i] in entries && Gives(key, roots, defs, setting, name, value);
    if name in before {
      assert SetBy(name, before[name], defs, setting, done);
      var k :| k in done && Sets(k, defs, setting, name, before[name]);
      assert Gives(k, roots, defs, setting, name, now[name]);
    } else {
      var j :| 0 <= j < i && entries[j].0 == name;
      assert entries[j] in entries && Sets(key, defs, setting, name, now[name]);
      assert Gives(key, roots, defs, setting, name, now[name]);
    }
  }

  /** `visited` grows outwards from the roots, and everything below a packet done with has been visited. */
  ghost predicate Spread(visited: set<string>, seen: set<string>, roots: set<string>, defs: map<string, PacketDef>,
                         setting: Setting, open: set<string>) {
    && (forall t :: t in seen <==> t in visited && t in defs) && open <= seen
    && (forall t {:trigger Reached(roots, defs, t)} :: t in visited ==> Reached(roots, defs, t))
    && (forall k {:trigger KeyFits(k, defs, setting)} :: k in seen ==> KeyFits(k, defs, setting))
    && (forall k {:trigger SubsVisited(k, defs, visited)} :: k in seen - open ==> SubsVisited(k, defs, visited))
  }

  ghost predicate KeyFits(key: string, defs: map<string, PacketDef>, setting: Setting) {
    key in defs ==> DeviceFits(defs[key], setting.language)
  }

  ghost predicate SubsVisited(key: string, defs: map<string, PacketDef>, visited: set<string>) {
    key in defs ==> forall sub :: sub in defs[key].packets ==> sub in visited
  }

  /** A packet is done with when everything it composes was visited. */
  lemma SpreadCloses(key: string, visited: set<string>, seen: set<string>, roots: set<string>,
                     defs: map<string, PacketDef>, setting: Setting, open: set<string>)
    requires Spread(visited, seen, roots, defs, setting, open + {key}) && SubsVisited(key, defs, visited)
    ensures Spread(visited, seen, roots, defs, setting, open)
  {
    forall k | k in seen - open ensures SubsVisited(k, defs, visited) {
      assert k != key ==> k in seen - (open + {key});
    }
  }

  /** A token is visited, a packet opened. */
  lemma SpreadsOn(t: string, visited: set<string>, seen: set<string>, roots: set<string>, defs: map<string, PacketDef>,
                  setting: Setting, open: set<string>)
    requires Spread(visited, seen, roots, defs, setting, open) && Reached(roots, defs, t) && t !in seen
    requires KeyFits(t, defs, setting)
    ensures Spread(visited + {t}, Opened(t, seen, defs), roots, defs, setting, Opened(t, open, defs))
    ensures Opened(t, seen, defs) - Opened(t, open, defs) == seen - open
  {
    assert Opened(t, seen, defs) - Opened(t, open, defs) == seen - open;
    forall k | k in seen - open ensures SubsVisited(k, defs, visited + {t}) {
      assert SubsVisited(k, defs, visited);
    }
  }

  /** What holds after a visit: more pages, the same settings, and the walk spread to the token. */
  lemma VisitedMore(t: string, before: seq<string>, now: seq<string>, env: map<string, string>, visited: set<string>,
                    seen: set<string>, roots: set<string>, defs: map<string, PacketDef>, setting: Setting,
                    open: set<string>)
    requires PagesOf(before, defs, setting, visited) && EnvOf(env, defs, setting, seen - open)
    requires Spread(visited, seen, roots, defs, setting, open) && Reached(roots, defs, t) && t !in seen
    requires KeyFits(t, defs, setting)
    requires PagesFound(t, defs, setting) && now == Adding(before, PagesFrom(SkillsOf(t, defs), setting.expand))
    ensures PagesOf(now, defs, setting, visited + {t})
    ensures EnvOf(env, defs, setting, Opened(t, seen, defs) - Opened(t, open, defs))
    ensures Spread(visited + {t}, Opened(t, seen, defs), roots, defs, setting, Opened(t, open, defs))
  {
    SpreadsOn(t, visited, seen, roots, defs, setting, open);
    PagesWithOneMore(before, now, t, defs, setting, visited);
  }

  ghost function Opened(t: string, keys: set<string>, defs: map<string, PacketDef>): set<string> {
    if t in defs then keys + {t} else keys
  }

  /** The dictionaries `expand_token` fills. */
  class Collected {
    var skills: seq<string>
    var env: map<string, string>
    var seen: set<string>
    ghost var visited: set<string>

    constructor ()
      ensures skills == [] && env == map[] && seen == {} && visited == {}
    {
      skills, env, seen, visited := [], map[], {}, {};
    }

    ghost predicate Holds(roots: set<string>, defs: map<string, PacketDef>, setting: Setting, open: set<string>)
      reads this
    {
      PagesOf(skills, defs, setting, visited) && EnvOf(env, defs, setting, seen - open) &&
      Spread(visited, seen, roots, defs, setting, open)
    }

    /** Put every page of a token among the skills, once each; or say which skill token has none. */
    method CollectPages(t: string, defs: map<string, PacketDef>, setting: Setting) returns (missing: Option<string>)
      modifies this`skills
      ensures missing.None? <==> PagesFound(t, defs, setting)
      ensures missing.None? ==> skills == Adding(old(skills), PagesFrom(SkillsOf(t, defs), setting.expand))
    {
      var tokens := SkillsOf(t, defs);
      ghost var started := skills;
      for i := 0 to |tokens|
        invariant forall s :: s in tokens[..i] ==> setting.expand(s).Some?
        invariant skills == Adding(started, PagesFrom(tokens[..i], setting.expand))
      {
        var pages := setting.expand(tokens[i]);
        if pages.None? { return Some(tokens[i]); }
        ghost var so := skills;
        AddPages(pages.value);
        PagesOneMore(started, so, skills, tokens, i, setting.expand);
      }
      assert tokens[..|tokens|] == tokens;
      missing := None;
    }

    method AddPages(pages: seq<string>)
      modifies this`skills
      ensures skills == Adding(old(skills), pages)
    {
      ghost var started := skills;
      for i := 0 to |pages|
        invariant skills == Adding(started, pages[..i])
      {
        AddingStep(started, pages[..i], pages[i]);
        assert pages[..i + 1] == pages[..i] + [pages[i]];
        if pages[i] !in skills { skills := skills + [pages[i]]; }
      }
      assert pages[..|pages|] == pages;
    }

    /** Give the settings of one packet, refusing a second value for one of them. */
    method AddEnv(key: string, defs: map<string, PacketDef>, setting: Setting, ghost roots: set<string>,
                  ghost done: set<string>)
      returns (fault: Option<Fault>)
      requires key in defs && EnvOf(env, defs, setting, done)
      requires Reached(roots, defs, key) && forall k :: k in done ==> Reached(roots, defs, k)
      modifies this`env
      ensures fault.None? ==> EnvOf(env, defs, setting, done + {key})
      ensures fault.Some? ==> Explains(fault.value, roots, defs, setting)
    {
      ghost var before := env;
      var entries := defs[key].env;
      for i := 0 to |entries|
        invariant EntriesAdded(before, env, entries, i, setting)
      {
        var name, filled := entries[i].0, setting.fill(entries[i].1);
        if filled.None? {
          assert entries[i] in entries;
          return Some(Unset(key));
        }
        if name in env && env[name] != filled.value {
          EntryClashes(before, env, key, i, defs, setting, done, roots);
          return Some(Clash(key, name));
        }
        EntryAdded(before, env, entries, i, setting, filled.value);
        env := env[name := filled.value];
      }
      EnvWithOneMore(before, env, key, defs, setting, done);
      fault := None;
    }

    /** Visit a token for the first time; a packet stays open while what it composes is visited. */
    method Visit(t: string, defs: map<string, PacketDef>, setting: Setting, ghost roots: set<string>,
                 ghost open: set<string>)
      returns (fault: Option<Fault>)
      requires Holds(roots, defs, setting, open) && Reached(roots, defs, t) && t !in seen
      modifies this`skills, this`visited, this`seen
      ensures fault.None? ==> visited == old(visited) + {t}
      ensures fault.None? ==> Holds(roots, defs, setting, Opened(t, open, defs))
      ensures fault.None? ==> seen == Opened(t, old(seen), defs)
      ensures fault.None? ==> skills == Adding(old(skills), PagesFrom(SkillsOf(t, defs), setting.expand))
      ensures fault.Some? ==> Explains(fault.value, roots, defs, setting)
    {
      ghost var before, earlier := visited, seen;
      visited := visited + {t};
      if t in defs { seen := seen + {t}; }
      if t in defs && !DeviceFits(defs[t], setting.language) { return Some(WrongDevice(t)); }
      var missing := CollectPages(t, defs, setting);
      if missing.Some? { return Some(NoSuchPage(t)); }
      VisitedMore(t, old(skills), skills, env, before, earlier, roots, defs, setting, open);
      fault := None;
    }

    /** `expand_token`: visit a token and what it composes, unless it was visited. */
    method ExpandToken(token: string, defs: map<string, PacketDef>, setting: Setting, ghost roots: set<string>,
                       ghost open: set<string>)
      returns (fault: Option<Fault>)
      requires Holds(roots, defs, setting, open) && Reached(roots, defs, token)
      requires Told(skills, seen - open, defs, setting.expand) && OpenAbove(open, token, defs)
      modifies this
      ensures fault.None? ==> Holds(roots, defs, setting, open) && token in visited && old(visited) <= visited
      ensures fault.None? ==> old(seen) <= seen
      ensures fault.None? ==> AddsSpelled(old(skills), skills, token, defs, setting.expand)
      ensures fault.None? ==> Told(skills, seen - open, defs, setting.expand)
      ensures fault.Some? ==> Explains(fault.value, roots, defs, setting)
      decreases defs.Keys - seen, 1
    {
      if token in seen {
        AddsNothing(skills, token, seen, open, defs, setting.expand);
        return None;
      }
      ghost var started, done := skills, seen - open;
      fault := Visit(token, defs, setting, roots, open);
      if fault.Some? { return; }
      ToldMore(started, skills, PagesFrom(SkillsOf(token, defs), setting.expand), done, defs, setting.expand);
      if token !in defs {
        AddsPages(started, token, defs, setting.expand);
        return;
      }
      assert seen - (open + {token}) == done;
      fault := ExpandPacket(token, defs, setting, roots, open, started);
    }

    /** The rest of `expand_token` for a packet just visited: what it composes, then its settings. */
    method ExpandPacket(token: string, defs: map<string, PacketDef>, setting: Setting, ghost roots: set<string>,
                        ghost open: set<string>, ghost started: seq<string>)
      returns (fault: Option<Fault>)
      requires token in defs && Holds(roots, defs, setting, open + {token}) && Reached(roots, defs, token)
      requires token !in open && token in visited && OpenAbove(open, token, defs)
      requires Told(skills, seen - (open + {token}), defs, setting.expand)
      requires skills == Adding(started, PagesFrom(SkillsOf(token, defs), setting.expand))
      modifies this
      ensures fault.None? ==> Holds(roots, defs, setting, open) && token in visited && old(visited) <= visited
      ensures fault.None? ==> old(seen) <= seen
      ensures fault.None? ==> AddsSpelled(started, skills, token, defs, setting.expand)
      ensures fault.None? ==> Told(skills, seen - open, defs, setting.expand)
      ensures fault.Some? ==> Explains(fault.value, roots, defs, setting)
      decreases defs.Keys - seen, 3
    {
      ghost var own := skills;
      forall sub | sub in defs[token].packets ensures Reached(roots, defs, sub) {
        ReachedBelow(roots, defs, token, sub);
      }
      OpenOverPackets(open, token, defs);
      fault := ExpandAll(defs[token].packets, Height(ComposesOf(defs), token), defs, setting, roots, open + {token});
      if fault.Some? { return; }
      AddsPacket(started, own, skills, token, defs, setting.expand);
      ToldOneMore(started, skills, seen - (open + {token}), token, defs, setting.expand);
      SpreadCloses(token, visited, seen, roots, defs, setting, open);
      fault := AddEnv(token, defs, setting, roots, seen - (open + {token}));
      assert seen - open == seen - (open + {token}) + {token};
    }

    /** Expand tokens one after another. */
    method ExpandAll(tokens: seq<string>, ghost h: nat, defs: map<string, PacketDef>, setting: Setting,
                     ghost roots: set<string>, ghost open: set<string>)
      returns (fault: Option<Fault>)
      requires Holds(roots, defs, setting, open) && forall t :: t in tokens ==> Reached(roots, defs, t)
      requires Told(skills, seen - open, defs, setting.expand) && OpenOver(open, tokens, h, defs)
      modifies this
      ensures fault.None? ==> AddsAllSpelled(old(skills), skills, tokens, h, defs, setting.expand)
      ensures fault.None? ==> Told(skills, seen - open, defs, setting.expand)
      ensures fault.None? ==> Holds(roots, defs, setting, open) && old(visited) <= visited && old(seen) <= seen
      ensures fault.None? ==> forall t :: t in tokens ==> t in visited
      ensures fault.Some? ==> Explains(fault.value, roots, defs, setting)
      decreases defs.Keys - seen, 2
    {
      ghost var started := skills;
      for i := 0 to |tokens|
        invariant Holds(roots, defs, setting, open) && old(visited) <= visited && old(seen) <= seen
        invariant forall j :: 0 <= j < i ==> tokens[j] in visited
        invariant Told(skills, seen - open, defs, setting.expand)
        invariant AddsAllSpelled(started, skills, tokens[..i], h, defs, setting.expand)
      {
        ghost var so := skills;
        OpenAboveEach(open, tokens, h, i, defs);
        fault := ExpandToken(tokens[i], defs, setting, roots, open);
        if fault.Some? { return; }
        AddsOneMore(started, so, skills, tokens, i, h, open, defs, setting.expand);
      }
      assert tokens[..|tokens|] == tokens;
      fault := None;
    }
  }

  /** What is closed under composition holds everything its tokens reach. */
  lemma {:induction false} WalkStaysIn(visited: set<string>, defs: map<string, PacketDef>, p: seq<string>)
    requires forall k, sub :: k in visited && k in defs && sub in defs[k].packets ==> sub in visited
    requires Walk(ComposesOf(defs), p) && p[0] in visited
    ensures p[|p| - 1] in visited
    decreases |p|
  {
    if |p| > 1 {
      assert Composed(ComposesOf(defs), p[0], p[1]);
      WalkPart(ComposesOf(defs), p, 1, |p|);
      WalkStaysIn(visited, defs, p[1..]);
    }
  }

  /** The pages and settings of everything the tokens reach, and nothing else. */
  ghost predicate IsExpansion(pages: seq<string>, env: map<string, string>, roots: set<string>,
                              defs: map<string, PacketDef>, setting: Setting) {
    && NoDup(pages)
    && (forall page :: page in pages <==> PageReached(page, roots, defs, setting))
    && (forall name, value :: (name in env && env[name] == value) <==> ValueReached(name, value, roots, defs, setting))
  }

  ghost predicate PageReached(page: string, roots: set<string>, defs: map<string, PacketDef>, setting: Setting) {
    exists t :: Reached(roots, defs, t) && HasPage(t, defs, setting, page)
  }

  ghost predicate ValueReached(name: string, value: string, roots: set<string>, defs: map<string, PacketDef>,
                               setting: Setting) {
    exists k :: Gives(k, roots, defs, setting, name, value)
  }

  ghost function RootsOf(tokens: seq<string>): set<string> {
    set t | t in tokens
  }

  /** Expand the tokens of a spec: it fails exactly when something reached does not resolve by itself, or two packets
      reached disagree on a setting. */
  method Expand(tokens: seq<string>, defs: map<string, PacketDef>, setting: Setting)
    returns (fault: Option<Fault>, pages: seq<string>, env: map<string, string>)
    ensures fault.None? <==> AllFine(RootsOf(tokens), defs, setting) && Consistent(RootsOf(tokens), defs, setting)
    ensures fault.None? ==> IsExpansion(pages, env, RootsOf(tokens), defs, setting)
    ensures fault.None? ==> AddsAllSpelled([], pages, tokens, Top(defs), defs, setting.expand)
  {
    BelowTop(tokens, defs);
    var collected := new Collected();
    ghost var roots := RootsOf(tokens);
    forall t | t in tokens ensures Reached(roots, defs, t) { ReachesItself(ComposesOf(defs), t); }
    assert EnvOf(map[], defs, setting, {});
    fault := collected.ExpandAll(tokens, Top(defs), defs, setting, roots, {});
    pages, env := collected.skills, collected.env;
    if fault.Some? {
      FaultMeansFailure(fault.value, roots, defs, setting);
    } else {
      assert collected.seen - {} == collected.seen;
      AllVisited(pages, env, collected.visited, collected.seen, roots, defs, setting);
    }
  }

  lemma ReachedStaysIn(visited: set<string>, roots: set<string>, defs: map<string, PacketDef>, t: string)
    requires forall k, sub :: k in visited && k in defs && sub in defs[k].packets ==> sub in visited
    requires roots <= visited && Reached(roots, defs, t)
    ensures t in visited
  {
    var r :| r in roots && Reaches(ComposesOf(defs), r, t);
    var p :| Walk(ComposesOf(defs), p) && p[0] == r && p[|p| - 1] == t;
    WalkStaysIn(visited, defs, p);
  }

  lemma VisitedIsReached(visited: set<string>, seen: set<string>, roots: set<string>, defs: map<string, PacketDef>,
                         setting: Setting)
    requires Spread(visited, seen, roots, defs, setting, {}) && roots <= visited
    ensures forall t :: Reached(roots, defs, t) <==> t in visited
  {
    forall k, sub | k in visited && k in defs && sub in defs[k].packets ensures sub in visited {
      assert k in seen - {} && SubsVisited(k, defs, visited);
    }
    forall t | Reached(roots, defs, t) ensures t in visited {
      ReachedStaysIn(visited, roots, defs, t);
    }
  }

  lemma ValuesReached(env: map<string, string>, seen: set<string>, roots: set<string>, defs: map<string, PacketDef>,
                      setting: Setting)
    requires EnvOf(env, defs, setting, seen) && forall k :: k in seen <==> k in defs && Reached(roots, defs, k)
    ensures Consistent(roots, defs, setting)
    ensures forall name, value :: (name in env && env[name] == value) <==>
              ValueReached(name, value, roots, defs, setting)
  {
    forall k, name, v | Gives(k, roots, defs, setting, name, v) ensures name in env && env[name] == v {
      assert k in seen;
    }
    forall name | name in env ensures ValueReached(name, env[name], roots, defs, setting) {
      assert SetBy(name, env[name], defs, setting, seen);
      var k :| k in seen && Sets(k, defs, setting, name, env[name]);
      assert Gives(k, roots, defs, setting, name, env[name]);
    }
  }

  lemma AllVisited(pages: seq<string>, env: map<string, string>, visited: set<string>, seen: set<string>,
                   roots: set<string>, defs: map<string, PacketDef>, setting: Setting)
    requires PagesOf(pages, defs, setting, visited) && EnvOf(env, defs, setting, seen)
    requires Spread(visited, seen, roots, defs, setting, {}) && roots <= visited
    ensures AllFine(roots, defs, setting) && Consistent(roots, defs, setting)
    ensures IsExpansion(pages, env, roots, defs, setting)
  {
    VisitedIsReached(visited, seen, roots, defs, setting);
    ValuesReached(env, seen, roots, defs, setting);
    forall t | Reached(roots, defs, t) ensures Fine(t, defs, setting) {
      assert t in visited && (t in defs ==> t in seen && KeyFits(t, defs, setting));
    }
    forall page ensures page in pages <==> PageReached(page, roots, defs, setting) {
      if t :| t in visited && HasPage(t, defs, setting, page) { assert Reached(roots, defs, t); }
    }
  }
}
