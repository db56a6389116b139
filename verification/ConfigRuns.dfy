/** Runs of the configuration (`config.py`): overrides set, cleared and restored, environment changes and nested blocks,
    against a cache that is never seen. */
module ConfigRuns {
  import opened Config
  import opened Outcomes

  /** What a run does. A block whose override is refused raises before anything changes and runs no body; a body that
      raises is one that stops early. */
  datatype Step =
    | Set(path: Path, value: Tree)
    | Clear(path: Path)
    | Restore(snapshot: Overrides)
    | Reload
    | SetEnv(name: string, text: Option<string>)
    | Current
    | Overridden(path: Path, value: Tree, body: seq<Step>)
    | Scoped(values: Scope, body: seq<Step>)

  datatype State = State(values: Overrides, environ: Env)

  /** `set_override`'s checks: a known key and a value it accepts. */
  function Accepted(s: Schema, p: Path, value: Tree): Option<Tree> {
    if p in s.fields then s.accept(p, value) else None
  }

  function WithEnv(environ: Env, name: string, text: Option<string>): Env {
    match text case Some(t) => environ[name := t] case None => environ - {name}
  }

  /** What leaving an `overridden` block does: the key as it was before, or none. */
  function PutBack(values: Overrides, before: Option<Tree>, p: Path): Overrides {
    match before case Some(value) => With(values, p, value) case None => Minus(values, p)
  }

  /** The state after a run, with no cache. */
  ghost function Run(s: Schema, st: State, steps: seq<Step>): State
    decreases steps, 0
  {
    if steps == [] then st else Do(s, Run(s, st, steps[..|steps| - 1]), steps[|steps| - 1])
  }

  ghost function Do(s: Schema, st: State, step: Step): State
    decreases step, 1
  {
    match step
    case Set(p, value) => (match Accepted(s, p, value)
      case Some(v) => st.(values := With(st.values, p, v))
      case None => st)
    case Clear(p) => st.(values := Minus(st.values, p))
    case Restore(snapshot) => st.(values := snapshot)
    case Reload => st.(values := [])
    case SetEnv(name, text) => st.(environ := WithEnv(st.environ, name, text))
    case Current => st
    case Overridden(p, value, body) => (match Accepted(s, p, value)
      case Some(v) =>
        var inside := Run(s, st.(values := With(st.values, p, v)), body);
        inside.(values := PutBack(inside.values, ValueAt(st.values, p), p))
      case None => st)
    case Scoped(_, body) => Run(s, st, body)
  }

  /** What `current()` answers in a run, with no cache: each time the resolution of what holds then. */
  ghost function Answers(s: Schema, st: State, steps: seq<Step>, scope: Scope): seq<Result<Leaves, Failure>>
    decreases steps, 0
  {
    if steps == [] then []
    else
      var init := steps[..|steps| - 1];
      Answers(s, st, init, scope) + AnswersTo(s, Run(s, st, init), steps[|steps| - 1], scope)
  }

  ghost function AnswersTo(s: Schema, st: State, step: Step, scope: Scope): seq<Result<Leaves, Failure>>
    decreases step, 1
  {
    match step
    case Current => [Resolution(s, Environment(st.environ, scope), st.values)]
    case Reload => [Resolution(s, Environment(st.environ, scope), [])]
    case Overridden(p, value, body) => (match Accepted(s, p, value)
      case Some(v) => Answers(s, st.(values := With(st.values, p, v)), body, scope)
      case None => [])
    case Scoped(values, body) => Answers(s, st, body, scope + values)
    case _ => []
  }

  // ---- what well-nested blocks keep ----

  /** Blocks, reads and environment changes alone. */
  ghost predicate BlocksOnly(steps: seq<Step>)
    decreases steps, 0
  {
    forall i :: 0 <= i < |steps| ==> IsBlock(steps[i])
  }

  ghost predicate IsBlock(step: Step)
    decreases step, 1
  {
    match step
    case SetEnv(_, _) => true
    case Current => true
    case Overridden(_, _, body) => BlocksOnly(body)
    case Scoped(_, body) => BlocksOnly(body)
    case _ => false
  }

  /** However blocks are nested, leaving them restores the override table exactly. */
  lemma {:induction false} BlocksRestore(s: Schema, st: State, steps: seq<Step>)
    requires BlocksOnly(steps)
    ensures Run(s, st, steps).values == st.values
    decreases steps, 0
  {
    if steps != [] {
      var init, last := steps[..|steps| - 1], steps[|steps| - 1];
      assert forall i :: 0 <= i < |init| ==> init[i] == steps[i];
      BlocksRestore(s, st, init);
      BlockRestores(s, Run(s, st, init), last);
    }
  }

  lemma {:induction false} BlockRestores(s: Schema, st: State, step: Step)
    requires IsBlock(step)
    ensures Do(s, st, step).values == st.values
    decreases step, 1
  {
    match step
    case Overridden(p, value, body) =>
      if Accepted(s, p, value).Some? {
        BlocksRestore(s, st.(values := With(st.values, p, Accepted(s, p, value).value)), body);
        SetAndPutBack(st.values, p, Accepted(s, p, value).value);
      }
    case Scoped(_, body) => BlocksRestore(s, st, body);
    case _ =>
  }

  // ---- the process ----

  /** One remembered resolution: the prefixed environment and override version it is for. */
  datatype Entry = Entry(env: Env, version: nat, settings: Leaves)

  const RESOLVED_CACHE_SIZE: nat := 64

  class Process {
    const schema: Schema
    const table: OverrideTable
    var environ: Env
    /** The memoized `resolve`, least recently used first. */
    var cache: seq<Entry>

    constructor (schema: Schema, environ: Env)
      requires ValidSchema(schema)
      ensures Valid() && fresh(table) && Now() == State([], environ) && this.schema == schema
    {
      this.schema, this.environ, cache := schema, environ, [];
      table := new OverrideTable();
    }

    ghost function Now(): State
      reads this, table
    {
      State(table.values, environ)
    }

    /** What is remembered is what the table held at that version resolves to. */
    ghost predicate Remembered(e: Entry)
      reads this, table
    {
      e.version in table.history && Resolution(schema, e.env, table.history[e.version]) == Ok(e.settings)
    }

    ghost predicate Valid()
      reads this, table
    {
      && ValidSchema(schema) && table.Valid()
      && |cache| <= RESOLVED_CACHE_SIZE
      && (forall i :: 0 <= i < |cache| ==> Remembered(cache[i]))
    }

    /** The position of the entry for this environment and version, or the end. */
    method Find(env: Env, version: nat) returns (k: nat)
      ensures k <= |cache| && (k < |cache| ==> cache[k].env == env && cache[k].version == version)
    {
      k := 0;
      while k < |cache| && !(cache[k].env == env && cache[k].version == version)
        invariant k <= |cache|
      {
        k := k + 1;
      }
    }

    /** `current()`: whatever is remembered, the answer is the resolution of the environment and overrides as they
        are. */
    method GetCurrent(scope: Scope) returns (r: Result<Leaves, Failure>)
      requires Valid()
      modifies this`cache
      ensures Valid() && r == Resolution(schema, Environment(environ, scope), table.values)
    {
      var full := Environment(environ, scope);
      var env := Prefixed(schema, full);
      assert Prefixed(schema, env) == env;
      ResolutionReadsPrefixed(schema, env, full, table.values);
      var k := Find(env, table.version);
      if k < |cache| {
        var hit := cache[k];
        assert Remembered(hit);
        cache := cache[..k] + cache[k + 1..] + [hit];
        return Ok(hit.settings);
      }
      r := Resolve(schema, full, table.values);
      if r.Ok? {
        var entry := Entry(env, table.version, r.value);
        cache := (if |cache| == RESOLVED_CACHE_SIZE then cache[1..] else cache) + [entry];
      }
    }

    /** A step that changes the table keeps what the cache remembers. */
    twostate lemma StillRemembered()
      requires old(Valid()) && table.Valid() && table.Grew()
      requires cache == old(cache)
      ensures Valid()
    {
      forall i | 0 <= i < |cache| ensures Remembered(cache[i]) { assert old(Remembered(cache[i])); }
    }

    /** `set_override`, refused for an unknown key or a value it does not accept. */
    method SetOverride(p: Path, value: Tree) returns (accepted: bool)
      requires Valid()
      modifies table
      ensures Valid() && cache == old(cache)
      ensures accepted == Accepted(schema, p, value).Some?
      ensures Now().environ == old(Now().environ)
      ensures Now().values ==
                if accepted then With(old(table.values), p, Accepted(schema, p, value).value) else old(table.values)
    {
      if p !in schema.fields { return false; }
      var valid := schema.accept(p, value);
      if valid.None? { return false; }
      table.Put(p, valid.value);
      StillRemembered();
      accepted := true;
    }

    /** Leaving an `overridden` block. */
    method LeaveBlock(p: Path, before: Option<Tree>)
      requires Valid()
      modifies table
      ensures Valid() && cache == old(cache)
      ensures Now() == old(Now()).(values := PutBack(old(table.values), before, p))
    {
      if before.Some? { table.Put(p, before.value); } else { table.Drop(p); }
      StillRemembered();
    }

    /** `reload`: no override and nothing remembered. */
    method ReloadAll(scope: Scope) returns (r: Result<Leaves, Failure>)
      requires Valid()
      modifies this`cache, table
      ensures Valid() && Now() == old(Now()).(values := [])
      ensures r == Resolution(schema, Environment(environ, scope), [])
    {
      table.Replace([]);
      cache := [];
      r := GetCurrent(scope);
    }

    /** Run one step; the answers are those of resolving afresh every time. */
    method RunStep(step: Step, scope: Scope) returns (answers: seq<Result<Leaves, Failure>>)
      requires Valid()
      modifies this`environ, this`cache, table
      ensures Valid() && Now() == Do(schema, old(Now()), step)
      ensures answers == AnswersTo(schema, old(Now()), step, scope)
      decreases step, 1
    {
      answers := [];
      match step
      case Set(p, value) =>
        var _ := SetOverride(p, value);
      case Clear(p) =>
        table.Drop(p);
        StillRemembered();
      case Restore(snapshot) =>
        table.Replace(snapshot);
        StillRemembered();
      case Reload =>
        var r := ReloadAll(scope);
        answers := [r];
      case SetEnv(name, text) =>
        environ := WithEnv(environ, name, text);
      case Current =>
        var r := GetCurrent(scope);
        answers := [r];
      case Overridden(p, value, body) =>
        var before := ValueAt(table.values, p);
        var accepted := SetOverride(p, value);
        if accepted {
          answers := RunSteps(body, scope);
          LeaveBlock(p, before);
        }
      case Scoped(values, body) =>
        answers := RunSteps(body, scope + values);
    }

    /** Run steps one after another. */
    method RunSteps(steps: seq<Step>, scope: Scope) returns (answers: seq<Result<Leaves, Failure>>)
      requires Valid()
      modifies this`environ, this`cache, table
      ensures Valid() && Now() == Run(schema, old(Now()), steps)
      ensures answers == Answers(schema, old(Now()), steps, scope)
      decreases steps, 0
    {
      answers := [];
      ghost var start := Now();
      assert steps[..0] == [];
      for i := 0 to |steps|
        invariant Valid() && Now() == Run(schema, start, steps[..i])
        invariant answers == Answers(schema, start, steps[..i], scope)
      {
        assert steps[..i + 1][..i] == steps[..i];
        var more := RunStep(steps[i], scope);
        answers := answers + more;
      }
      assert steps[..|steps|] == steps;
    }
  }
}
