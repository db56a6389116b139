/** Resolving the configuration (`config.py`): an override table, environment variables and the defaults, nested into
    one tree; memoized by environment and override version. */
module Config {
  import opened Outcomes

  /** A dotted key, split: the names of the blocks and of the leaf. */
  type Path = seq<string>

  /** A plain value: a scalar or list told by its text, or a block. */
  datatype Tree = Scalar(text: string) | Block(kids: map<string, Tree>)

  type Leaves = map<Path, Option<Tree>>

  /** A variable that is no key's, one whose text does not parse, a key that leads through a value that is no block,
      or a tree the whole-model validation refuses. */
  datatype Failure =
    | UnknownEnvironment(names: set<string>)
    | BadEnvironment(name: string)
    | Misplaced(path: Path)
    | Invalid

  /** The keys and how they are read. `parse` reads environment text, `accept` validates a value set in code,
      `validate` is the whole-model validation of a tree; `stray` are the variables that look like a key's and are
      none. */
  datatype Schema = Schema(
    fields: seq<Path>, defaults: Tree, envName: Path -> string, prefixed: string -> bool, stray: string -> bool,
    parse: (Path, string) -> Option<Tree>, accept: (Path, Tree) -> Option<Tree>,
    validate: Tree -> Result<Leaves, Failure>)

  // ---- the tree ----

  /** Every inner name of the path names a block, or nothing yet. */
  predicate Nestable(tree: Tree, path: Path)
    decreases |path|
  {
    path != [] && tree.Block? && (|path| == 1 || path[0] !in tree.kids || Nestable(tree.kids[path[0]], path[1..]))
  }

  /** `nest`: the tree with a value at the end of a path, blocks made on the way. */
  function Nest(tree: Tree, path: Path, value: Tree): Tree
    requires Nestable(tree, path)
    decreases |path|
  {
    if |path| == 1 then Block(tree.kids[path[0] := value])
    else
      var inner := if path[0] in tree.kids then tree.kids[path[0]] else Block(map[]);
      assert path[0] !in tree.kids ==> Nestable(inner, path[1..]) by {
        if path[0] !in tree.kids { NothingNestable(path[1..]); }
      }
      Block(tree.kids[path[0] := Nest(inner, path[1..], value)])
  }

  lemma NothingNestable(path: Path)
    requires path != []
    ensures Nestable(Block(map[]), path)
  {
  }

  function Lookup(tree: Tree, path: Path): Option<Tree>
    decreases |path|
  {
    if path == [] then Some(tree)
    else if tree.Block? && path[0] in tree.kids then Lookup(tree.kids[path[0]], path[1..])
    else None
  }

  lemma {:induction false} NestThenLookup(tree: Tree, path: Path, value: Tree)
    requires Nestable(tree, path)
    ensures Lookup(Nest(tree, path, value), path) == Some(value)
    decreases |path|
  {
    if |path| > 1 {
      var inner := if path[0] in tree.kids then tree.kids[path[0]] else Block(map[]);
      if path[0] !in tree.kids { NothingNestable(path[1..]); }
      NestThenLookup(inner, path[1..], value);
    } else {
      assert path[1..] == [];
    }
  }

  /** Neither path leads through the other. */
  ghost predicate Apart(p: Path, q: Path) {
    !(p <= q) && !(q <= p)
  }

  lemma PrefixTails(p: Path, q: Path)
    requires p != [] && q != [] && p[0] == q[0]
    ensures p <= q <==> p[1..] <= q[1..]
  {
    assert p == [p[0]] + p[1..] && q == [q[0]] + q[1..];
  }

  lemma ApartTails(p: Path, q: Path)
    requires Apart(p, q)
    ensures p != [] && q != [] && (p[0] == q[0] ==> Apart(p[1..], q[1..]) && |p| > 1 && |q| > 1)
  {
    assert [] <= p && [] <= q;
    if p[0] == q[0] {
      PrefixTails(p, q);
      PrefixTails(q, p);
    }
  }

  /** Nesting at one path leaves what is at another, and that one can still be nested. */
  lemma {:induction false} NestElsewhere(tree: Tree, path: Path, value: Tree, other: Path)
    requires Nestable(tree, path) && Apart(path, other)
    ensures Lookup(Nest(tree, path, value), other) == Lookup(tree, other)
    ensures Nestable(tree, other) ==> Nestable(Nest(tree, path, value), other)
    decreases |path|
  {
    ApartTails(path, other);
    if path[0] == other[0] {
      var inner := if path[0] in tree.kids then tree.kids[path[0]] else Block(map[]);
      if path[0] !in tree.kids {
        NothingNestable(path[1..]);
        NothingNestable(other[1..]);
      }
      NestElsewhere(inner, path[1..], value, other[1..]);
    }
  }

  lemma {:induction false} NestAgain(tree: Tree, path: Path, value: Tree)
    requires Nestable(tree, path)
    ensures Nestable(Nest(tree, path, value), path)
    decreases |path|
  {
    if |path| > 1 {
      var inner := if path[0] in tree.kids then tree.kids[path[0]] else Block(map[]);
      if path[0] !in tree.kids { NothingNestable(path[1..]); }
      NestAgain(inner, path[1..], value);
    }
  }

  /** No key leads through another, the defaults have blocks where keys do, and the key variables carry the prefix. */
  ghost predicate ValidSchema(s: Schema) {
    && (forall p, q :: p in s.fields && q in s.fields && p != q ==> Apart(p, q))
    && (forall p :: p in s.fields ==> Nestable(s.defaults, p) && s.prefixed(s.envName(p)))
    && (forall n :: s.stray(n) ==> s.prefixed(n))
  }

  // ---- the overrides ----

  type Env = map<string, string>

  /** The override table's entries, in the order its dictionary holds them. */
  type Overrides = seq<(Path, Tree)>

  /** A dictionary holds each key once. */
  ghost predicate KeysOnce(overrides: Overrides) {
    forall i, j :: 0 <= i < j < |overrides| ==> overrides[i].0 != overrides[j].0
  }

  function ValueAt(overrides: Overrides, p: Path): Option<Tree> {
    if overrides == [] then None
    else if overrides[0].0 == p then Some(overrides[0].1)
    else ValueAt(overrides[1..], p)
  }

  /** A key set where it is, or at the end. */
  function With(overrides: Overrides, p: Path, value: Tree): Overrides {
    if overrides == [] then [(p, value)]
    else if overrides[0].0 == p then [(p, value)] + overrides[1..]
    else [overrides[0]] + With(overrides[1..], p, value)
  }

  function Minus(overrides: Overrides, p: Path): Overrides {
    if overrides == [] then []
    else if overrides[0].0 == p then overrides[1..]
    else [overrides[0]] + Minus(overrides[1..], p)
  }

  lemma {:induction false} NotThere(overrides: Overrides, p: Path)
    requires forall i :: 0 <= i < |overrides| ==> overrides[i].0 != p
    ensures ValueAt(overrides, p) == None
  {
    if overrides != [] { NotThere(overrides[1..], p); }
  }

  /** Setting a key and putting back what it was, or dropping it, gives the very table there was, order included. */
  lemma {:induction false} SetAndPutBack(overrides: Overrides, p: Path, value: Tree)
    ensures ValueAt(With(overrides, p, value), p) == Some(value)
    ensures ValueAt(overrides, p).Some? ==> With(With(overrides, p, value), p, ValueAt(overrides, p).value) == overrides
    ensures ValueAt(overrides, p).None? ==> Minus(With(overrides, p, value), p) == overrides
  {
    if overrides != [] && overrides[0].0 != p {
      SetAndPutBack(overrides[1..], p, value);
      var tail := With(overrides[1..], p, value);
      assert ([overrides[0]] + tail)[1..] == tail;
    }
  }

  // ---- what resolving means ----

  /** The tree of the defaults with the first `n` keys' variables nested into it. */
  ghost function EnvTree(s: Schema, env: Env, n: nat): Result<Tree, Failure>
    requires n <= |s.fields|
  {
    if n == 0 then Ok(s.defaults)
    else
      match EnvTree(s, env, n - 1)
      case Err(e) => Err(e)
      case Ok(tree) => NestVariable(s, env, tree, s.fields[n - 1])
  }

  function NestVariable(s: Schema, env: Env, tree: Tree, p: Path): Result<Tree, Failure> {
    if s.envName(p) !in env then Ok(tree)
    else
      match s.parse(p, env[s.envName(p)])
      case None => Err(BadEnvironment(s.envName(p)))
      case Some(value) => if Nestable(tree, p) then Ok(Nest(tree, p, value)) else Err(Misplaced(p))
  }

  /** The overrides nested into a tree one after another, whatever keys they are for. */
  ghost function OverTree(tree: Tree, overrides: Overrides): Result<Tree, Failure>
    decreases |overrides|
  {
    if overrides == [] then Ok(tree)
    else if !Nestable(tree, overrides[0].0) then Err(Misplaced(overrides[0].0))
    else OverTree(Nest(tree, overrides[0].0, overrides[0].1), overrides[1..])
  }

  /** The tree that is validated. */
  ghost function TreeOf(s: Schema, env: Env, overrides: Overrides): Result<Tree, Failure> {
    match EnvTree(s, env, |s.fields|)
    case Err(e) => Err(e)
    case Ok(tree) => OverTree(tree, overrides)
  }

  /** The variables that look like a key's and are none. */
  function Strays(s: Schema, env: Env): set<string> {
    set n | n in env && s.stray(n)
  }

  /** The configuration of an environment and overrides, with nothing remembered. */
  ghost function Resolution(s: Schema, env: Env, overrides: Overrides): Result<Leaves, Failure> {
    if Strays(s, env) != {} then Err(UnknownEnvironment(Strays(s, env)))
    else match TreeOf(s, env, overrides) case Err(e) => Err(e) case Ok(tree) => s.validate(tree)
  }

  /** The prefixed part of an environment. */
  function Prefixed(s: Schema, env: Env): Env {
    map n | n in env && s.prefixed(n) :: env[n]
  }

  /** The environments have the same prefixed variables. */
  ghost predicate SamePrefixed(s: Schema, env: Env, other: Env) {
    forall n {:trigger s.prefixed(n)} :: s.prefixed(n) ==>
      (n in env <==> n in other) && (n in env ==> env[n] == other[n])
  }

  lemma {:induction false} EnvTreeReadsPrefixed(s: Schema, env: Env, other: Env, n: nat)
    requires ValidSchema(s) && SamePrefixed(s, env, other) && n <= |s.fields|
    ensures EnvTree(s, env, n) == EnvTree(s, other, n)
  {
    if n > 0 {
      EnvTreeReadsPrefixed(s, env, other, n - 1);
      assert s.fields[n - 1] in s.fields && s.prefixed(s.envName(s.fields[n - 1]));
    }
  }

  /** Only prefixed variables are read: they are all the cache needs to tell environments apart by. */
  lemma ResolutionReadsPrefixed(s: Schema, env: Env, other: Env, overrides: Overrides)
    requires ValidSchema(s) && Prefixed(s, env) == Prefixed(s, other)
    ensures Resolution(s, env, overrides) == Resolution(s, other, overrides)
  {
    forall n | s.prefixed(n) ensures (n in env <==> n in other) && (n in env ==> env[n] == other[n]) {
      assert n in env <==> n in Prefixed(s, env);
      assert n in other <==> n in Prefixed(s, other);
    }
    EnvTreeReadsPrefixed(s, env, other, |s.fields|);
    assert Strays(s, env) == Strays(s, other) by {
      forall n ensures n in env && s.stray(n) <==> n in other && s.stray(n) {
        assert s.stray(n) ==> s.prefixed(n);
      }
    }
  }

  // ---- which layer wins ----

  ghost predicate ParsesAll(s: Schema, env: Env) {
    forall p :: p in s.fields && s.envName(p) in env ==> s.parse(p, env[s.envName(p)]).Some?
  }

  /** One key: its override, else its variable, else its default. */
  function Layered(s: Schema, env: Env, overrides: Overrides, p: Path): Option<Tree> {
    if ValueAt(overrides, p).Some? then ValueAt(overrides, p)
    else if s.envName(p) in env then s.parse(p, env[s.envName(p)])
    else Lookup(s.defaults, p)
  }

  ghost predicate AllNestable(s: Schema, tree: Tree) {
    forall q :: q in s.fields ==> Nestable(tree, q)
  }

  lemma NestKeeps(s: Schema, tree: Tree, p: Path, value: Tree)
    requires ValidSchema(s) && p in s.fields && AllNestable(s, tree)
    ensures AllNestable(s, Nest(tree, p, value))
    ensures forall q :: q in s.fields ==>
              Lookup(Nest(tree, p, value), q) == if q == p then Some(value) else Lookup(tree, q)
  {
    NestThenLookup(tree, p, value);
    NestAgain(tree, p, value);
    forall q | q in s.fields && q != p
      ensures Nestable(Nest(tree, p, value), q) && Lookup(Nest(tree, p, value), q) == Lookup(tree, q)
    {
      NestElsewhere(tree, p, value, q);
    }
  }

  ghost predicate ParsesUpTo(s: Schema, env: Env, n: nat)
    requires n <= |s.fields|
  {
    forall i :: 0 <= i < n && s.envName(s.fields[i]) in env ==> s.parse(s.fields[i], env[s.envName(s.fields[i])]).Some?
  }

  /** The value of a key once the variables of the first `n` keys are nested. */
  ghost function FromEnv(s: Schema, env: Env, n: nat, p: Path): Option<Tree>
    requires n <= |s.fields|
  {
    if p in s.fields[..n] && s.envName(p) in env then s.parse(p, env[s.envName(p)]) else Lookup(s.defaults, p)
  }

  /** The variables of any keys nest exactly when they parse, each where its key is. */
  lemma {:induction false} EnvTreeIs(s: Schema, env: Env, n: nat)
    requires ValidSchema(s) && n <= |s.fields|
    ensures EnvTree(s, env, n).Ok? <==> ParsesUpTo(s, env, n)
    ensures EnvTree(s, env, n).Err? ==> EnvTree(s, env, n).error.BadEnvironment?
    ensures EnvTree(s, env, n).Ok? ==> AllNestable(s, EnvTree(s, env, n).value)
    ensures EnvTree(s, env, n).Ok? ==>
              (forall p :: p in s.fields ==> Lookup(EnvTree(s, env, n).value, p) == FromEnv(s, env, n, p))
  {
    if n > 0 {
      EnvTreeIs(s, env, n - 1);
      var p := s.fields[n - 1];
      assert p in s.fields && forall q :: q in s.fields[..n] <==> q in s.fields[..n - 1] || q == p;
      if ParsesUpTo(s, env, n) && s.envName(p) in env {
        NestKeeps(s, EnvTree(s, env, n - 1).value, p, s.parse(p, env[s.envName(p)]).value);
      }
    }
  }

  /** Overrides of keys all nest. */
  lemma {:induction false} KeysNest(s: Schema, tree: Tree, overrides: Overrides)
    requires ValidSchema(s) && AllNestable(s, tree) && forall i :: 0 <= i < |overrides| ==> overrides[i].0 in s.fields
    ensures OverTree(tree, overrides).Ok?
    decreases |overrides|
  {
    if overrides != [] {
      NestKeeps(s, tree, overrides[0].0, overrides[0].1);
      KeysNest(s, Nest(tree, overrides[0].0, overrides[0].1), overrides[1..]);
    }
  }

  /** The overrides of a key and of keys apart from it: its own wins, else what was there stays. */
  lemma {:induction false} OverrideWins(tree: Tree, overrides: Overrides, p: Path)
    requires KeysOnce(overrides) && forall i :: 0 <= i < |overrides| ==> overrides[i].0 == p || Apart(overrides[i].0, p)
    requires OverTree(tree, overrides).Ok?
    ensures Lookup(OverTree(tree, overrides).value, p) ==
              if ValueAt(overrides, p).Some? then ValueAt(overrides, p) else Lookup(tree, p)
    decreases |overrides|
  {
    if overrides != [] {
      var q, value, rest := overrides[0].0, overrides[0].1, overrides[1..];
      assert forall i :: 0 <= i < |rest| ==> rest[i] == overrides[i + 1];
      OverrideWins(Nest(tree, q, value), rest, p);
      if q == p {
        NestThenLookup(tree, p, value);
        NotThere(rest, p);
      } else {
        NestElsewhere(tree, q, value, p);
      }
    }
  }

  /** Every key whose overrides do not lead through one another is read from its override, else its variable, else its
      default. */
  lemma LayersWin(s: Schema, env: Env, overrides: Overrides, p: Path)
    requires ValidSchema(s) && TreeOf(s, env, overrides).Ok? && p in s.fields && KeysOnce(overrides)
    requires forall i :: 0 <= i < |overrides| ==> overrides[i].0 == p || Apart(overrides[i].0, p)
    ensures Lookup(TreeOf(s, env, overrides).value, p) == Layered(s, env, overrides, p)
  {
    EnvTreeIs(s, env, |s.fields|);
    assert s.fields[..|s.fields|] == s.fields;
    OverrideWins(EnvTree(s, env, |s.fields|).value, overrides, p);
  }

  /** With overrides of keys alone there is a tree to validate exactly when every key's variable that is set parses. */
  lemma KeysResolve(s: Schema, env: Env, overrides: Overrides)
    requires ValidSchema(s) && forall i :: 0 <= i < |overrides| ==> overrides[i].0 in s.fields
    ensures TreeOf(s, env, overrides).Ok? <==> ParsesAll(s, env)
  {
    EnvTreeIs(s, env, |s.fields|);
    if ParsesAll(s, env) {
      KeysNest(s, EnvTree(s, env, |s.fields|).value, overrides);
    } else {
      var p :| p in s.fields && s.envName(p) in env && s.parse(p, env[s.envName(p)]).None?;
      var i :| 0 <= i < |s.fields| && s.fields[i] == p;
    }
  }

  // ---- what nesting writes into ----

  /** What is left of a dictionary put at `p` once the entries after it are nested in place: those that lead into it are
      written into it, until one at `p` or above takes its place. */
  function LeftOf(value: Tree, p: Path, rest: Overrides): Tree
    decreases |rest|
  {
    if rest == [] || rest[0].0 <= p then value
    else if !(p <= rest[0].0) then LeftOf(value, p, rest[1..])
    else if !Nestable(value, rest[0].0[|p|..]) then value
    else LeftOf(Nest(value, rest[0].0[|p|..], rest[0].1), p, rest[1..])
  }

  /** The table after its entries were nested in place. */
  function WrittenTo(overrides: Overrides): Overrides {
    if overrides == [] then []
    else [(overrides[0].0, LeftOf(overrides[0].1, overrides[0].0, overrides[1..]))] + WrittenTo(overrides[1..])
  }

  /** No key leads into the value of an earlier one. */
  ghost predicate NoneInside(overrides: Overrides) {
    forall i, j :: 0 <= i < j < |overrides| ==> !(overrides[i].0 <= overrides[j].0)
  }

  lemma {:induction false} LeftAlone(value: Tree, p: Path, rest: Overrides)
    requires forall j :: 0 <= j < |rest| ==> !(p <= rest[j].0)
    ensures LeftOf(value, p, rest) == value
    decreases |rest|
  {
    if rest != [] { LeftAlone(value, p, rest[1..]); }
  }

  /** While no key leads into an earlier one's value, nesting in place leaves the table as it was, and nesting into
      copies is the same thing. */
  lemma {:induction false} NestingWritesNothing(overrides: Overrides)
    requires NoneInside(overrides)
    ensures WrittenTo(overrides) == overrides
  {
    if overrides != [] {
      var rest := overrides[1..];
      assert forall j :: 0 <= j < |rest| ==> rest[j] == overrides[j + 1];
      LeftAlone(overrides[0].1, overrides[0].0, rest);
      NestingWritesNothing(rest);
    }
  }

  /** Otherwise a later clear can leave a value behind: here `a.b` stays in the dictionary at `a`. */
  lemma NestingLeavesBehind()
    ensures var a, b, table := ["a"], ["a", "b"], [(["a"], Block(map[])), (["a", "b"], Scalar("1"))];
      && Lookup(Minus(table, b)[0].1, ["b"]) == None
      && Lookup(Minus(WrittenTo(table), b)[0].1, ["b"]) == Some(Scalar("1"))
  {
    var a, b, one := ["a"], ["a", "b"], Scalar("1");
    var table: Overrides := [(a, Block(map[])), (b, one)];
    var inner := Nest(Block(map[]), ["b"], one);
    assert a[0] == "a" && b[|a|..] == ["b"] && a <= b && !(b <= a);
    NestThenLookup(Block(map[]), ["b"], one);
    assert table[1..] == [(b, one)] && [(b, one)][1..] == [];
    assert WrittenTo([(b, one)]) == [(b, one)];
    assert LeftOf(Block(map[]), a, [(b, one)]) == LeftOf(inner, a, []);
    assert WrittenTo(table) == [(a, inner)] + [(b, one)];
    assert Minus([(a, inner)] + [(b, one)], b)[0] == (a, inner);
  }

  // ---- resolving ----

  /** The body of `resolve`, run on a cache miss. */
  method Resolve(s: Schema, env: Env, overrides: Overrides) returns (r: Result<Leaves, Failure>)
    ensures r == Resolution(s, env, overrides)
  {
    var unknown := Strays(s, env);
    if unknown != {} { return Err(UnknownEnvironment(unknown)); }
    var nested := NestEnvironment(s, env);
    if nested.Err? { return Err(nested.error); }
    nested := NestOverrides(nested.value, overrides);
    if nested.Err? { return Err(nested.error); }
    return s.validate(nested.value);
  }

  /** The first loop of `resolve`: every key whose variable is set. */
  method NestEnvironment(s: Schema, env: Env) returns (r: Result<Tree, Failure>)
    ensures r == EnvTree(s, env, |s.fields|)
  {
    r := Ok(s.defaults);
    for i := 0 to |s.fields|
      invariant r.Ok? && r == EnvTree(s, env, i)
    {
      r := NestVariable(s, env, r.value, s.fields[i]);
      if r.Err? {
        EnvErrorStays(s, env, i + 1, |s.fields|);
        return;
      }
    }
  }

  lemma {:induction false} EnvErrorStays(s: Schema, env: Env, k: nat, n: nat)
    requires k <= n <= |s.fields| && EnvTree(s, env, k).Err?
    ensures EnvTree(s, env, n) == EnvTree(s, env, k)
  {
    if k < n { EnvErrorStays(s, env, k, n - 1); }
  }

  /** The second loop: the overrides, in the order the table holds them. */
  method NestOverrides(from: Tree, overrides: Overrides) returns (r: Result<Tree, Failure>)
    ensures r == OverTree(from, overrides)
  {
    var tree := from;
    for i := 0 to |overrides|
      invariant OverTree(tree, overrides[i..]) == OverTree(from, overrides)
    {
      var p, value := overrides[i].0, overrides[i].1;
      assert overrides[i..][0] == overrides[i] && overrides[i..][1..] == overrides[i + 1..];
      if !Nestable(tree, p) { return Err(Misplaced(p)); }
      tree := Nest(tree, p, value);
    }
    return Ok(tree);
  }

  // ---- the override table ----

  lemma {:induction false} NothingToDrop(overrides: Overrides, p: Path)
    requires ValueAt(overrides, p).None?
    ensures Minus(overrides, p) == overrides
  {
    if overrides != [] { NothingToDrop(overrides[1..], p); }
  }

  class OverrideTable {
    var values: Overrides
    var version: nat
    ghost var history: map<nat, Overrides>

    constructor ()
      ensures Valid() && values == [] && version == 0
    {
      values, version, history := [], 0, map[0 := []];
    }

    /** `history` is what the table held at each version: no version ever stands for two tables. */
    ghost predicate Valid()
      reads this
    {
      version in history && history[version] == values && forall v :: v in history ==> v <= version
    }

    /** Versions that passed keep what they held. */
    twostate predicate Grew()
      reads this
    {
      old(version) <= version && forall v :: v in old(history) ==> v in history && history[v] == old(history)[v]
    }

    method Put(p: Path, value: Tree)
      requires Valid()
      modifies this
      ensures Valid() && Grew() && values == With(old(values), p, value) && version == old(version) + 1
    {
      values, version := With(values, p, value), version + 1;
      history := history[version := values];
    }

    method Drop(p: Path)
      requires Valid()
      modifies this
      ensures Valid() && Grew() && values == Minus(old(values), p)
      ensures version == old(version) + (if ValueAt(old(values), p).Some? then 1 else 0)
    {
      if ValueAt(values, p).Some? {
        values, version := Minus(values, p), version + 1;
        history := history[version := values];
      } else {
        NothingToDrop(values, p);
      }
    }

    method Replace(snapshot: Overrides)
      requires Valid()
      modifies this
      ensures Valid() && Grew() && values == snapshot && version == old(version) + 1
    {
      values, version := snapshot, version + 1;
      history := history[version := values];
    }
  }

  // ---- the environment ----

  type Scope = map<string, Option<string>>

  /** `environment`: the process's variables with the scoped ones applied; a name scoped to None is unset. */
  function Environment(environ: Env, scope: Scope): Env {
    map n | n in environ.Keys + scope.Keys && (n in scope ==> scope[n].Some?) ::
      if n in scope then scope[n].value else environ[n]
  }

  /** `env_value`. */
  function EnvValue(environ: Env, scope: Scope, name: string): Option<string> {
    if name in scope then scope[name] else if name in environ then Some(environ[name]) else None
  }

  /** Reading one variable and reading it in the whole environment agree, however scopes are nested. */
  lemma EnvValueAgrees(environ: Env, outer: Scope, inner: Scope, name: string)
    ensures EnvValue(environ, outer + inner, name) ==
              (if name in Environment(environ, outer + inner) then Some(Environment(environ, outer + inner)[name])
               else None)
    ensures name in inner ==> EnvValue(environ, outer + inner, name) == inner[name]
    ensures name !in inner ==> EnvValue(environ, outer + inner, name) == EnvValue(environ, outer, name)
  {
  }
}
