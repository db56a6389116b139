/** The build-time clock of `phase_clock.py`: measurements and marked phases, nested as their `with` blocks are. */
module PhaseClock {
  import opened Orders

  datatype Phase = TRANSFORM | CODEGEN | COMPILE

  /** The seconds of each phase; every phase has an entry from the start. */
  datatype Seconds = Seconds(transform: real, codegen: real, compile: real)

  const NONE_YET := Seconds(0.0, 0.0, 0.0)

  /** One thing that happens in a context. The two kinds of `with` block carry the times read when they are entered and
      left, and what happens in between; a body that raises is one that stops early. */
  datatype Block =
    | Measuring(started: real, body: seq<Block>, stopped: real)
    | Marked(name: Phase, started: real, body: seq<Block>, stopped: real)
    | Credit(seconds: real, name: Phase)
    | Shift(seconds: real, source: Phase, target: Phase)

  /** What a clock reads. */
  datatype Reading = Reading(seconds: Seconds, markedWall: real)

  function Max(x: real, y: real): real { if x >= y then x else y }

  function Min(x: real, y: real): real { if x <= y then x else y }

  function At(s: Seconds, name: Phase): real {
    match name
    case TRANSFORM => s.transform
    case CODEGEN => s.codegen
    case COMPILE => s.compile
  }

  function Add(s: Seconds, name: Phase, x: real): Seconds {
    match name
    case TRANSFORM => s.(transform := s.transform + x)
    case CODEGEN => s.(codegen := s.codegen + x)
    case COMPILE => s.(compile := s.compile + x)
  }

  function Sum(s: Seconds): real { s.transform + s.codegen + s.compile }

  predicate NonNegative(s: Seconds) { s.transform >= 0.0 && s.codegen >= 0.0 && s.compile >= 0.0 }

  // ---- what a run of blocks means, without the objects ----

  /** The wall seconds the outermost marks of a run took. */
  ghost function MarkedTime(blocks: seq<Block>): real
    decreases blocks, 0
  {
    if blocks == [] then 0.0 else MarkedTime(blocks[..|blocks| - 1]) + BlockMarkedTime(blocks[|blocks| - 1])
  }

  ghost function BlockMarkedTime(b: Block): real
    decreases b, 1
  {
    match b
    case Measuring(_, body, _) => MarkedTime(body)
    case Marked(_, started, _, stopped) => stopped - started
    case _ => 0.0
  }

  /** The cached seconds credited during a run; a negative credit adds nothing. */
  ghost function Credited(blocks: seq<Block>): real
    decreases blocks, 0
  {
    if blocks == [] then 0.0 else Credited(blocks[..|blocks| - 1]) + BlockCredited(blocks[|blocks| - 1])
  }

  ghost function BlockCredited(b: Block): real
    decreases b, 1
  {
    match b
    case Measuring(_, body, _) => Credited(body)
    case Marked(_, _, body, _) => Credited(body)
    case Credit(seconds, _) => Max(seconds, 0.0)
    case Shift(_, _, _) => 0.0
  }

  /** What a clock running throughout reads after a run. */
  ghost function After(r: Reading, blocks: seq<Block>): Reading
    decreases blocks, 0
  {
    if blocks == [] then r else AfterBlock(After(r, blocks[..|blocks| - 1]), blocks[|blocks| - 1])
  }

  ghost function AfterBlock(r: Reading, b: Block): Reading
    decreases b, 1
  {
    match b
    case Measuring(_, body, _) => After(r, body)
    case Marked(name, started, body, stopped) => Own(After(r, body), name, stopped - started - MarkedTime(body))
    case Credit(seconds, name) => Credits(r, seconds, name)
    case Shift(seconds, source, target) => Shifts(r, seconds, source, target)
  }

  function Own(r: Reading, name: Phase, own: real): Reading {
    Reading(Add(r.seconds, name, own), r.markedWall + own)
  }

  function Credits(r: Reading, seconds: real, name: Phase): Reading {
    r.(seconds := Add(r.seconds, name, Max(seconds, 0.0)))
  }

  function Shifts(r: Reading, seconds: real, source: Phase, target: Phase): Reading {
    var moved := Min(Max(seconds, 0.0), At(r.seconds, source));
    r.(seconds := Add(Add(r.seconds, source, -moved), target, moved))
  }

  /** What the clock of a finished measurement reads. */
  ghost function Finished(b: Block): Reading
    requires b.Measuring?
  {
    var r := After(Reading(NONE_YET, 0.0), b.body);
    r.(seconds := Add(r.seconds, TRANSFORM, Max(b.stopped - b.started - r.markedWall, 0.0)))
  }

  // ---- conservation ----

  /** The latest time read in a run that starts at `from`. */
  ghost function Latest(blocks: seq<Block>, from: real): real {
    if blocks == [] then from
    else if blocks[|blocks| - 1].Measuring? || blocks[|blocks| - 1].Marked? then blocks[|blocks| - 1].stopped
    else Latest(blocks[..|blocks| - 1], from)
  }

  /** The times of a run that starts at `from` are read off a clock that never goes back. */
  ghost predicate Timed(blocks: seq<Block>, from: real)
    decreases blocks, 0
  {
    blocks == [] ||
    (Timed(blocks[..|blocks| - 1], from) && BlockTimed(blocks[|blocks| - 1], Latest(blocks[..|blocks| - 1], from)))
  }

  ghost predicate BlockTimed(b: Block, from: real)
    decreases b, 1
  {
    match b
    case Measuring(started, body, stopped) =>
      from <= started && Timed(body, started) && Latest(body, started) <= stopped
    case Marked(_, started, body, stopped) =>
      from <= started && Timed(body, started) && Latest(body, started) <= stopped
    case _ => true
  }

  lemma {:induction false} MarksFit(blocks: seq<Block>, from: real)
    requires Timed(blocks, from)
    ensures 0.0 <= MarkedTime(blocks) <= Latest(blocks, from) - from
    decreases blocks, 0
  {
    if blocks != [] {
      MarksFit(blocks[..|blocks| - 1], from);
      BlockMarksFit(blocks[|blocks| - 1], Latest(blocks[..|blocks| - 1], from));
    }
  }

  lemma {:induction false} BlockMarksFit(b: Block, from: real)
    requires BlockTimed(b, from)
    ensures 0.0 <= BlockMarkedTime(b)
    ensures b.Measuring? || b.Marked? ==> BlockMarkedTime(b) <= b.stopped - from
    decreases b, 1
  {
    match b
    case Measuring(started, body, stopped) => MarksFit(body, started);
    case Marked(_, started, body, stopped) => MarksFit(body, started);
    case _ =>
  }

  /** A run adds to every running clock the marked time and the credits, and takes no phase below zero. */
  ghost predicate Conserves(r: Reading, after: Reading, marked: real, credited: real) {
    && after.markedWall == r.markedWall + marked
    && Sum(after.seconds) == Sum(r.seconds) + marked + credited
    && (NonNegative(r.seconds) ==> NonNegative(after.seconds))
  }

  /** Seconds are moved, never made, and no more of them than the source holds. */
  lemma ShiftConserves(r: Reading, seconds: real, source: Phase, target: Phase)
    ensures Conserves(r, Shifts(r, seconds, source, target), 0.0, 0.0)
  {
  }

  lemma {:induction false} RunConserves(r: Reading, blocks: seq<Block>, from: real)
    requires Timed(blocks, from)
    ensures Conserves(r, After(r, blocks), MarkedTime(blocks), Credited(blocks))
    decreases blocks, 0
  {
    if blocks != [] {
      RunConserves(r, blocks[..|blocks| - 1], from);
      BlockConserves(After(r, blocks[..|blocks| - 1]), blocks[|blocks| - 1], Latest(blocks[..|blocks| - 1], from));
    }
  }

  lemma {:induction false} BlockConserves(r: Reading, b: Block, from: real)
    requires BlockTimed(b, from)
    ensures Conserves(r, AfterBlock(r, b), BlockMarkedTime(b), BlockCredited(b))
    decreases b, 1
  {
    match b
    case Measuring(started, body, stopped) => RunConserves(r, body, started);
    case Marked(name, started, body, stopped) =>
      RunConserves(r, body, started);
      MarksFit(body, started);
    case Credit(_, _) =>
    case Shift(seconds, source, target) => ShiftConserves(r, seconds, source, target);
  }

  /** Every finished measurement accounts for exactly its wall time and the credits issued while it ran; no phase is
      negative, and the wall time left over for `TRANSFORM` was never clamped. */
  lemma MeasurementConserves(b: Block, from: real)
    requires b.Measuring? && BlockTimed(b, from)
    ensures Sum(Finished(b).seconds) == b.stopped - b.started + Credited(b.body)
    ensures NonNegative(Finished(b).seconds)
    ensures b.stopped - b.started - Finished(b).markedWall >= 0.0
  {
    RunConserves(Reading(NONE_YET, 0.0), b.body, b.started);
    MarksFit(b.body, b.started);
  }

  // ---- the objects ----

  class Clock {
    var seconds: Seconds
    var markedWall: real

    constructor ()
      ensures Read() == Reading(NONE_YET, 0.0)
    {
      seconds, markedWall := NONE_YET, 0.0;
    }

    function Read(): Reading
      reads this
    {
      Reading(seconds, markedWall)
    }
  }

  class Mark {
    const name: Phase
    const started: real
    var nested: real

    constructor (name: Phase, started: real)
      ensures this.name == name && this.started == started && nested == 0.0
    {
      this.name, this.started, nested := name, started, 0.0;
    }
  }

  /** `credit`, in every running clock. */
  method CreditRunning(running: seq<Clock>, seconds: real, name: Phase)
    requires NoDup(running)
    modifies running
    ensures forall c :: c in running ==> c.Read() == Credits(old(c.Read()), seconds, name)
  {
    for k := 0 to |running|
      invariant forall i :: 0 <= i < k ==> running[i].Read() == Credits(old(running[i].Read()), seconds, name)
      invariant forall i :: k <= i < |running| ==> running[i].Read() == old(running[i].Read())
    {
      var clock := running[k];
      clock.seconds := Add(clock.seconds, name, Max(seconds, 0.0));
    }
  }

  /** `shift`, in every running clock. */
  method ShiftRunning(running: seq<Clock>, seconds: real, source: Phase, target: Phase)
    requires NoDup(running)
    modifies running
    ensures forall c :: c in running ==> c.Read() == Shifts(old(c.Read()), seconds, source, target)
  {
    for k := 0 to |running|
      invariant forall i :: 0 <= i < k ==> running[i].Read() == Shifts(old(running[i].Read()), seconds, source, target)
      invariant forall i :: k <= i < |running| ==> running[i].Read() == old(running[i].Read())
    {
      var clock := running[k];
      var moved := Min(Max(seconds, 0.0), At(clock.seconds, source));
      clock.seconds := Add(clock.seconds, source, -moved);
      clock.seconds := Add(clock.seconds, target, moved);
    }
  }

  /** The seconds a mark took itself, in every running clock. */
  method OwnRunning(running: seq<Clock>, name: Phase, own: real)
    requires NoDup(running)
    modifies running
    ensures forall c :: c in running ==> c.Read() == Own(old(c.Read()), name, own)
  {
    for k := 0 to |running|
      invariant forall i :: 0 <= i < k ==> running[i].Read() == Own(old(running[i].Read()), name, own)
      invariant forall i :: k <= i < |running| ==> running[i].Read() == old(running[i].Read())
    {
      var clock := running[k];
      clock.seconds := Add(clock.seconds, name, own);
      clock.markedWall := clock.markedWall + own;
    }
  }

  /** The measurements a run finishes, in the order they finish. */
  ghost function Measurements(blocks: seq<Block>): seq<Block>
    decreases blocks, 0
  {
    if blocks == [] then [] else Measurements(blocks[..|blocks| - 1]) + BlockMeasurements(blocks[|blocks| - 1])
  }

  ghost function BlockMeasurements(b: Block): seq<Block>
    decreases b, 1
  {
    match b
    case Measuring(_, body, _) => Measurements(body) + [b]
    case Marked(_, _, body, _) => Measurements(body)
    case _ => []
  }

  lemma {:induction false} MeasurementsTimed(blocks: seq<Block>, from: real, m: Block)
    requires Timed(blocks, from) && m in Measurements(blocks)
    ensures m.Measuring? && BlockTimed(m, m.started)
    decreases blocks, 0
  {
    var init, last := blocks[..|blocks| - 1], blocks[|blocks| - 1];
    if m in Measurements(init) {
      MeasurementsTimed(init, from, m);
    } else if last.Marked? || m != last {
      MeasurementsTimed(last.body, last.started, m);
    }
  }

  /** In every run, every measurement that finishes conserves time. */
  lemma EveryMeasurementConserves(blocks: seq<Block>, from: real, m: Block)
    requires Timed(blocks, from) && m in Measurements(blocks)
    ensures m.Measuring? && Sum(Finished(m).seconds) == m.stopped - m.started + Credited(m.body)
    ensures NonNegative(Finished(m).seconds) && m.stopped - m.started - Finished(m).markedWall >= 0.0
  {
    MeasurementsTimed(blocks, from, m);
    MeasurementConserves(m, m.started);
  }

  /** Each finished clock reads what its measurement comes to. */
  ghost predicate Settled(finished: seq<Clock>, measured: seq<Block>)
    reads finished
  {
    |finished| == |measured| &&
    forall i :: 0 <= i < |finished| ==> measured[i].Measuring? && finished[i].Read() == Finished(measured[i])
  }

  function Innermost(marks: seq<Mark>): set<Mark> {
    if marks == [] then {} else {marks[|marks| - 1]}
  }

  lemma SettledTogether(a: seq<Clock>, measured: seq<Block>, b: seq<Clock>, more: seq<Block>)
    requires Settled(a, measured) && Settled(b, more)
    ensures Settled(a + b, measured + more)
  {
  }

  /** `with measuring()`: the clock runs with the others, then finishes. */
  method RunMeasuring(b: Block, running: seq<Clock>, marks: seq<Mark>) returns (finished: seq<Clock>)
    requires NoDup(running) && b.Measuring?
    modifies running, Innermost(marks)
    ensures forall c :: c in running ==> c.Read() == AfterBlock(old(c.Read()), b)
    ensures forall m :: m in Innermost(marks) ==> m.nested == old(m.nested) + BlockMarkedTime(b)
    ensures forall c :: c in finished ==> fresh(c)
    ensures Settled(finished, BlockMeasurements(b))
    decreases b, 1
  {
    var clock := new Clock();
    var within := running + [clock];
    assert within[|running|] == clock && forall c :: c in running ==> c in within;
    var inner := Run(b.body, within, marks);
    label ran:
    assert clock.Read() == After(Reading(NONE_YET, 0.0), b.body);
    clock.seconds := Add(clock.seconds, TRANSFORM, Max(b.stopped - b.started - clock.markedWall, 0.0));
    assert Settled([clock], [b]);
    assert forall c :: c in inner ==> c.Read() == old@ran(c.Read());
    SettledTogether(inner, Measurements(b.body), [clock], [b]);
    finished := inner + [clock];
  }

  /** `with phase(name)`: the mark takes what its nested marks did not. */
  method RunMarked(b: Block, running: seq<Clock>, marks: seq<Mark>) returns (finished: seq<Clock>)
    requires NoDup(running) && b.Marked?
    modifies running, Innermost(marks)
    ensures forall c :: c in running ==> c.Read() == AfterBlock(old(c.Read()), b)
    ensures forall m :: m in Innermost(marks) ==> m.nested == old(m.nested) + BlockMarkedTime(b)
    ensures forall c :: c in finished ==> fresh(c)
    ensures Settled(finished, BlockMeasurements(b))
    decreases b, 1
  {
    var mark := new Mark(b.name, b.started);
    assert Innermost(marks + [mark]) == {mark};
    finished := Run(b.body, running, marks + [mark]);
    label ran:
    assert forall c :: c in finished ==> c !in running;
    var elapsed := b.stopped - mark.started;
    var own := elapsed - mark.nested;
    OwnRunning(running, b.name, own);
    if marks != [] {
      var outer := marks[|marks| - 1];
      outer.nested := outer.nested + elapsed;
    }
    assert forall c :: c in finished ==> c.Read() == old@ran(c.Read());
  }

  /** Run one block in a context with these measurements and marks running. */
  method RunBlock(b: Block, running: seq<Clock>, marks: seq<Mark>) returns (finished: seq<Clock>)
    requires NoDup(running)
    modifies running, Innermost(marks)
    ensures forall c :: c in running ==> c.Read() == AfterBlock(old(c.Read()), b)
    ensures forall m :: m in Innermost(marks) ==> m.nested == old(m.nested) + BlockMarkedTime(b)
    ensures forall c :: c in finished ==> fresh(c)
    ensures Settled(finished, BlockMeasurements(b))
    decreases b, 2
  {
    match b
    case Measuring(_, _, _) => finished := RunMeasuring(b, running, marks);
    case Marked(_, _, _, _) => finished := RunMarked(b, running, marks);
    case Credit(seconds, name) =>
      CreditRunning(running, seconds, name);
      finished := [];
    case Shift(seconds, source, target) =>
      ShiftRunning(running, seconds, source, target);
      finished := [];
  }

  lemma OneMore(blocks: seq<Block>, k: nat)
    requires k < |blocks|
    ensures forall r: Reading :: After(r, blocks[..k + 1]) == AfterBlock(After(r, blocks[..k]), blocks[k])
    ensures MarkedTime(blocks[..k + 1]) == MarkedTime(blocks[..k]) + BlockMarkedTime(blocks[k])
    ensures Measurements(blocks[..k + 1]) == Measurements(blocks[..k]) + BlockMeasurements(blocks[k])
  {
    assert blocks[..k + 1][..k] == blocks[..k];
  }

  /** Run blocks one after another. */
  method Run(blocks: seq<Block>, running: seq<Clock>, marks: seq<Mark>) returns (finished: seq<Clock>)
    requires NoDup(running)
    modifies running, Innermost(marks)
    ensures forall c :: c in running ==> c.Read() == After(old(c.Read()), blocks)
    ensures forall m :: m in Innermost(marks) ==> m.nested == old(m.nested) + MarkedTime(blocks)
    ensures forall c :: c in finished ==> fresh(c)
    ensures Settled(finished, Measurements(blocks))
    decreases blocks, 0
  {
    finished := [];
    for k := 0 to |blocks|
      invariant forall c :: c in running ==> c.Read() == After(old(c.Read()), blocks[..k])
      invariant forall m :: m in Innermost(marks) ==> m.nested == old(m.nested) + MarkedTime(blocks[..k])
      invariant forall c :: c in finished ==> fresh(c)
      invariant Settled(finished, Measurements(blocks[..k]))
    {
      OneMore(blocks, k);
      assert forall c :: c in finished ==> c !in running;
      label before:
      var more := RunBlock(blocks[k], running, marks);
      assert forall c :: c in finished ==> c.Read() == old@before(c.Read());
      assert Settled(finished, Measurements(blocks[..k]));
      SettledTogether(finished, Measurements(blocks[..k]), more, BlockMeasurements(blocks[k]));
      finished := finished + more;
    }
    assert blocks[..|blocks|] == blocks;
  }
}
