/** Generated sibling sources and their cache (`autogen.py`, `framework_cache.py`): a cached file is only served for the
    reference it was emitted from, and a hand-written file is never touched. */
module Autogen {
  import opened Markers
  import opened Outcomes

  /** What a generated file depends on: the reference's bytes, the kernel's bench_info, and the tree that renders it. */
  datatype Inputs = Inputs(reference: string, benchInfo: string, tree: string)

  /** How a kernel is emitted. `emit` is the file the emitter writes, if it does not refuse; `generated` tells generated
      files; `fingerprint` tells inputs apart. */
  datatype Kernel = Kernel(hasNumba: bool, emit: (string, Inputs) -> Option<string>, generated: string -> bool,
                           fingerprint: Inputs -> string)

  /** Emitters write generated files, and no two inputs share a fingerprint. */
  ghost predicate ValidKernel(k: Kernel) {
    && (forall t, i :: k.emit(t, i).Some? ==> k.generated(k.emit(t, i).value))
    && (forall a, b :: k.fingerprint(a) == k.fingerprint(b) ==> a == b)
  }

  /** A kernel whose emitters write through `write_generated`. */
  function KernelOf(reference: string, hasNumba: bool, render: (string, Inputs) -> Option<string>,
                    fingerprint: Inputs -> string): Kernel {
    Kernel(hasNumba, (t, i) => Written(reference, render(t, i)), (text: string) => IsGenerated(text), fingerprint)
  }

  function Written(reference: string, rendered: Option<string>): Option<string> {
    match rendered
    case Some(text) => Some(Stamped("# ", reference, text))
    case None => None
  }

  lemma WrittenIsGenerated(reference: string, rendered: Option<string>)
    ensures Written(reference, rendered).Some? ==> IsGenerated(Written(reference, rendered).value)
  {
    if rendered.Some? { StampedIsGenerated("# ", reference, rendered.value); }
  }

  /** The files emitters write through `write_generated` are told as generated. */
  lemma KernelOfIsValid(reference: string, hasNumba: bool, render: (string, Inputs) -> Option<string>,
                        fingerprint: Inputs -> string)
    requires forall a, b :: fingerprint(a) == fingerprint(b) ==> a == b
    ensures ValidKernel(KernelOf(reference, hasNumba, render, fingerprint))
  {
    var k := KernelOf(reference, hasNumba, render, fingerprint);
    forall t, i ensures k.emit(t, i).Some? ==> k.generated(k.emit(t, i).value) {
      WrittenIsGenerated(reference, render(t, i));
    }
  }

  /** `emittable`: no numba on a track that has none. */
  function Emittable(k: Kernel, targets: seq<string>): seq<string> {
    if targets == [] then []
    else if targets[0] == "numba" && !k.hasNumba then Emittable(k, targets[1..])
    else [targets[0]] + Emittable(k, targets[1..])
  }

  /** `is_override`: a file that is there and carries no mark. */
  predicate IsOverride(k: Kernel, siblings: map<string, string>, target: string) {
    target in siblings && !k.generated(siblings[target])
  }

  /** What `ensure` leaves for a target: a hand-written file as it was; else the file emitted from the reference as it
      is, or none where that emit is refused. */
  ghost predicate UpToDate(k: Kernel, inputs: Inputs, before: map<string, string>, after: map<string, string>,
                           target: string) {
    if IsOverride(k, before, target) then target in after && after[target] == before[target]
    else match k.emit(target, inputs)
      case Some(file) => target in after && after[target] == file
      case None => target !in after
  }

  /** The siblings differ in these targets at most. */
  ghost predicate Unlike(before: map<string, string>, after: map<string, string>, targets: seq<string>) {
    forall t :: t !in targets ==> (t in after <==> t in before) && (t in after ==> after[t] == before[t])
  }

  /** The file is what emitting inputs of this fingerprint gives. */
  ghost predicate EmittedFrom(k: Kernel, fingerprint: string, target: string, file: string) {
    exists i :: k.fingerprint(i) == fingerprint && k.emit(target, i) == Some(file)
  }

  /** The directory of one kernel: its reference, the siblings by target, and the cache with its sidecars. */
  class KernelDir {
    const kernel: Kernel
    var inputs: Inputs
    /** Whether the reference file is there. */
    var referenced: bool
    var siblings: map<string, string>
    var cached: map<string, string>
    var sidecars: map<string, string>

    constructor (kernel: Kernel, inputs: Inputs, siblings: map<string, string>)
      requires ValidKernel(kernel)
      ensures Valid() && this.kernel == kernel && this.inputs == inputs && this.siblings == siblings && referenced
    {
      this.kernel, this.inputs, this.siblings, referenced := kernel, inputs, siblings, true;
      cached, sidecars := map[], map[];
    }

    /** A sidecar names the fingerprint of the inputs its cached file was emitted from. */
    ghost predicate Honest(target: string)
      reads this
    {
      target in sidecars && target in cached && EmittedFrom(kernel, sidecars[target], target, cached[target])
    }

    ghost predicate Valid()
      reads this
    {
      ValidKernel(kernel) && forall t :: t in sidecars ==> Honest(t)
    }

    /** The cache holds the target as it would be emitted now. */
    ghost predicate Cached(target: string)
      reads this
    {
      target in cached && target in sidecars && sidecars[target] == kernel.fingerprint(inputs)
    }

    /** `load_generated`: on a hit the sibling is the cached file. */
    method LoadGenerated(target: string, fingerprint: string) returns (hit: bool)
      requires Valid() && fingerprint == kernel.fingerprint(inputs)
      modifies this`siblings
      ensures hit <==> Cached(target)
      ensures hit ==> kernel.emit(target, inputs).Some?
      ensures hit ==> siblings == old(siblings)[target := kernel.emit(target, inputs).value]
      ensures !hit ==> siblings == old(siblings)
    {
      if target !in cached || target !in sidecars || sidecars[target] != fingerprint { return false; }
      assert Honest(target);
      var payload := cached[target];
      if target !in siblings || siblings[target] != payload { siblings := siblings[target := payload]; }
      hit := true;
    }

    /** `save_generated`: the bytes, then the sidecar. */
    method SaveGenerated(target: string, fingerprint: string)
      requires Valid() && fingerprint == kernel.fingerprint(inputs)
      requires target in siblings && kernel.emit(target, inputs) == Some(siblings[target])
      modifies this`cached, this`sidecars
      ensures Valid() && cached == old(cached)[target := siblings[target]]
      ensures sidecars == old(sidecars)[target := fingerprint]
    {
      assert forall t :: t in sidecars ==> Honest(t);
      label before:
      cached := cached[target := siblings[target]];
      sidecars := sidecars[target := fingerprint];
      forall t | t in sidecars ensures Honest(t) {
        if t != target { assert old@before(Honest(t)); }
      }
    }

    /** Emit one target that the cache does not have; a refused emit removes what was generated before. */
    method EmitOne(target: string, fingerprint: string)
      requires Valid() && fingerprint == kernel.fingerprint(inputs) && !IsOverride(kernel, siblings, target)
      modifies this`siblings, this`cached, this`sidecars
      ensures Valid() && UpToDate(kernel, inputs, old(siblings), siblings, target)
      ensures Unlike(old(siblings), siblings, [target]) && (kernel.emit(target, inputs).Some? ==> Cached(target))
      ensures forall t :: old(Cached(t)) ==> Cached(t)
    {
      var file := kernel.emit(target, inputs);
      if file.Some? {
        siblings := siblings[target := file.value];
        if kernel.generated(siblings[target]) { SaveGenerated(target, fingerprint); }
      } else if target in siblings && kernel.generated(siblings[target]) {
        siblings := siblings - {target};
      }
    }

    /** The first loop of `ensure_locked`: what the cache has is restored; the rest is listed. */
    method LoadAll(targets: seq<string>, fingerprint: string) returns (toEmit: seq<string>)
      requires Valid() && fingerprint == kernel.fingerprint(inputs)
      modifies this`siblings
      ensures Unlike(old(siblings), siblings, targets)
      ensures forall t :: t in targets && t !in toEmit ==>
        UpToDate(kernel, inputs, old(siblings), siblings, t) && (IsOverride(kernel, old(siblings), t) || Cached(t))
      ensures forall t :: t in toEmit ==>
                t in targets && !IsOverride(kernel, old(siblings), t) && !IsOverride(kernel, siblings, t)
    {
      toEmit := [];
      ghost var before := siblings;
      for i := 0 to |targets|
        invariant Unlike(before, siblings, targets[..i])
        invariant forall t :: t in targets[..i] && t !in toEmit ==>
          UpToDate(kernel, inputs, before, siblings, t) && (IsOverride(kernel, before, t) || Cached(t))
        invariant forall t :: t in toEmit ==> t in targets[..i]
        invariant forall t :: IsOverride(kernel, siblings, t) <==> IsOverride(kernel, before, t)
        invariant forall t :: t in toEmit ==> !IsOverride(kernel, siblings, t)
      {
        var t := targets[i];
        assert targets[..i + 1] == targets[..i] + [t];
        if !IsOverride(kernel, siblings, t) {
          var hit := LoadGenerated(t, fingerprint);
          if !hit { toEmit := toEmit + [t]; }
        }
      }
      assert targets[..|targets|] == targets;
    }

    /** The second loop: emit what the cache did not have. */
    method EmitAll(toEmit: seq<string>, fingerprint: string)
      requires Valid() && fingerprint == kernel.fingerprint(inputs)
      requires forall t :: t in toEmit ==> !IsOverride(kernel, siblings, t)
      modifies this`siblings, this`cached, this`sidecars
      ensures Valid() && Unlike(old(siblings), siblings, toEmit)
      ensures forall t :: t in toEmit ==>
        UpToDate(kernel, inputs, old(siblings), siblings, t) && (kernel.emit(t, inputs).Some? ==> Cached(t))
      ensures forall t :: old(Cached(t)) ==> Cached(t)
    {
      ghost var before := siblings;
      for i := 0 to |toEmit|
        invariant Valid() && Unlike(before, siblings, toEmit[..i])
        invariant forall t :: t in toEmit ==> !IsOverride(kernel, siblings, t)
        invariant forall t :: t in toEmit[..i] ==>
          UpToDate(kernel, inputs, before, siblings, t) && (kernel.emit(t, inputs).Some? ==> Cached(t))
        invariant forall t :: old(Cached(t)) ==> Cached(t)
      {
        assert toEmit[..i + 1] == toEmit[..i] + [toEmit[i]];
        EmitOne(toEmit[i], fingerprint);
      }
      assert toEmit[..|toEmit|] == toEmit;
    }

    /** `ensure`, under the kernel's lock: every requested target is brought up to date, and nothing else is touched.
        What could be emitted is cached, so that ensuring it again emits nothing. Without a reference nothing is
        touched at all. */
    method Ensure(requested: seq<string>)
      requires Valid()
      modifies this`siblings, this`cached, this`sidecars
      ensures Valid() && Unlike(old(siblings), siblings, Emittable(kernel, requested))
      ensures !referenced ==> siblings == old(siblings) && cached == old(cached) && sidecars == old(sidecars)
      ensures referenced ==>
                forall t :: t in Emittable(kernel, requested) ==> UpToDate(kernel, inputs, old(siblings), siblings, t)
      ensures referenced ==>
                forall t | t in Emittable(kernel, requested) && !IsOverride(kernel, old(siblings), t) ::
                  kernel.emit(t, inputs).Some? ==> Cached(t)
    {
      var targets := Emittable(kernel, requested);
      if targets == [] || !referenced { return; }
      var fingerprint := kernel.fingerprint(inputs);
      var toEmit := LoadAll(targets, fingerprint);
      EmitAll(toEmit, fingerprint);
    }

    /** Someone edits the reference, or anything else the emit depends on. */
    method EditInputs(edited: Inputs)
      requires Valid()
      modifies this`inputs, this`referenced
      ensures Valid() && inputs == edited && referenced
    {
      inputs, referenced := edited, true;
      assert forall t :: t in sidecars ==> old(Honest(t));
    }

    /** Someone deletes the reference. */
    method DropReference()
      requires Valid()
      modifies this`referenced
      ensures Valid() && !referenced
    {
      referenced := false;
      assert forall t :: t in sidecars ==> old(Honest(t));
    }

    /** Someone writes a sibling by hand, or deletes it. */
    method EditSibling(target: string, text: Option<string>)
      requires Valid()
      modifies this`siblings
      ensures Valid()
      ensures siblings == match text case Some(file) => old(siblings)[target := file]
                                     case None => old(siblings) - {target}
    {
      match text
      case Some(file) => siblings := siblings[target := file];
      case None => siblings := siblings - {target};
    }
  }
}
