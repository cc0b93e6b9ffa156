/** All instances together: the manager creates, stops, restarts and forgets them by
    target ID (internal/pkg/supervisor/manager.go) while their run loops, health probes
    and children go on (internal/pkg/supervisor/instance.go). */
module Fleet {
  import opened Text
  import opened Supervision
  import opened Reconcile
  import Discovery
  import Labels

  /** Every instance ever created, for which target, with the calls made on it; and the
      manager's map, which knows the current ones. */
  datatype Fleet = Fleet(sys: Sys, owner: seq<string>, calls: seq<seq<Call>>, current: map<string, nat>)

  const NO_FLEET := Fleet(INIT_SYS, [], [], map[])

  datatype FleetStep =
    | Create(id: string)    // a new instance is put into the map and started
    | Forget(id: string)    // a stopped instance is deleted from the map
    | Inner(step: Step)     // a step of an instance, or the end of the root context

  /** Start and Stop are called on instances of the map only. */
  predicate ByManager(a: InstAct) { !a.Probe? && !a.At? }

  /** What a step adds to the record of calls. */
  function Called(calls: seq<Call>, a: InstAct): seq<Call> {
    if a.Start? then calls + [CallStart] else if a.StopReturn? then calls + [CallStop] else calls
  }

  predicate Shaped(f: Fleet) { |f.owner| == |f.calls| == |f.sys.insts| }

  function Move(f: Fleet, t: FleetStep): (r: Option<Fleet>)
    requires Shaped(f)
    ensures r.Some? ==> Shaped(r.value)
  {
    match t
    case Create(id) =>
      if id in f.current then None
      else
        var x := NEW_INST.(loops := [NEW_LOOP], phase := Supervised);
        Some(Fleet(f.sys.(insts := f.sys.insts + [x]), f.owner + [id], f.calls + [[CallStart]],
                   f.current[id := |f.owner|]))
    case Forget(id) =>
      if id in f.current && f.current[id] < |f.sys.insts| && f.sys.insts[f.current[id]].phase == Halted
      then Some(f.(current := f.current - {id}))
      else None
    case Inner(step) =>
      if step.AddInstance? || (step.On? && step.inst >= |f.owner|) then None
      else if step.On? && ByManager(step.act) && !IsCurrent(f, step.inst) then None
      else
        match Apply(f.sys, step)
        case None => None
        case Some(s) =>
          var calls := if step.On? then f.calls[step.inst := Called(f.calls[step.inst], step.act)] else f.calls;
          Some(f.(sys := s, calls := calls))
  }

  predicate IsCurrent(f: Fleet, i: nat)
    requires i < |f.owner|
  {
    f.owner[i] in f.current && f.current[f.owner[i]] == i
  }

  /** Instances the manager has forgotten are halted, and the calls on an instance
      have brought it where it is. */
  predicate FleetInv(f: Fleet) {
    && Shaped(f)
    && SysInv(f.sys)
    && (forall id :: id in f.current ==> f.current[id] < |f.owner| && f.owner[f.current[id]] == id)
    && (forall i :: 0 <= i < |f.owner| && !IsCurrent(f, i) ==> f.sys.insts[i].phase == Halted)
    && (forall i :: 0 <= i < |f.owner| ==> Matched(f.sys.insts[i].phase, f.calls[i]))
  }

  /** During a Stop the call is not on record yet. */
  predicate Matched(phase: Phase, calls: seq<Call>) {
    PhaseAfter(calls) == Some(if phase in {StopCalled, Waiting, Returning} then Supervised else phase)
  }

  lemma CallStep(x: Inst, a: InstAct, root: bool, calls: seq<Call>)
    requires InstStep(x, a, root).Some? && Matched(x.phase, calls)
    ensures Matched(InstStep(x, a, root).value.phase, Called(calls, a))
    ensures !ByManager(a) ==> InstStep(x, a, root).value.phase == x.phase
  {
    hide LoopStep, PhaseAfter;
    if a.Start? { PhaseSnoc(calls, CallStart); }
    if a.StopReturn? { PhaseSnoc(calls, CallStop); }
  }

  lemma FirstCall()
    ensures PhaseAfter([CallStart]) == Some(Supervised)
  {
    PhaseSnoc([], CallStart);
    assert [] + [CallStart] == [CallStart];
  }

  /** A new instance, once it is started. */
  lemma NewKeeps()
    ensures var x := NEW_INST.(loops := [NEW_LOOP], phase := Supervised);
      InstStep(NEW_INST, Start, false) == Some(x) && InstInv(x) && CleanInv(x)
  {
    assert [] + [NEW_LOOP] == [NEW_LOOP];
  }

  lemma CreateKeeps(f: Fleet, id: string)
    requires FleetInv(f) && Move(f, Create(id)).Some?
    ensures FleetInv(Move(f, Create(id)).value)
  {
    NewKeeps();
    FirstCall();
    hide InstStep, InstInv, CleanInv, PhaseAfter;
    var y := Move(f, Create(id)).value;
    forall i | 0 <= i < |y.owner| && !IsCurrent(y, i) ensures y.sys.insts[i].phase == Halted {
      assert i < |f.owner|;
    }
  }

  lemma ForgetKeeps(f: Fleet, id: string)
    requires FleetInv(f) && Move(f, Forget(id)).Some?
    ensures FleetInv(Move(f, Forget(id)).value)
  {
    hide InstInv, CleanInv, PhaseAfter;
    var y := Move(f, Forget(id)).value;
    forall i | 0 <= i < |y.owner| && !IsCurrent(y, i) ensures y.sys.insts[i].phase == Halted {
      assert IsCurrent(f, i) ==> i == f.current[id];
    }
  }

  lemma InnerKeeps(f: Fleet, t: Step)
    requires FleetInv(f) && Move(f, Inner(t)).Some?
    ensures FleetInv(Move(f, Inner(t)).value)
  {
    ApplyKeeps(f.sys, t);
    if t.On? { CallStep(f.sys.insts[t.inst], t.act, f.sys.root, f.calls[t.inst]); }
    hide InstStep, InstInv, CleanInv, Matched, ByManager, Called;
  }

  function MoveAll(f: Fleet, steps: seq<FleetStep>): (r: Option<Fleet>)
    requires Shaped(f)
    ensures r.Some? ==> Shaped(r.value)
    decreases |steps|
  {
    if steps == [] then Some(f)
    else
      match Move(f, steps[0])
      case None => None
      case Some(y) => MoveAll(y, steps[1..])
  }

  lemma {:induction false} MoveAllKeeps(f: Fleet, steps: seq<FleetStep>)
    requires FleetInv(f) && MoveAll(f, steps).Some?
    ensures FleetInv(MoveAll(f, steps).value)
    decreases |steps|
  {
    assert Shaped(f);
    hide FleetInv, Move;
    if steps != [] {
      match steps[0] {
        case Create(id) => CreateKeeps(f, id);
        case Forget(id) => ForgetKeeps(f, id);
        case Inner(step) => InnerKeeps(f, step);
      }
      MoveAllKeeps(Move(f, steps[0]).value, steps[1..]);
    }
  }

  lemma StartsWell()
    ensures FleetInv(NO_FLEET) && EndInv(NO_FLEET.sys)
  {
  }

  // ---- One child per target -------------------------------------------------------

  /** Run loop g of instance i, which is for the target `id`. */
  predicate LoopOf(f: Fleet, id: string, i: nat, g: nat) {
    i < |f.owner| && i < |f.sys.insts| && f.owner[i] == id && g < |f.sys.insts[i].loops|
  }

  /** A forgotten instance that was stopped without a timeout has no child. */
  lemma ForgottenHasNoChild(x: Inst)
    requires InstInv(x) && CleanInv(x) && x.phase == Halted && !x.timedOut
    ensures forall g :: 0 <= g < |x.loops| ==> !x.loops[g].child && x.loops[g].cancelled
  {
    forall g | 0 <= g < |x.loops| ensures !x.loops[g].child && x.loops[g].cancelled {
      assert x.loops[g].pc == Done;
    }
  }

  lemma OneChildIn(x: Inst, g: nat, h: nat)
    requires InstInv(x) && CleanInv(x) && !x.timedOut && g < |x.loops| && h < |x.loops|
    requires x.loops[g].child && x.loops[h].child
    ensures g == h
  {
    assert x.loops[g].pc != Done && x.loops[h].pc != Done;
  }

  /** Over every run of the manager and its instances, through removals and new
      instances: if no Stop for a target has timed out, the target has at most one
      child, whichever of its instances it belongs to. */
  lemma OneChildPerTarget(steps: seq<FleetStep>, id: string, i: nat, g: nat, j: nat, h: nat)
    requires MoveAll(NO_FLEET, steps).Some?
    requires var f := MoveAll(NO_FLEET, steps).value;
      && (forall k :: 0 <= k < |f.owner| && f.owner[k] == id ==> !f.sys.insts[k].timedOut)
      && LoopOf(f, id, i, g) && f.sys.insts[i].loops[g].child
      && LoopOf(f, id, j, h) && f.sys.insts[j].loops[h].child
    ensures i == j && g == h
  {
    StartsWell();
    MoveAllKeeps(NO_FLEET, steps);
    var f := MoveAll(NO_FLEET, steps).value;
    hide MoveAll, InstInv, CleanInv, Matched;
    if !IsCurrent(f, i) { ForgottenHasNoChild(f.sys.insts[i]); }
    if !IsCurrent(f, j) { ForgottenHasNoChild(f.sys.insts[j]); }
    OneChildIn(f.sys.insts[i], g, h);
  }

  // ---- A loop ends only when its context is done -----------------------------------

  predicate Ending(l: Loop) { l.pc in {Finishing, Closing, Done} }

  /** No loop ends on its own. */
  ghost predicate EndInv(s: Sys) {
    forall i: nat, g: nat :: IsLoop(s, i, g) && Ending(s.insts[i].loops[g]) ==> DoneCtx(s, i, g)
  }

  lemma EndLoopStep(l: Loop, a: LoopAct, done: bool)
    requires LoopStep(l, a, done).Some? && (Ending(l) ==> done)
    ensures var m := LoopStep(l, a, done).value.0; m.cancelled == l.cancelled && (Ending(m) ==> done)
  {
  }

  lemma EndInstStep(x: Inst, a: InstAct, root: bool, g: nat)
    requires InstStep(x, a, root).Some? && g < |InstStep(x, a, root).value.loops|
    requires g < |x.loops| && Ending(x.loops[g]) ==> root || x.loops[g].cancelled
    ensures var y := InstStep(x, a, root).value; Ending(y.loops[g]) ==> root || y.loops[g].cancelled
  {
    hide LoopStep;
    if a.At? && a.gen == g {
      EndLoopStep(x.loops[g], a.act, x.loops[g].cancelled || root);
    } else if g < |x.loops| {
      OthersKeepLoop(x, a, root, g);
    }
  }

  lemma EndApply(s: Sys, t: Step)
    requires EndInv(s) && Apply(s, t).Some?
    ensures EndInv(Apply(s, t).value)
  {
    var s' := Apply(s, t).value;
    hide InstStep;
    forall i: nat, g: nat | IsLoop(s', i, g) && Ending(s'.insts[i].loops[g]) ensures DoneCtx(s', i, g) {
      if t.On? && t.inst == i {
        if g < |s.insts[i].loops| && Ending(s.insts[i].loops[g]) { assert IsLoop(s, i, g); }
        EndInstStep(s.insts[i], t.act, s.root, g);
      } else {
        assert i < |s.insts|;
        assert IsLoop(s, i, g);
      }
    }
  }

  lemma EndMove(f: Fleet, t: FleetStep)
    requires Shaped(f) && EndInv(f.sys) && Move(f, t).Some?
    ensures EndInv(Move(f, t).value.sys)
  {
    match t
    case Create(id) =>
      var y := Move(f, t).value;
      forall i: nat, g: nat | IsLoop(y.sys, i, g) && Ending(y.sys.insts[i].loops[g]) ensures DoneCtx(y.sys, i, g) {
        assert IsLoop(f.sys, i, g);
      }
    case Forget(id) =>
    case Inner(step) =>
      EndApply(f.sys, step);
  }

  lemma {:induction false} EndMoveAll(f: Fleet, steps: seq<FleetStep>)
    requires Shaped(f) && EndInv(f.sys) && MoveAll(f, steps).Some?
    ensures EndInv(MoveAll(f, steps).value.sys)
    decreases |steps|
  {
    hide EndInv, Move;
    if steps != [] {
      EndMove(f, steps[0]);
      EndMoveAll(Move(f, steps[0]).value, steps[1..]);
    }
  }

  // ---- One live loop per offered target ----------------------------------------------

  /** The manager is between two calls, and its map is the given one. */
  predicate AtRestWith(f: Fleet, managed: map<string, Managed>) {
    && Shaped(f) && f.current.Keys == managed.Keys
    && (forall id :: id in f.current ==> f.current[id] < |f.calls| && f.calls[f.current[id]] == managed[id].calls)
    && (forall i :: 0 <= i < |f.sys.insts| ==> f.sys.insts[i].phase !in {StopCalled, Waiting, Returning})
  }

  /** Nobody has cancelled the context of the loop, neither its own nor the root's. */
  predicate IsLive(f: Fleet, i: nat, g: nat)
    requires IsLoop(f.sys, i, g)
  {
    !DoneCtx(f.sys, i, g)
  }

  /** It is the only live run loop for the target, and it is still running. */
  ghost predicate OnlyLive(f: Fleet, id: string, i: nat, g: nat) {
    && LoopOf(f, id, i, g) && IsLive(f, i, g) && !Ending(f.sys.insts[i].loops[g])
    && forall j: nat, h: nat :: LoopOf(f, id, j, h) && IsLive(f, j, h) ==> j == i && h == g
  }

  ghost predicate SomeOnlyLive(f: Fleet, id: string) {
    exists i: nat, g: nat ::
      OnlyLive(f, id, i, g)
  }

  ghost predicate NoneLive(f: Fleet, id: string) {
    forall j: nat, h: nat :: LoopOf(f, id, j, h) ==> !IsLive(f, j, h)
  }

  lemma HaltedIsCancelled(x: Inst)
    requires InstInv(x) && x.phase == Halted
    ensures forall g :: 0 <= g < |x.loops| ==> x.loops[g].cancelled
  {
  }

  lemma SupervisedIsLive(x: Inst)
    requires InstInv(x) && x.phase == Supervised
    ensures x.loops != [] && !x.loops[|x.loops| - 1].cancelled
    ensures forall g :: 0 <= g < |x.loops| - 1 ==> x.loops[g].cancelled
  {
  }

  lemma LiveLoops(f: Fleet, managed: map<string, Managed>, id: string)
    requires FleetInv(f) && EndInv(f.sys) && AtRestWith(f, managed) && AllSupervised(managed)
    ensures if id in managed && !f.sys.root then SomeOnlyLive(f, id) else NoneLive(f, id)
  {
    hide InstInv, CleanInv, PhaseAfter, Ending;
    forall j: nat, h: nat | LoopOf(f, id, j, h) && !IsCurrent(f, j) ensures f.sys.insts[j].loops[h].cancelled {
      HaltedIsCancelled(f.sys.insts[j]);
    }
    if id in managed {
      var i := f.current[id];
      assert Matched(f.sys.insts[i].phase, f.calls[i]);
      assert f.sys.insts[i].phase == Supervised;
      SupervisedIsLive(f.sys.insts[i]);
      if !f.sys.root {
        var g := |f.sys.insts[i].loops| - 1;
        assert IsLoop(f.sys, i, g);
        assert OnlyLive(f, id, i, g);
      }
    }
  }

  /** The pipeline only ever manages supervised instances. */
  lemma {:induction false} PipelineSupervises(x: Discovery.Pipe, steps: seq<Discovery.Step>, cap: nat)
    requires AllSupervised(x.managed) && Discovery.Run(x, steps, cap).Some?
    ensures AllSupervised(Discovery.Run(x, steps, cap).value.managed)
    decreases |steps|
  {
    hide AllSupervised, Discovery.Apply;
    if steps != [] {
      PipelineStepSupervises(x, steps[0], cap);
      PipelineSupervises(Discovery.Apply(x, steps[0], cap).value, steps[1..], cap);
    }
  }

  lemma PipelineStepSupervises(x: Discovery.Pipe, t: Discovery.Step, cap: nat)
    requires AllSupervised(x.managed) && Discovery.Apply(x, t, cap).Some?
    ensures AllSupervised(Discovery.Apply(x, t, cap).value.managed)
  {
    hide AllSupervised, Reconciled, Discovery.IsSnapshot, Discovery.Fresh, Discovery.WithCells;
    if t.Deliver? {
      KeepsProtocol(x.managed, Labels.EnrichedAll(x.inHand.value, x.store, t.resolve));
    }
  }

  /** Once the pipeline is quiet and the manager at rest with what it has delivered:
      before Shutdown, every ID that some provider offers has exactly one run loop
      whose context nobody has cancelled, and that loop is still running; every other
      ID has none, and after Shutdown has cancelled the root context no ID has any. */
  lemma OneLiveLoopPerOffer(pipeline: seq<Discovery.Step>, cap: nat, steps: seq<FleetStep>, id: string)
    requires cap > 0 && Discovery.Run(Discovery.INIT_PIPE, pipeline, cap).Some?
    requires Discovery.Quiescent(Discovery.Run(Discovery.INIT_PIPE, pipeline, cap).value)
    requires MoveAll(NO_FLEET, steps).Some?
    requires AtRestWith(MoveAll(NO_FLEET, steps).value, Discovery.Run(Discovery.INIT_PIPE, pipeline, cap).value.managed)
    ensures var f := MoveAll(NO_FLEET, steps).value;
      if Discovery.OffersId(Discovery.Run(Discovery.INIT_PIPE, pipeline, cap).value.lists, id) && !f.sys.root
      then SomeOnlyLive(f, id) else NoneLive(f, id)
  {
    Discovery.Convergence(pipeline, cap);
    PipelineSupervises(Discovery.INIT_PIPE, pipeline, cap);
    StartsWell();
    MoveAllKeeps(NO_FLEET, steps);
    EndMoveAll(NO_FLEET, steps);
    hide *;
    LiveLoops(MoveAll(NO_FLEET, steps).value, Discovery.Run(Discovery.INIT_PIPE, pipeline, cap).value.managed, id);
  }
}
