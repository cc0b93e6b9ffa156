/** Every run of the pipeline has a run of the fleet that keeps up with it: whatever
    Reconcile does to the map can be done to the instances, without a Stop timing out. */
module FleetRuns {
  import opened Text
  import opened Config
  import opened Supervision
  import opened SupervisionLaws
  import opened Reconcile
  import opened Fleet
  import Discovery
  import Labels

  // ---- Stopping one instance ------------------------------------------------------

  /** A loop whose context is done can be brought to its end. */
  lemma DrainLoop(x: Inst, g: nat, root: bool) returns (acts: seq<InstAct>)
    requires g < |x.loops| && x.loops[g].cancelled
    ensures InstRun(x, acts, root).Some?
    ensures var y := InstRun(x, acts, root).value;
      && |y.loops| == |x.loops| && y.loops[g].pc == Done && y.loops[g].cancelled
      && y.phase == x.phase && y.timedOut == x.timedOut
    ensures forall k :: 0 <= k < |acts| ==> acts[k].At?
    decreases Measure(x.loops[g])
  {
    var l := x.loops[g];
    if l.pc == Done {
      acts := [];
    } else {
      if !l.child { DrainProgress(l); }
      var a :| LoopStep(l, a, true).Some?;
      DrainStep(l, a);
      OneLoopStep(x, g, a, root);
      var y := InstStep(x, At(g, a), root).value;
      hide LoopStep, InstStep, Measure;
      var rest := DrainLoop(y, g, root);
      acts := [At(g, a)] + rest;
      assert acts[1..] == rest;
    }
  }

  lemma OneLoopStep(x: Inst, g: nat, a: LoopAct, root: bool)
    requires g < |x.loops| && x.loops[g].cancelled && LoopStep(x.loops[g], a, true).Some?
    ensures InstStep(x, At(g, a), root).Some?
    ensures var y := InstStep(x, At(g, a), root).value;
      && |y.loops| == |x.loops| && y.loops[g] == LoopStep(x.loops[g], a, true).value.0 && y.loops[g].cancelled
      && y.phase == x.phase && y.timedOut == x.timedOut
  {
    LoopStepContext(x.loops[g], a);
    hide LoopStep;
  }

  /** The calls recorded along a run of one instance. */
  function CalledAll(calls: seq<Call>, acts: seq<InstAct>): seq<Call>
    decreases |acts|
  {
    if acts == [] then calls else CalledAll(Called(calls, acts[0]), acts[1..])
  }

  lemma {:induction false} CalledAppend(calls: seq<Call>, a: seq<InstAct>, b: seq<InstAct>)
    ensures CalledAll(calls, a + b) == CalledAll(CalledAll(calls, a), b)
    decreases |a|
  {
    if a == [] {
      assert a + b == b;
    } else {
      assert (a + b)[1..] == a[1..] + b;
      CalledAppend(Called(calls, a[0]), a[1..], b);
    }
  }

  lemma {:induction false} CalledLoops(calls: seq<Call>, acts: seq<InstAct>)
    requires forall k :: 0 <= k < |acts| ==> acts[k].At?
    ensures CalledAll(calls, acts) == calls
    decreases |acts|
  {
    if acts != [] { CalledLoops(calls, acts[1..]); }
  }

  /** A supervised instance can be stopped without a timeout. */
  lemma StopInst(x: Inst, root: bool, calls: seq<Call>) returns (acts: seq<InstAct>)
    requires InstInv(x) && x.phase == Supervised
    ensures InstRun(x, acts, root).Some?
    ensures var y := InstRun(x, acts, root).value; y.phase == Halted && y.timedOut == x.timedOut
    ensures CalledAll(calls, acts) == calls + [CallStop]
  {
    var y := BeginStop(x, root);
    var g := |x.loops| - 1;
    var drain := DrainLoop(y, g, root);
    var z := InstRun(y, drain, root).value;
    EndStop(z, root, calls);
    hide InstStep, InstRun, InstInv;
    var p, q := [StopCall, StopCancel], [StopClosed, StopReturn];
    InstRunAppend(y, drain, q, root);
    InstRunAppend(x, p, drain + q, root);
    acts := p + (drain + q);
    CalledAppend(calls, p, drain + q);
    CalledAppend(calls, drain, q);
    CalledLoops(calls, drain);
    NoCallYet(calls);
  }

  lemma NoCallYet(calls: seq<Call>)
    ensures CalledAll(calls, [StopCall, StopCancel]) == calls
  {
    assert [StopCall, StopCancel][1..] == [StopCancel] && [StopCancel][1..] == [];
  }

  lemma BeginStop(x: Inst, root: bool) returns (y: Inst)
    requires InstInv(x) && x.phase == Supervised
    ensures InstRun(x, [StopCall, StopCancel], root) == Some(y)
    ensures |y.loops| == |x.loops| > 0 && y.loops[|x.loops| - 1].cancelled
    ensures y.phase == Waiting && y.timedOut == x.timedOut
  {
    var one := InstStep(x, StopCall, root).value;
    y := InstStep(one, StopCancel, root).value;
    assert [StopCall, StopCancel][1..] == [StopCancel] && [StopCancel][1..] == [];
    assert InstRun(one, [StopCancel], root) == Some(y);
  }

  lemma EndStop(z: Inst, root: bool, calls: seq<Call>)
    requires z.phase == Waiting && z.loops != [] && z.loops[|z.loops| - 1].pc == Done
    ensures InstRun(z, [StopClosed, StopReturn], root).Some?
    ensures var y := InstRun(z, [StopClosed, StopReturn], root).value; y.phase == Halted && y.timedOut == z.timedOut
    ensures CalledAll(calls, [StopClosed, StopReturn]) == calls + [CallStop]
  {
    var one := InstStep(z, StopClosed, root).value;
    var y := InstStep(one, StopReturn, root).value;
    assert [StopClosed, StopReturn][1..] == [StopReturn] && [StopReturn][1..] == [];
    assert InstRun(one, [StopReturn], root) == Some(y);
  }

  // ---- The same in the fleet --------------------------------------------------------

  function InnerAll(i: nat, acts: seq<InstAct>): (r: seq<FleetStep>)
    ensures |r| == |acts| && forall k :: 0 <= k < |acts| ==> r[k] == Inner(On(i, acts[k]))
  {
    seq(|acts|, k requires 0 <= k < |acts| => Inner(On(i, acts[k])))
  }

  /** The fleet with one instance moved on. */
  function Advanced(f: Fleet, i: nat, y: Inst, calls: seq<Call>): Fleet
    requires Shaped(f) && i < |f.owner|
  {
    f.(sys := f.sys.(insts := f.sys.insts[i := y]), calls := f.calls[i := calls])
  }

  lemma {:induction false} InnerRun(f: Fleet, i: nat, acts: seq<InstAct>)
    requires Shaped(f) && i < |f.owner| && IsCurrent(f, i)
    requires InstRun(f.sys.insts[i], acts, f.sys.root).Some?
    ensures MoveAll(f, InnerAll(i, acts))
         == Some(Advanced(f, i, InstRun(f.sys.insts[i], acts, f.sys.root).value, CalledAll(f.calls[i], acts)))
    decreases |acts|
  {
    hide InstStep, ByManager, Called;
    if acts == [] {
      assert f.sys.insts[i := f.sys.insts[i]] == f.sys.insts && f.calls[i := f.calls[i]] == f.calls;
    } else {
      var y := InstStep(f.sys.insts[i], acts[0], f.sys.root).value;
      var c := Called(f.calls[i], acts[0]);
      var f' := Advanced(f, i, y, c);
      assert Move(f, Inner(On(i, acts[0]))) == Some(f');
      assert InnerAll(i, acts)[1..] == InnerAll(i, acts[1..]);
      InnerRun(f', i, acts[1..]);
      var z := InstRun(y, acts[1..], f.sys.root).value;
      assert f'.sys.insts[i := z] == f.sys.insts[i := z];
      assert f'.calls[i := CalledAll(c, acts[1..])] == f.calls[i := CalledAll(c, acts[1..])];
    }
  }

  lemma {:induction false} MoveConcat(f: Fleet, a: seq<FleetStep>, b: seq<FleetStep>)
    requires Shaped(f) && MoveAll(f, a).Some?
    ensures MoveAll(f, a + b) == MoveAll(MoveAll(f, a).value, b)
    decreases |a|
  {
    hide Move;
    if a == [] {
      assert a + b == b;
    } else {
      assert (a + b)[1..] == a[1..] + b;
      MoveConcat(Move(f, a[0]).value, a[1..], b);
    }
  }

  predicate NoTimeouts(f: Fleet) {
    forall i :: 0 <= i < |f.sys.insts| ==> !f.sys.insts[i].timedOut
  }

  /** At rest with the map, before Shutdown, and no Stop has timed out. */
  predicate Ready(f: Fleet, managed: map<string, Managed>) {
    FleetInv(f) && AtRestWith(f, managed) && !f.sys.root && NoTimeouts(f)
  }

  /** The steps lead to a fleet that is ready with the map. */
  predicate Leads(f: Fleet, steps: seq<FleetStep>, managed: map<string, Managed>) {
    Shaped(f) && MoveAll(f, steps).Some? && Ready(MoveAll(f, steps).value, managed)
  }

  lemma LeadsOn(f: Fleet, a: seq<FleetStep>, m: map<string, Managed>, b: seq<FleetStep>, n: map<string, Managed>)
    requires Leads(f, a, m) && Leads(MoveAll(f, a).value, b, n)
    ensures Leads(f, a + b, n)
  {
    hide Ready, MoveAll;
    MoveConcat(f, a, b);
  }

  lemma CurrentOf(f: Fleet, m: map<string, Managed>, id: string)
    requires Ready(f, m) && id in m && PhaseAfter(m[id].calls) == Some(Supervised)
    ensures id in f.current && f.current[id] < |f.owner| && IsCurrent(f, f.current[id])
    ensures var x := f.sys.insts[f.current[id]]; InstInv(x) && x.phase == Supervised
    ensures f.calls[f.current[id]] == m[id].calls
  {
    hide InstInv, CleanInv, PhaseAfter;
    assert Matched(f.sys.insts[f.current[id]].phase, f.calls[f.current[id]]);
  }

  /** An instance stopped, with the map and the rest as before. */
  lemma StopOneOf(f: Fleet, m: map<string, Managed>, id: string) returns (steps: seq<FleetStep>, y: Inst)
    requires Ready(f, m) && id in m && PhaseAfter(m[id].calls) == Some(Supervised)
    ensures id in f.current && f.current[id] < |f.owner| && Shaped(f)
    ensures MoveAll(f, steps) == Some(Advanced(f, f.current[id], y, m[id].calls + [CallStop]))
    ensures y.phase == Halted && !y.timedOut
    ensures FleetInv(Advanced(f, f.current[id], y, m[id].calls + [CallStop]))
  {
    CurrentOf(f, m, id);
    var i := f.current[id];
    hide InstInv, InstRun, PhaseAfter, FleetInv, MoveAll;
    assert FleetInv(f);
    var acts := StopInst(f.sys.insts[i], f.sys.root, f.calls[i]);
    InnerRun(f, i, acts);
    steps := InnerAll(i, acts);
    y := InstRun(f.sys.insts[i], acts, f.sys.root).value;
    MoveAllKeeps(f, steps);
  }

  lemma OneMove(f: Fleet, t: FleetStep, y: Fleet)
    requires Shaped(f) && Move(f, t) == Some(y)
    ensures MoveAll(f, [t]) == Some(y)
  {
    hide Move;
    assert [t][1..] == [];
  }

  /** Different IDs have different instances. */
  lemma OthersElsewhere(f: Fleet, id: string, k: string)
    requires FleetInv(f) && id in f.current && k in f.current && k != id
    ensures f.current[k] != f.current[id] && f.current[k] < |f.owner|
  {
    hide InstInv, CleanInv, PhaseAfter;
  }

  lemma Arrives(f: Fleet, steps: seq<FleetStep>, b: Fleet, m: map<string, Managed>)
    requires Shaped(f) && MoveAll(f, steps) == Some(b)
    requires FleetInv(b) && AtRestWith(b, m) && !b.sys.root && NoTimeouts(b)
    ensures Leads(f, steps, m)
  {
    hide MoveAll, FleetInv, AtRestWith, NoTimeouts;
  }

  /** The manager has made the calls on one instance that its new entry records. */
  lemma RestAdvanced(f: Fleet, m: map<string, Managed>, id: string, i: nat, z: Inst, t: Managed)
    requires AtRestWith(f, m) && NoTimeouts(f) && id in f.current && f.current[id] == i && i < |f.owner|
    requires forall k :: k in f.current && k != id ==> f.current[k] != i
    requires z.phase == Supervised && !z.timedOut
    ensures var b := Advanced(f, i, z, t.calls); AtRestWith(b, m[id := t]) && NoTimeouts(b)
  {
  }

  lemma RestForgotten(f: Fleet, m: map<string, Managed>, id: string, i: nat, y: Inst, c: seq<Call>)
    requires AtRestWith(f, m) && NoTimeouts(f) && id in f.current && f.current[id] == i && i < |f.owner|
    requires forall k :: k in f.current && k != id ==> f.current[k] != i
    requires y.phase == Halted && !y.timedOut
    ensures var a := Advanced(f, i, y, c);
      var b := a.(current := a.current - {id}); AtRestWith(b, m - {id}) && NoTimeouts(b)
  {
    var a := Advanced(f, i, y, c);
    var b := a.(current := a.current - {id});
    assert b.current.Keys == (m - {id}).Keys;
  }

  lemma ForgetMoves(a: Fleet, id: string, b: Fleet)
    requires FleetInv(a) && id in a.current && a.current[id] < |a.owner|
    requires a.sys.insts[a.current[id]].phase == Halted && b == a.(current := a.current - {id})
    ensures MoveAll(a, [Forget(id)]) == Some(b) && FleetInv(b)
  {
    ForgetKeeps(a, id);
    OneMove(a, Forget(id), b);
  }

  lemma ReadyAfterForget(f: Fleet, m: map<string, Managed>, id: string, i: nat, y: Inst, c: seq<Call>)
    requires Ready(f, m) && id in m && id in f.current && f.current[id] == i && i < |f.owner|
    requires FleetInv(Advanced(f, i, y, c)) && y.phase == Halted && !y.timedOut
    ensures Leads(Advanced(f, i, y, c), [Forget(id)], m - {id})
  {
    hide FleetInv, AtRestWith, NoTimeouts, MoveAll, Leads;
    assert Shaped(f) by { OwnerOf(f, id); }
    var a := Advanced(f, i, y, c);
    var b := a.(current := a.current - {id});
    forall k | k in f.current && k != id ensures f.current[k] != i { OthersElsewhere(f, id, k); }
    RestForgotten(f, m, id, i, y, c);
    ForgetMoves(a, id, b);
    Arrives(a, [Forget(id)], b, m - {id});
  }

  /** Removing an instance. */
  lemma RemoveStep(f: Fleet, m: map<string, Managed>, id: string) returns (steps: seq<FleetStep>)
    requires Ready(f, m) && id in m && PhaseAfter(m[id].calls) == Some(Supervised)
    ensures Leads(f, steps, m - {id})
  {
    var stop, y := StopOneOf(f, m, id);
    hide PhaseAfter, FleetInv, Ready, MoveAll;
    ReadyAfterForget(f, m, id, f.current[id], y, m[id].calls + [CallStop]);
    MoveConcat(f, stop, [Forget(id)]);
    steps := stop + [Forget(id)];
  }

  lemma StartAgain(y: Inst)
    requires y.phase == Halted
    ensures InstRun(y, [Start], false) == Some(y.(loops := y.loops + [NEW_LOOP], phase := Supervised))
  {
    var z := y.(loops := y.loops + [NEW_LOOP], phase := Supervised);
    assert [Start][1..] == [];
    assert InstRun(z, [Start][1..], false) == Some(z);
  }

  lemma CalledStart(calls: seq<Call>)
    ensures CalledAll(calls, [Start]) == calls + [CallStart]
  {
    assert [Start][1..] == [];
    assert CalledAll(calls + [CallStart], [Start][1..]) == calls + [CallStart];
  }

  lemma StartMoves(a: Fleet, i: nat, y: Inst)
    requires FleetInv(a) && i < |a.owner| && IsCurrent(a, i) && !a.sys.root
    requires a.sys.insts[i] == y && y.phase == Halted
    ensures var z := y.(loops := y.loops + [NEW_LOOP], phase := Supervised);
      && MoveAll(a, [Inner(On(i, Start))]) == Some(Advanced(a, i, z, a.calls[i] + [CallStart]))
      && FleetInv(Advanced(a, i, z, a.calls[i] + [CallStart]))
  {
    assert Shaped(a);
    hide FleetInv, MoveAll;
    StartAgain(y);
    CalledStart(a.calls[i]);
    InnerRun(a, i, [Start]);
    assert InnerAll(i, [Start]) == [Inner(On(i, Start))];
    MoveAllKeeps(a, [Inner(On(i, Start))]);
  }

  lemma AdvancedTwice(f: Fleet, i: nat, y: Inst, c: seq<Call>, z: Inst, d: seq<Call>)
    requires Shaped(f) && i < |f.owner|
    ensures Advanced(Advanced(f, i, y, c), i, z, d) == Advanced(f, i, z, d)
  {
    assert f.sys.insts[i := y][i := z] == f.sys.insts[i := z];
    assert f.calls[i := c][i := d] == f.calls[i := d];
  }

  lemma ReadyAfterStart(f: Fleet, m: map<string, Managed>, id: string, i: nat, y: Inst, t: Managed)
    requires Ready(f, m) && id in m && id in f.current && f.current[id] == i && i < |f.owner|
    requires FleetInv(Advanced(f, i, y, m[id].calls + [CallStop])) && y.phase == Halted && !y.timedOut
    requires t.calls == m[id].calls + [CallStop] + [CallStart]
    ensures Leads(Advanced(f, i, y, m[id].calls + [CallStop]), [Inner(On(i, Start))], m[id := t])
  {
    OwnerOf(f, id);
    hide FleetInv, AtRestWith, NoTimeouts, MoveAll, Leads;
    var a := Advanced(f, i, y, m[id].calls + [CallStop]);
    var z := y.(loops := y.loops + [NEW_LOOP], phase := Supervised);
    StartMoves(a, i, y);
    AdvancedTwice(f, i, y, m[id].calls + [CallStop], z, t.calls);
    forall k | k in f.current && k != id ensures f.current[k] != i { OthersElsewhere(f, id, k); }
    RestAdvanced(f, m, id, i, z, t);
    Arrives(a, [Inner(On(i, Start))], Advanced(f, i, z, t.calls), m[id := t]);
  }

  lemma OwnerOf(f: Fleet, id: string)
    requires FleetInv(f) && id in f.current
    ensures Shaped(f) && f.current[id] < |f.owner| && f.owner[f.current[id]] == id
  {
  }

  /** Restarting one. */
  lemma RestartStep(f: Fleet, m: map<string, Managed>, id: string, t: Managed) returns (steps: seq<FleetStep>)
    requires Ready(f, m) && id in m && PhaseAfter(m[id].calls) == Some(Supervised)
    requires t.calls == m[id].calls + [CallStop, CallStart]
    ensures Leads(f, steps, m[id := t])
  {
    var stop, y := StopOneOf(f, m, id);
    hide PhaseAfter, FleetInv, Ready, MoveAll;
    assert m[id].calls + [CallStop] + [CallStart] == t.calls;
    ReadyAfterStart(f, m, id, f.current[id], y, t);
    MoveConcat(f, stop, [Inner(On(f.current[id], Start))]);
    steps := stop + [Inner(On(f.current[id], Start))];
  }

  lemma RestCreated(f: Fleet, m: map<string, Managed>, id: string, t: Managed)
    requires AtRestWith(f, m) && NoTimeouts(f) && id !in f.current && t.calls == [CallStart]
    ensures Move(f, Create(id)).Some?
    ensures var b := Move(f, Create(id)).value; AtRestWith(b, m[id := t]) && NoTimeouts(b) && b.sys.root == f.sys.root
  {
  }

  /** Creating one. */
  lemma CreateStep(f: Fleet, m: map<string, Managed>, id: string, t: Managed)
    requires Ready(f, m) && id !in m && t.calls == [CallStart]
    ensures Leads(f, [Create(id)], m[id := t])
  {
    assert FleetInv(f) && id !in f.current && Shaped(f);
    hide FleetInv, AtRestWith, NoTimeouts, Move, MoveAll, Leads;
    RestCreated(f, m, id, t);
    var y := Move(f, Create(id)).value;
    CreateKeeps(f, id);
    OneMove(f, Create(id), y);
    Arrives(f, [Create(id)], y, m[id := t]);
  }

  lemma SameCalls(f: Fleet, m: map<string, Managed>, id: string, t: Managed)
    requires Ready(f, m) && id in m && t.calls == m[id].calls
    ensures Leads(f, [], m[id := t])
  {
    hide FleetInv;
    assert Shaped(f);
  }

  /** One pass of the second loop of Reconcile. */
  lemma UpdateStep(f: Fleet, m: map<string, Managed>, id: string, t: Target) returns (steps: seq<FleetStep>)
    requires Ready(f, m) && (id in m ==> PhaseAfter(m[id].calls) == Some(Supervised))
    ensures Leads(f, steps, m[id := Updated(m, id, t)])
  {
    hide Ready, PhaseAfter, Leads, Normalized;
    if id !in m {
      steps := [Create(id)];
      CreateStep(f, m, id, Updated(m, id, t));
    } else if NeedsRestart(m[id].target, t) {
      steps := RestartStep(f, m, id, Updated(m, id, t));
    } else {
      steps := [];
      SameCalls(f, m, id, Updated(m, id, t));
    }
  }

  lemma {:induction false} RemoveAll(f: Fleet, m: map<string, Managed>, gone: set<string>)
    returns (steps: seq<FleetStep>)
    requires Ready(f, m) && AllSupervised(m) && gone <= m.Keys
    ensures Leads(f, steps, m - gone)
    decreases |gone|
  {
    if gone == {} {
      steps := [];
      assert m - gone == m;
      ReadyLeads(f, m);
    } else {
      var id :| id in gone;
      steps := RemoveOneFirst(f, m, gone, id);
    }
  }

  lemma {:induction false} RemoveOneFirst(f: Fleet, m: map<string, Managed>, gone: set<string>, id: string)
    returns (steps: seq<FleetStep>)
    requires Ready(f, m) && AllSupervised(m) && gone <= m.Keys && id in gone
    ensures Leads(f, steps, m - gone)
    decreases |gone|, 0
  {
    IsSupervised(m, id);
    FewerSupervised(m, id);
    RemovedBoth(m, gone, id);
    hide Ready, PhaseAfter, MoveAll, AllSupervised;
    var a := RemoveStep(f, m, id);
    var f', n := MoveAll(f, a).value, m - {id};
    var b := RemoveAll(f', n, gone - {id});
    LeadsOn(f, a, n, b, m - gone);
    steps := a + b;
  }

  lemma RemovedBoth(m: map<string, Managed>, gone: set<string>, id: string)
    requires gone <= m.Keys && id in gone
    ensures m - {id} - (gone - {id}) == m - gone && gone - {id} <= (m - {id}).Keys
    ensures |gone - {id}| < |gone|
  {
  }

  lemma FewerSupervised(m: map<string, Managed>, id: string)
    requires AllSupervised(m)
    ensures AllSupervised(m - {id})
  {
  }

  lemma ReadyLeads(f: Fleet, m: map<string, Managed>)
    requires Ready(f, m)
    ensures Leads(f, [], m)
  {
  }

  lemma {:induction false} UpdateAll(f: Fleet, was: map<string, Managed>, wanted: map<string, Target>,
                                     todo: set<string>)
    returns (steps: seq<FleetStep>)
    requires AllSupervised(was) && todo <= wanted.Keys && Ready(f, Grown(was, wanted, todo))
    ensures Leads(f, steps, Grown(was, wanted, {}))
    decreases |todo|
  {
    if todo == {} {
      steps := [];
      ReadyLeads(f, Grown(was, wanted, todo));
    } else {
      var id :| id in todo;
      GrowStep(was, wanted, todo, id);
      if id in was { IsSupervised(was, id); }
      hide Ready, AllSupervised, PhaseAfter, MoveAll, Grown, Updated;
      var m := Grown(was, wanted, todo);
      UpdatedSame(m, was, id, wanted[id]);
      var a := UpdateStep(f, m, id, wanted[id]);
      var b := UpdateAll(MoveAll(f, a).value, was, wanted, todo - {id});
      LeadsOn(f, a, Grown(was, wanted, todo - {id}), b, Grown(was, wanted, {}));
      steps := a + b;
    }
  }

  /** Reconcile, done to the fleet. */
  lemma ReconcileFleet(f: Fleet, was: map<string, Managed>, desired: seq<Target>) returns (steps: seq<FleetStep>)
    requires Ready(f, was) && AllSupervised(was)
    ensures Leads(f, steps, Reconciled(was, desired))
  {
    hide Ready, PhaseAfter, MoveAll, DesiredMap, Reconciled, Grown, Updated;
    var wanted := DesiredMap(desired);
    var kept := Kept(was, wanted);
    KeptPruned(was, wanted);
    var a := RemoveAll(f, was, was.Keys - wanted.Keys);
    assert was - (was.Keys - wanted.Keys) == kept;
    GrowNothing(kept, wanted);
    var b := UpdateAll(MoveAll(f, a).value, kept, wanted, wanted.Keys);
    ReconcileParts(was, desired);
    LeadsOn(f, a, kept, b, Grown(kept, wanted, {}));
    steps := a + b;
  }

  lemma {:induction false} FollowPipeline(f: Fleet, x: Discovery.Pipe, pipeline: seq<Discovery.Step>, cap: nat)
    returns (steps: seq<FleetStep>)
    requires Ready(f, x.managed) && AllSupervised(x.managed) && Discovery.Run(x, pipeline, cap).Some?
    ensures Leads(f, steps, Discovery.Run(x, pipeline, cap).value.managed)
    decreases |pipeline|
  {
    if pipeline == [] {
      steps := [];
      ReadyLeads(f, x.managed);
    } else {
      var y := Discovery.Apply(x, pipeline[0], cap).value;
      PipelineStepSupervises(x, pipeline[0], cap);
      var a := FollowStep(f, x, pipeline[0], cap);
      hide Ready, AllSupervised, Discovery.Apply, MoveAll;
      var b := FollowPipeline(MoveAll(f, a).value, y, pipeline[1..], cap);
      LeadsOn(f, a, y.managed, b, Discovery.Run(x, pipeline, cap).value.managed);
      steps := a + b;
    }
  }

  lemma FollowStep(f: Fleet, x: Discovery.Pipe, t: Discovery.Step, cap: nat) returns (steps: seq<FleetStep>)
    requires Ready(f, x.managed) && AllSupervised(x.managed) && Discovery.Apply(x, t, cap).Some?
    ensures Leads(f, steps, Discovery.Apply(x, t, cap).value.managed)
  {
    hide AllSupervised, Reconciled, Leads, Ready, Labels.EnrichedAll, Labels.WriteBack;
    hide Discovery.IsSnapshot, Discovery.Fresh, Discovery.WithCells;
    if t.Deliver? {
      steps := ReconcileFleet(f, x.managed, Labels.EnrichedAll(x.inHand.value, x.store, t.resolve));
    } else {
      steps := [];
      ReadyLeads(f, x.managed);
    }
  }

  /** Every run of the pipeline has a run of the fleet that is at rest with what the
      pipeline has delivered, before Shutdown, and in which no Stop has timed out. */
  lemma EveryPipelineHasAFleet(pipeline: seq<Discovery.Step>, cap: nat) returns (steps: seq<FleetStep>)
    requires Discovery.Run(Discovery.INIT_PIPE, pipeline, cap).Some?
    ensures MoveAll(NO_FLEET, steps).Some?
    ensures var f := MoveAll(NO_FLEET, steps).value;
      AtRestWith(f, Discovery.Run(Discovery.INIT_PIPE, pipeline, cap).value.managed) && !f.sys.root && NoTimeouts(f)
  {
    StartsReady();
    hide Discovery.Run, MoveAll;
    steps := FollowPipeline(NO_FLEET, Discovery.INIT_PIPE, pipeline, cap);
  }

  lemma StartsReady()
    ensures Ready(NO_FLEET, map[]) && AllSupervised(map[])
  {
    StartsWell();
  }
}
