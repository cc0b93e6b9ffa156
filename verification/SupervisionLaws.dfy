/** When the two claims that fail of the supervision protocol do hold: that `stopped`
    is final, and that an instance has one child at most. */
module SupervisionLaws {
  import opened Text
  import opened Supervision

  // ---- Runs seen from one instance ------------------------------------------------

  predicate IsStart(a: InstAct) { a.Start? }

  predicate IsProbe(a: InstAct) { a.Probe? }

  predicate IsTimeout(a: InstAct) { a.StopTimeout? }

  /** No step of the run is this one, whatever its details. */
  predicate Avoids(steps: seq<Step>, i: nat, bad: InstAct -> bool) {
    forall k :: 0 <= k < |steps| && steps[k].On? && steps[k].inst == i ==> !bad(steps[k].act)
  }

  lemma OneStep(s: Sys, t: Step, i: nat)
    requires i < |s.insts| && Apply(s, t).Some?
    ensures var s' := Apply(s, t).value;
      && i < |s'.insts| && (s.root ==> s'.root)
      && if t.On? && t.inst == i then InstStep(s.insts[i], t.act, s.root) == Some(s'.insts[i])
         else s'.insts[i] == s.insts[i]
  {
    hide InstStep;
  }

  // ---- When `stopped` is final --------------------------------------------------------

  /** Halted, and every run loop has ended. */
  predicate AtRest(x: Inst) {
    x.phase == Halted && forall g :: 0 <= g < |x.loops| ==> LoopInv(x.loops[g]) && x.loops[g].pc == Done
  }

  /** Only a health probe or a new Start touches an instance at rest. */
  lemma AtRestStep(x: Inst, a: InstAct, root: bool)
    requires AtRest(x) && InstStep(x, a, root).Some? && !a.Start?
    ensures a.Probe? && InstStep(x, a, root).value == x.(state := if a.healthy then Running else Unhealthy)
  {
    if a.At? {
      DoneIsFinal(x.loops[a.gen], a.act, x.loops[a.gen].cancelled || root);
    }
  }

  /** An instance at rest that is not started again stays `stopped` exactly as long as
      no health probe of it completes. */
  lemma {:induction false} StoppedStaysExactlyWhen(s: Sys, steps: seq<Step>, i: nat)
    requires i < |s.insts| && AtRest(s.insts[i]) && Run(s, steps).Some?
    requires Avoids(steps, i, IsStart)
    ensures i < |Run(s, steps).value.insts|
    ensures var y := Run(s, steps).value.insts[i];
      && AtRest(y)
      && (y.state == Stopped <==> s.insts[i].state == Stopped && Avoids(steps, i, IsProbe))
    decreases |steps|
  {
    if steps != [] {
      var s' := Apply(s, steps[0]).value;
      OneStep(s, steps[0], i);
      if steps[0].On? && steps[0].inst == i {
        assert !steps[0].act.Start?;
        AtRestStep(s.insts[i], steps[0].act, s.root);
      }
      hide InstStep, Apply;
      assert Avoids(steps[1..], i, IsStart);
      StoppedStaysExactlyWhen(s', steps[1..], i);
      AvoidsCons(steps, i, IsProbe);
    }
  }

  lemma AvoidsCons(steps: seq<Step>, i: nat, bad: InstAct -> bool)
    requires steps != []
    ensures Avoids(steps, i, bad) <==>
      !(steps[0].On? && steps[0].inst == i && bad(steps[0].act)) && Avoids(steps[1..], i, bad)
  {
    if Avoids(steps[1..], i, bad) {
      forall k | 1 <= k < |steps| && steps[k].On? && steps[k].inst == i ensures !bad(steps[k].act) {
        assert steps[k] == steps[1..][k - 1];
      }
    }
  }

  /** In particular after any run that stopped the instance without a timeout. */
  lemma StoppedStaysAfter(before: seq<Step>, after: seq<Step>, i: nat)
    requires Run(INIT_SYS, before).Some? && i < |Run(INIT_SYS, before).value.insts|
    requires var x := Run(INIT_SYS, before).value.insts[i]; x.phase == Halted && !x.timedOut
    requires Run(Run(INIT_SYS, before).value, after).Some? && Avoids(after, i, IsStart)
    ensures i < |Run(Run(INIT_SYS, before).value, after).value.insts|
    ensures Run(Run(INIT_SYS, before).value, after).value.insts[i].state == Stopped
       <==> Run(INIT_SYS, before).value.insts[i].state == Stopped && Avoids(after, i, IsProbe)
  {
    RunKeeps(INIT_SYS, before);
    hide Run, Apply;
    StoppedStaysExactlyWhen(Run(INIT_SYS, before).value, after, i);
  }

  // ---- Stopped, but not yet at rest ------------------------------------------------------

  /** The loop, though cancelled, is about to write another state than `stopped`. */
  predicate WillWrite(l: Loop) { l.pc in {Marking, Exec, Spawned, Counting, Noting} }

  predicate AnyWillWrite(x: Inst) {
    exists g ::
      0 <= g < |x.loops| && WillWrite(x.loops[g])
  }

  /** Halted, and nothing writes the state but to `stopped`. */
  predicate Settled(x: Inst) {
    && x.phase == Halted && x.state == Stopped
    && forall g :: 0 <= g < |x.loops| ==> x.loops[g].cancelled && !WillWrite(x.loops[g])
  }

  lemma SettledLoopStep(x: Inst, l: Loop, a: LoopAct)
    requires !WillWrite(l) && x.state == Stopped && LoopStep(l, a, true).Some?
    ensures var (m, e) := LoopStep(l, a, true).value;
      !WillWrite(m) && m.cancelled == l.cancelled && Write(x, e).state == Stopped
  {
  }

  lemma SettledStep(x: Inst, a: InstAct, root: bool)
    requires Settled(x) && InstStep(x, a, root).Some? && !a.Start? && !a.Probe?
    ensures Settled(InstStep(x, a, root).value)
  {
    hide LoopStep, Write;
    if a.At? {
      var (m, e) := LoopStep(x.loops[a.gen], a.act, true).value;
      SettledLoopStep(x, x.loops[a.gen], a.act);
      WriteState(x, x.loops[a.gen := m], e);
    }
  }

  lemma WriteState(x: Inst, loops: seq<Loop>, e: Effect)
    ensures var y := Write(x.(loops := loops), e);
      y.loops == loops && y.phase == x.phase && y.state == Write(x, e).state
  {
  }

  predicate IsStartOrProbe(a: InstAct) { a.Start? || a.Probe? }

  lemma {:induction false} SettledRun(s: Sys, steps: seq<Step>, i: nat)
    requires i < |s.insts| && Settled(s.insts[i]) && Run(s, steps).Some? && Avoids(steps, i, IsStartOrProbe)
    ensures i < |Run(s, steps).value.insts| && Settled(Run(s, steps).value.insts[i])
    decreases |steps|
  {
    if steps != [] {
      OneStep(s, steps[0], i);
      hide Apply, Settled;
      if steps[0].On? && steps[0].inst == i {
        assert !IsStartOrProbe(steps[0].act);
        SettledStep(s.insts[i], steps[0].act, s.root);
      }
      assert Avoids(steps[1..], i, IsStartOrProbe);
      SettledRun(Apply(s, steps[0]).value, steps[1..], i);
    }
  }

  /** A run without Start or health probe of the instance that ends with another state. */
  ghost predicate Revives(s: Sys, i: nat, steps: seq<Step>) {
    && Avoids(steps, i, IsStartOrProbe) && Run(s, steps).Some?
    && i < |Run(s, steps).value.insts| && Run(s, steps).value.insts[i].state != Stopped
  }

  /** The steps of a loop that lead to its write. */
  function ToWrite(g: nat, l: Loop): seq<InstAct> {
    match l.pc
    case Exec => [At(g, SpawnOk(1)), At(g, Go)]
    case Counting => [At(g, Go), At(g, Go)]
    case _ => [At(g, Go)]
  }

  lemma ToWriteWrites(x: Inst, g: nat, root: bool)
    requires g < |x.loops| && WillWrite(x.loops[g])
    ensures var r := InstRun(x, ToWrite(g, x.loops[g]), root); r.Some? && r.value.state != Stopped
  {
    var acts := ToWrite(g, x.loops[g]);
    var y := InstStep(x, acts[0], root).value;
    if |acts| == 2 {
      var z := InstStep(y, acts[1], root).value;
      assert acts[1..] == [acts[1]] && acts[1..][1..] == [];
      assert InstRun(z, acts[1..][1..], root) == Some(z);
    } else {
      assert acts[1..] == [];
      assert InstRun(y, acts[1..], root) == Some(y);
    }
  }

  lemma LoopRevives(s: Sys, i: nat, g: nat)
    requires i < |s.insts| && g < |s.insts[i].loops| && WillWrite(s.insts[i].loops[g])
    ensures Revives(s, i, OnAll(i, ToWrite(g, s.insts[i].loops[g])))
  {
    hide InstStep;
    ToWriteWrites(s.insts[i], g, s.root);
    InstRunIsRun(s, i, ToWrite(g, s.insts[i].loops[g]));
  }

  /** At a halted instance that is `stopped`, in any reachable state and whatever Stops
      have timed out: without a Start or a health probe it can come to another state
      exactly if one of its loops is about to write one. */
  lemma RevivesExactlyWhen(before: seq<Step>, i: nat)
    requires Run(INIT_SYS, before).Some?
    requires var s := Run(INIT_SYS, before).value;
      i < |s.insts| && s.insts[i].phase == Halted && s.insts[i].state == Stopped
    ensures var s := Run(INIT_SYS, before).value;
      (exists steps :: Revives(s, i, steps)) <==> AnyWillWrite(s.insts[i])
  {
    RunKeeps(INIT_SYS, before);
    var s := Run(INIT_SYS, before).value;
    var x := s.insts[i];
    assert forall g :: 0 <= g < |x.loops| ==> x.loops[g].cancelled;
    hide Run, InstInv, CleanInv, WillWrite;
    if AnyWillWrite(x) {
      var g :| 0 <= g < |x.loops| && WillWrite(x.loops[g]);
      LoopRevives(s, i, g);
    } else {
      assert Settled(x);
      forall steps ensures !Revives(s, i, steps) {
        if Revives(s, i, steps) { SettledRun(s, steps, i); }
      }
    }
  }

  // ---- When two children can be alive --------------------------------------------------

  /** The loop has a child, or may still start one although its context is done. */
  predicate MayHaveChild(l: Loop) { l.child || l.pc == Marking || l.pc == Exec }

  predicate AnyMayHaveChild(x: Inst) {
    exists g ::
      0 <= g < |x.loops| && MayHaveChild(x.loops[g])
  }

  predicate TwoChildren(x: Inst) {
    exists g, h ::
      0 <= g < h < |x.loops| && x.loops[g].child && x.loops[h].child
  }

  /** No loop but the current one can have a child, nor that one once it was stopped. */
  predicate Calm(x: Inst) {
    && (forall g :: 0 <= g < |x.loops| - 1 ==> !MayHaveChild(x.loops[g]))
    && (x.phase in {Returning, Halted} && x.loops != [] ==> !MayHaveChild(x.loops[|x.loops| - 1]))
  }

  lemma CalmLoopStep(l: Loop, a: LoopAct)
    requires LoopInv(l) && !MayHaveChild(l) && LoopStep(l, a, true).Some?
    ensures !MayHaveChild(LoopStep(l, a, true).value.0)
  {
  }

  lemma CalmStep(x: Inst, a: InstAct, root: bool)
    requires InstInv(x) && Calm(x) && InstStep(x, a, root).Some? && !a.StopTimeout?
    ensures Calm(InstStep(x, a, root).value)
  {
    hide LoopStep;
    if a.At? {
      if x.loops[a.gen].cancelled && !MayHaveChild(x.loops[a.gen]) {
        CalmLoopStep(x.loops[a.gen], a.act);
      }
    }
  }

  lemma InvStep(x: Inst, a: InstAct, root: bool)
    requires InstInv(x) && InstStep(x, a, root).Some?
    ensures InstInv(InstStep(x, a, root).value)
  {
    hide LoopStep;
    if a.At? { AtKeepsInv(x, a.gen, a.act, root); }
  }

  lemma {:induction false} CalmRun(s: Sys, steps: seq<Step>, i: nat)
    requires i < |s.insts| && InstInv(s.insts[i]) && Calm(s.insts[i]) && Run(s, steps).Some?
    requires Avoids(steps, i, IsTimeout)
    ensures i < |Run(s, steps).value.insts| && Calm(Run(s, steps).value.insts[i])
    decreases |steps|
  {
    if steps != [] {
      OneStep(s, steps[0], i);
      hide Apply, Calm, InstInv;
      if steps[0].On? && steps[0].inst == i {
        assert !steps[0].act.StopTimeout?;
        InvStep(s.insts[i], steps[0].act, s.root);
        CalmStep(s.insts[i], steps[0].act, s.root);
      }
      assert Avoids(steps[1..], i, IsTimeout);
      CalmRun(Apply(s, steps[0]).value, steps[1..], i);
    }
  }

  // The other direction: a loop that may have a child, and the newly started one.

  function InstRun(x: Inst, acts: seq<InstAct>, root: bool): Option<Inst>
    decreases |acts|
  {
    if acts == [] then Some(x)
    else
      match InstStep(x, acts[0], root)
      case None => None
      case Some(y) => InstRun(y, acts[1..], root)
  }

  function OnAll(i: nat, acts: seq<InstAct>): (steps: seq<Step>)
    ensures |steps| == |acts| && forall k :: 0 <= k < |acts| ==> steps[k] == On(i, acts[k])
  {
    seq(|acts|, k requires 0 <= k < |acts| => On(i, acts[k]))
  }

  /** Steps of one instance are steps of the system. */
  lemma {:induction false} InstRunIsRun(s: Sys, i: nat, acts: seq<InstAct>)
    requires i < |s.insts| && InstRun(s.insts[i], acts, s.root).Some?
    ensures Run(s, OnAll(i, acts)) == Some(s.(insts := s.insts[i := InstRun(s.insts[i], acts, s.root).value]))
    decreases |acts|
  {
    hide InstStep;
    if acts == [] {
      assert s.insts[i := s.insts[i]] == s.insts;
    } else {
      var y := InstStep(s.insts[i], acts[0], s.root).value;
      var s' := s.(insts := s.insts[i := y]);
      assert OnAll(i, acts)[1..] == OnAll(i, acts[1..]);
      InstRunIsRun(s', i, acts[1..]);
      var z := InstRun(y, acts[1..], s.root).value;
      assert s'.insts[i := z] == s.insts[i := z];
    }
  }

  lemma {:induction false} InstRunAppend(x: Inst, a: seq<InstAct>, b: seq<InstAct>, root: bool)
    requires InstRun(x, a, root).Some?
    ensures InstRun(x, a + b, root) == InstRun(InstRun(x, a, root).value, b, root)
    decreases |a|
  {
    hide InstStep;
    if a == [] {
      assert a + b == b;
    } else {
      assert (a + b)[1..] == a[1..] + b;
      InstRunAppend(InstStep(x, a[0], root).value, a[1..], b, root);
    }
  }

  /** A loop on its way to a child is taken there. */
  lemma ReachChild(x: Inst, g: nat, pid: nat, root: bool) returns (acts: seq<InstAct>)
    requires g < |x.loops| && MayHaveChild(x.loops[g]) && pid > 0
    ensures InstRun(x, acts, root).Some?
    ensures var y := InstRun(x, acts, root).value;
      && |y.loops| == |x.loops| && y.loops[g].child
      && (!x.loops[g].child ==> y.loops[g].childPid == pid)
      && (x.loops[g].child ==> y == x)
      && forall h :: 0 <= h < |x.loops| && h != g ==> y.loops[h] == x.loops[h]
    ensures forall k :: 0 <= k < |acts| ==> acts[k].At?
  {
    acts := [];
    if !x.loops[g].child {
      var y := x;
      if x.loops[g].pc == Marking {
        acts := [At(g, Go)];
        y := InstStep(x, At(g, Go), root).value;
        assert InstRun(y, acts[1..], root) == Some(y);
      }
      var more := [At(g, SpawnOk(pid))];
      var z := InstStep(y, At(g, SpawnOk(pid)), root).value;
      assert InstRun(z, more[1..], root) == Some(z);
      InstRunAppend(x, acts, more, root);
      acts := acts + more;
    }
  }

  /** A newly started loop whose context is not done is taken to a child. */
  lemma ReachNewChild(x: Inst, pid: nat) returns (acts: seq<InstAct>)
    requires pid > 0 && x.loops != [] && x.loops[|x.loops| - 1] == NEW_LOOP
    ensures InstRun(x, acts, false).Some?
    ensures var y := InstRun(x, acts, false).value; var last := |x.loops| - 1;
      && |y.loops| == |x.loops| && y.loops[last].child && y.loops[last].childPid == pid
      && forall h :: 0 <= h < last ==> y.loops[h] == x.loops[h]
    ensures forall k :: 0 <= k < |acts| ==> acts[k].At?
  {
    var last := |x.loops| - 1;
    var y := InstStep(x, At(last, Go), false).value;
    var first := [At(last, Go)];
    assert InstRun(y, first[1..], false) == Some(y);
    var rest := ReachChild(y, last, pid, false);
    InstRunAppend(x, first, rest, false);
    acts := first + rest;
  }

  /** Two children with different process IDs. */
  predicate TwoProcesses(x: Inst) {
    exists g, h ::
      0 <= g < h < |x.loops| && x.loops[g].child && x.loops[h].child && x.loops[g].childPid != x.loops[h].childPid
  }

  /** A run that begins with a Start of the instance, during which no Stop of it times
      out, and that ends with two children alive, each with a process ID of its own. */
  ghost predicate Overlaps(s: Sys, i: nat, steps: seq<Step>) {
    && steps != [] && steps[0] == On(i, Start) && Avoids(steps, i, IsTimeout)
    && Run(s, steps).Some? && i < |Run(s, steps).value.insts| && TwoProcesses(Run(s, steps).value.insts[i])
  }

  lemma StartOverlaps(s: Sys, i: nat, g: nat) returns (steps: seq<Step>)
    requires !s.root && i < |s.insts| && s.insts[i].phase == Halted
    requires g < |s.insts[i].loops| && MayHaveChild(s.insts[i].loops[g])
    ensures Overlaps(s, i, steps)
  {
    hide LoopStep;
    var x := s.insts[i];
    var x1 := InstStep(x, Start, false).value;
    var start := [Start];
    assert InstRun(x1, start[1..], false) == Some(x1);
    var older := ReachChild(x1, g, 1, false);
    var x2 := InstRun(x1, older, false).value;
    var newer := ReachNewChild(x2, x2.loops[g].childPid + 1);
    InstRunAppend(x1, older, newer, false);
    InstRunAppend(x, start, older + newer, false);
    hide InstRun, InstStep;
    var acts := start + (older + newer);
    InstRunIsRun(s, i, acts);
    steps := OnAll(i, acts);
    var y := InstRun(x, acts, false).value;
    assert y.loops[g].child && y.loops[|x.loops|].child;
  }

  lemma StartKeepsOne(s: Sys, i: nat, steps: seq<Step>)
    requires i < |s.insts| && InstInv(s.insts[i]) && s.insts[i].phase == Halted && !AnyMayHaveChild(s.insts[i])
    ensures !Overlaps(s, i, steps)
  {
    if Overlaps(s, i, steps) {
      CalmRun(s, steps, i);
    }
  }

  /** At a halted instance, in any reachable state before Shutdown and whatever Stops
      have timed out: a new Start can lead to two children, without a further timeout,
      exactly if one of the older loops has a child or may still start one. */
  lemma OverlapExactlyWhen(before: seq<Step>, i: nat)
    requires Run(INIT_SYS, before).Some?
    requires var s := Run(INIT_SYS, before).value; !s.root && i < |s.insts| && s.insts[i].phase == Halted
    ensures var s := Run(INIT_SYS, before).value;
      (exists steps :: Overlaps(s, i, steps)) <==> AnyMayHaveChild(s.insts[i])
  {
    RunKeeps(INIT_SYS, before);
    var s := Run(INIT_SYS, before).value;
    hide Run, Overlaps, InstInv, CleanInv, MayHaveChild;
    if AnyMayHaveChild(s.insts[i]) {
      var g :| 0 <= g < |s.insts[i].loops| && MayHaveChild(s.insts[i].loops[g]);
      var steps := StartOverlaps(s, i, g);
    } else {
      forall steps ensures !Overlaps(s, i, steps) { StartKeepsOne(s, i, steps); }
    }
  }

  // ---- The pid after a timeout -----------------------------------------------------------

  /** The loop will not write the pid field again, unless it is the current one. */
  predicate Past(l: Loop) { l.pc !in {Marking, Exec, Spawned, Live, Reaped} }

  /** Every older loop is past its child, and the pid is that of the current one. */
  predicate PidCalm(x: Inst) {
    && (forall g :: 0 <= g < |x.loops| - 1 ==> Past(x.loops[g]))
    && (x.phase in {Returning, Halted} && x.loops != [] ==> Past(x.loops[|x.loops| - 1]))
    && (x.loops == [] ==> x.pid == 0)
    && (x.loops != [] ==> PidMatches(x.loops[|x.loops| - 1], x.pid))
  }

  lemma PastLoopStep(x: Inst, l: Loop, a: LoopAct)
    requires LoopInv(l) && Past(l) && LoopStep(l, a, true).Some?
    ensures Past(LoopStep(l, a, true).value.0)
    ensures Write(x, LoopStep(l, a, true).value.1).pid == x.pid
  {
  }

  lemma PidCalmStep(x: Inst, a: InstAct, root: bool)
    requires InstInv(x) && PidCalm(x) && InstStep(x, a, root).Some? && !a.StopTimeout?
    ensures PidCalm(InstStep(x, a, root).value)
  {
    hide LoopStep;
    if a.At? {
      var l := x.loops[a.gen];
      if l.cancelled && Past(l) { PastLoopStep(x, l, a.act); }
      if a.gen == |x.loops| - 1 { PidFollows(x, l, a.act, l.cancelled || root); }
      LoopStepKeeps(l, a.act, l.cancelled || root);
      WriteKeeps(x, x.loops[a.gen := LoopStep(l, a.act, l.cancelled || root).value.0],
                 LoopStep(l, a.act, l.cancelled || root).value.1);
      hide Write, Past, PidMatches;
    }
  }

  lemma WriteKeeps(x: Inst, loops: seq<Loop>, e: Effect)
    ensures var y := Write(x.(loops := loops), e);
      y.loops == loops && y.phase == x.phase && y.pid == Write(x, e).pid
  {
  }

  lemma {:induction false} PidCalmRun(s: Sys, steps: seq<Step>, i: nat)
    requires i < |s.insts| && InstInv(s.insts[i]) && PidCalm(s.insts[i]) && Run(s, steps).Some?
    requires Avoids(steps, i, IsTimeout)
    ensures i < |Run(s, steps).value.insts|
    ensures var y := Run(s, steps).value.insts[i]; InstInv(y) && PidCalm(y)
    decreases |steps|
  {
    if steps != [] {
      OneStep(s, steps[0], i);
      hide Apply, PidCalm, InstInv;
      if steps[0].On? && steps[0].inst == i {
        assert !steps[0].act.StopTimeout?;
        InvStep(s.insts[i], steps[0].act, s.root);
        PidCalmStep(s.insts[i], steps[0].act, s.root);
      }
      assert Avoids(steps[1..], i, IsTimeout);
      PidCalmRun(Apply(s, steps[0]).value, steps[1..], i);
    }
  }

  /** The pid field is that of some loop that waits for its child or has just done so. */
  ghost predicate PidOwned(x: Inst) {
    x.pid != 0 ==> exists g :: 0 <= g < |x.loops| && x.loops[g].pc in {Live, Reaped}
  }

  /** A loop that waits keeps waiting, or clears the pid; recording one is waiting. */
  lemma OwnedLoopStep(x: Inst, l: Loop, a: LoopAct, done: bool)
    requires LoopStep(l, a, done).Some?
    ensures var (l', e) := LoopStep(l, a, done).value; var pid := Write(x, e).pid;
      && (pid != 0 && pid != x.pid ==> l'.pc in {Live, Reaped})
      && (l.pc in {Live, Reaped} && pid != 0 ==> l'.pc in {Live, Reaped})
  {
  }

  lemma OwnedStep(x: Inst, a: InstAct, root: bool)
    requires PidOwned(x) && InstStep(x, a, root).Some?
    ensures PidOwned(InstStep(x, a, root).value)
  {
    hide LoopStep, Write;
    var y := InstStep(x, a, root).value;
    if a.At? {
      var l, done := x.loops[a.gen], x.loops[a.gen].cancelled || root;
      var (l', e) := LoopStep(l, a.act, done).value;
      OwnedLoopStep(x, l, a.act, done);
      WriteKeeps(x, x.loops[a.gen := l'], e);
      if y.pid != 0 {
        if l'.pc in {Live, Reaped} {
          assert y.loops[a.gen].pc in {Live, Reaped};
        } else {
          var g :| 0 <= g < |x.loops| && x.loops[g].pc in {Live, Reaped};
          assert y.loops[g].pc in {Live, Reaped};
        }
      }
    } else if x.pid != 0 {
      var g :| 0 <= g < |x.loops| && x.loops[g].pc in {Live, Reaped};
      OthersKeepLoop(x, a, root, g);
      OtherPid(x, a, root);
    }
  }

  lemma OtherPid(x: Inst, a: InstAct, root: bool)
    requires !a.At? && InstStep(x, a, root).Some?
    ensures InstStep(x, a, root).value.pid == x.pid
  {
  }

  lemma {:induction false} OwnedRun(s: Sys, steps: seq<Step>)
    requires (forall i :: 0 <= i < |s.insts| ==> PidOwned(s.insts[i])) && Run(s, steps).Some?
    ensures forall i :: 0 <= i < |Run(s, steps).value.insts| ==> PidOwned(Run(s, steps).value.insts[i])
    decreases |steps|
  {
    hide InstStep, PidOwned;
    if steps != [] {
      var s' := Apply(s, steps[0]).value;
      if steps[0].On? {
        OwnedStep(s.insts[steps[0].inst], steps[0].act, s.root);
      } else {
        FreshOwned();
      }
      OwnedRun(s', steps[1..]);
    }
  }

  lemma FreshOwned()
    ensures PidOwned(NEW_INST)
  {
  }

  lemma PastOwned(x: Inst)
    requires InstInv(x) && PidOwned(x) && x.phase == Halted && forall g :: 0 <= g < |x.loops| ==> Past(x.loops[g])
    ensures PidCalm(x)
  {
  }

  /** Whatever Stops have timed out before: once every run loop of a halted instance
      is past its child -- in particular, has ended -- the guarantees without
      timeouts hold again, until another Stop times out: at most one child, and a pid
      that is nonzero exactly while the child of that ID is being waited for. */
  lemma OneChildAgain(before: seq<Step>, after: seq<Step>, i: nat)
    requires Run(INIT_SYS, before).Some? && i < |Run(INIT_SYS, before).value.insts|
    requires var x := Run(INIT_SYS, before).value.insts[i];
      x.phase == Halted && forall g :: 0 <= g < |x.loops| ==> Past(x.loops[g])
    requires Run(Run(INIT_SYS, before).value, after).Some? && Avoids(after, i, IsTimeout)
    ensures i < |Run(Run(INIT_SYS, before).value, after).value.insts|
    ensures var y := Run(Run(INIT_SYS, before).value, after).value.insts[i];
      && !TwoChildren(y)
      && (y.pid != 0 <==> exists g :: 0 <= g < |y.loops| && y.loops[g].pc in {Live, Reaped})
      && (forall g :: 0 <= g < |y.loops| && y.loops[g].pc in {Live, Reaped} ==> y.pid == y.loops[g].childPid)
  {
    var s := Run(INIT_SYS, before).value;
    RunKeeps(INIT_SYS, before);
    OwnedRun(INIT_SYS, before);
    hide Run;
    PastOwned(s.insts[i]);
    PidCalmRun(s, after, i);
    PidCalmMeans(Run(s, after).value.insts[i]);
  }

  lemma PidCalmMeans(y: Inst)
    requires InstInv(y) && PidCalm(y)
    ensures !TwoChildren(y)
    ensures y.pid != 0 <==> exists g :: 0 <= g < |y.loops| && y.loops[g].pc in {Live, Reaped}
    ensures forall g :: 0 <= g < |y.loops| && y.loops[g].pc in {Live, Reaped} ==> y.pid == y.loops[g].childPid
  {
    if g :| 0 <= g < |y.loops| && y.loops[g].pc in {Live, Reaped} {
      assert g == |y.loops| - 1;
    }
  }
}
