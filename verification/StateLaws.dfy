/** What an instance reports of itself: its state is what was written last, whoever wrote
    it, and its restart count is what its loops have counted. */
module StateLaws {
  import opened Text
  import opened Supervision
  import opened SupervisionLaws

  // ---- Who writes the state ----------------------------------------------------------

  /** Run loops write what they are about to do, a health probe what it has found, and
      Stop `stopped`, however its wait has ended. */
  function Writes(x: Inst, a: InstAct): Option<State> {
    match a
    case StopReturn => Some(Stopped)
    case Probe(healthy) => Some(if healthy then Running else Unhealthy)
    case At(g, Go) => if g < |x.loops| then LoopWrites(x.loops[g].pc) else None
    case _ => None
  }

  function LoopWrites(pc: PC): Option<State> {
    match pc
    case Marking => Some(Starting)
    case Spawned => Some(Running)
    case Noting => Some(Restarting)
    case Finishing => Some(Stopped)
    case _ => None
  }

  /** What step k of a run writes into the state of instance i. */
  function WrittenAt(steps: seq<Step>, i: nat, k: nat): Option<State>
    requires k < |steps|
  {
    var s := Run(INIT_SYS, steps[..k]);
    if s.Some? && i < |s.value.insts| && steps[k].On? && steps[k].inst == i
    then Writes(s.value.insts[i], steps[k].act)
    else None
  }

  ghost predicate Unwritten(steps: seq<Step>, i: nat, from: nat) {
    forall k :: from <= k < |steps| ==> WrittenAt(steps, i, k).None?
  }

  /** Some step of the run has written this state, and none after it any state; a new
      instance is `starting`. */
  ghost predicate LastWritten(steps: seq<Step>, i: nat, to: State) {
    || (to == Starting && Unwritten(steps, i, 0))
    || exists k :: 0 <= k < |steps| && WrittenAt(steps, i, k) == Some(to) && Unwritten(steps, i, k + 1)
  }

  lemma InstWrites(x: Inst, a: InstAct, root: bool)
    requires InstStep(x, a, root).Some?
    ensures InstStep(x, a, root).value.state == match Writes(x, a) case Some(to) => to case None => x.state
  {
  }

  lemma WrittenBefore(init: seq<Step>, t: Step, i: nat, k: nat)
    requires k < |init|
    ensures WrittenAt(init + [t], i, k) == WrittenAt(init, i, k)
  {
    assert (init + [t])[..k] == init[..k];
  }

  lemma WrittenLast(init: seq<Step>, t: Step, i: nat)
    requires Run(INIT_SYS, init).Some?
    ensures var s := Run(INIT_SYS, init).value;
      WrittenAt(init + [t], i, |init|)
      == if i < |s.insts| && t.On? && t.inst == i then Writes(s.insts[i], t.act) else None
  {
    assert (init + [t])[..|init|] == init;
  }

  lemma LastWrittenStep(init: seq<Step>, t: Step, i: nat, was: State)
    requires LastWritten(init, i, was)
    ensures LastWritten(init + [t], i,
                        match WrittenAt(init + [t], i, |init|) case Some(to) => to case None => was)
  {
    hide WrittenAt;
    var steps := init + [t];
    forall k: nat | k < |init| ensures WrittenAt(steps, i, k) == WrittenAt(init, i, k) { WrittenBefore(init, t, i, k); }
    match WrittenAt(steps, i, |init|)
    case Some(to) =>
      assert Unwritten(steps, i, |init| + 1);
    case None =>
      if was == Starting && Unwritten(init, i, 0) {
        assert Unwritten(steps, i, 0);
      } else {
        var k :| 0 <= k < |init| && WrittenAt(init, i, k) == Some(was) && Unwritten(init, i, k + 1);
        assert WrittenAt(steps, i, k) == Some(was) && Unwritten(steps, i, k + 1);
      }
  }

  lemma FirstUnwritten(init: seq<Step>, t: Step, i: nat)
    requires Run(INIT_SYS, init).Some? && i >= |Run(INIT_SYS, init).value.insts| && Unwritten(init, i, 0)
    ensures Unwritten(init + [t], i, 0)
  {
    hide WrittenAt, Run;
    WrittenLast(init, t, i);
    forall k: nat | k < |init| ensures WrittenAt(init + [t], i, k) == WrittenAt(init, i, k) {
      WrittenBefore(init, t, i, k);
    }
  }

  lemma {:induction false} StateWasWritten(steps: seq<Step>, i: nat)
    requires Run(INIT_SYS, steps).Some?
    ensures var s := Run(INIT_SYS, steps).value;
      if i < |s.insts| then LastWritten(steps, i, s.insts[i].state) else Unwritten(steps, i, 0)
    decreases |steps|
  {
    if steps != [] {
      var init, t := steps[..|steps| - 1], steps[|steps| - 1];
      assert steps == init + [t];
      RunInit(init, t);
      StateWasWritten(init, i);
      hide WrittenAt, Run, LastWritten, Unwritten, Writes;
      var s := Run(INIT_SYS, init).value;
      WrittenLast(init, t, i);
      if i < |s.insts| {
        LastWrittenStep(init, t, i, s.insts[i].state);
        OneStep(s, t, i);
        if t.On? && t.inst == i { InstWrites(s.insts[i], t.act, s.root); }
      } else {
        FirstUnwritten(init, t, i);
        if i < |Run(INIT_SYS, steps).value.insts| { NewIsStarting(s, t, i); }
        UnwrittenIsStarting(steps, i);
      }
    }
  }

  lemma UnwrittenIsStarting(steps: seq<Step>, i: nat)
    requires Unwritten(steps, i, 0)
    ensures LastWritten(steps, i, Starting)
  {
  }

  lemma NewIsStarting(s: Sys, t: Step, i: nat)
    requires i >= |s.insts| && Apply(s, t).Some? && i < |Apply(s, t).value.insts|
    ensures Apply(s, t).value.insts[i].state == Starting
  {
  }

  /** A run without its last step. */
  lemma {:induction false} RunInit(init: seq<Step>, t: Step)
    requires Run(INIT_SYS, init + [t]).Some?
    ensures Run(INIT_SYS, init).Some? && Run(INIT_SYS, init + [t]) == Apply(Run(INIT_SYS, init).value, t)
  {
    PrefixRuns(INIT_SYS, init, [t]);
    RunAppend(INIT_SYS, init, t);
  }

  lemma {:induction false} PrefixRuns(s: Sys, a: seq<Step>, b: seq<Step>)
    requires Run(s, a + b).Some?
    ensures Run(s, a).Some? && Run(s, a + b) == Run(Run(s, a).value, b)
    decreases |a|
  {
    hide Apply;
    if a == [] {
      assert a + b == b;
    } else {
      assert (a + b)[1..] == a[1..] + b;
      PrefixRuns(Apply(s, a[0]).value, a[1..], b);
    }
  }

  lemma OneLastWritten(steps: seq<Step>, i: nat, a: State, b: State)
    requires LastWritten(steps, i, a) && LastWritten(steps, i, b)
    ensures a == b
  {
    hide WrittenAt;
  }

  /** In every reachable state, and whatever Stops have timed out, an instance is in the
      state that was written last: by Stop's return, by one of its loops, current or
      not, or by a health probe. */
  lemma StateIsLastWritten(steps: seq<Step>, i: nat, to: State)
    requires Run(INIT_SYS, steps).Some? && i < |Run(INIT_SYS, steps).value.insts|
    ensures Run(INIT_SYS, steps).value.insts[i].state == to <==> LastWritten(steps, i, to)
  {
    StateWasWritten(steps, i);
    hide Run, LastWritten;
    if LastWritten(steps, i, to) { OneLastWritten(steps, i, Run(INIT_SYS, steps).value.insts[i].state, to); }
  }

  // ---- When it is `stopped` ------------------------------------------------------------

  predicate IsReturn(steps: seq<Step>, i: nat, k: nat) { k < |steps| && steps[k] == On(i, StopReturn) }

  /** Stop leaves the instance halted and `stopped`, timed out or not, whatever was
      written meanwhile. */
  lemma StopLeavesStopped(steps: seq<Step>, i: nat)
    requires Run(INIT_SYS, steps).Some? && steps != [] && IsReturn(steps, i, |steps| - 1)
    ensures i < |Run(INIT_SYS, steps).value.insts|
    ensures var x := Run(INIT_SYS, steps).value.insts[i]; x.state == Stopped && x.phase == Halted
  {
    var init, t := steps[..|steps| - 1], steps[|steps| - 1];
    assert steps == init + [t];
    RunInit(init, t);
  }

  predicate IsStartOrReturn(a: InstAct) { a.Start? || a.StopReturn? }

  /** A halted instance has been stopped, and neither started nor stopped since. */
  lemma {:induction false} LastReturn(steps: seq<Step>, i: nat) returns (k: nat)
    requires Run(INIT_SYS, steps).Some?
    requires i < |Run(INIT_SYS, steps).value.insts| && Run(INIT_SYS, steps).value.insts[i].phase == Halted
    ensures IsReturn(steps, i, k) && Avoids(steps[k + 1..], i, IsStartOrReturn)
    decreases |steps|
  {
    var n := |steps| - 1;
    var init, t := steps[..n], steps[n];
    assert steps == init + [t];
    RunInit(init, t);
    hide Run;
    var s := Run(INIT_SYS, init).value;
    if t == On(i, StopReturn) {
      k := n;
    } else {
      StillHalted(s, t, i);
      k := LastReturn(init, i);
      assert steps[k + 1..] == init[k + 1..] + [t];
    }
  }

  lemma StillHalted(s: Sys, t: Step, i: nat)
    requires Apply(s, t).Some? && i < |Apply(s, t).value.insts| && Apply(s, t).value.insts[i].phase == Halted
    requires t != On(i, StopReturn)
    ensures i < |s.insts| && s.insts[i].phase == Halted && t != On(i, Start)
  {
    hide LoopStep;
  }

  /** Some Stop of the instance has returned, and no health probe has completed since. */
  ghost predicate UnprobedSinceStop(steps: seq<Step>, i: nat) {
    exists k: nat ::
      IsReturn(steps, i, k) && Avoids(steps[k + 1..], i, IsProbe)
  }

  /** After every run that has halted the instance without a timeout. */
  lemma StoppedIsFinalUnlessProbed(steps: seq<Step>, i: nat)
    requires Run(INIT_SYS, steps).Some? && i < |Run(INIT_SYS, steps).value.insts|
    requires var x := Run(INIT_SYS, steps).value.insts[i]; x.phase == Halted && !x.timedOut
    ensures Run(INIT_SYS, steps).value.insts[i].state == Stopped <==> UnprobedSinceStop(steps, i)
  {
    var k := LastReturn(steps, i);
    var a, b := steps[..k + 1], steps[k + 1..];
    assert steps == a + b;
    PrefixRuns(INIT_SYS, a, b);
    var s := Run(INIT_SYS, a).value;
    assert IsReturn(a, i, |a| - 1);
    StopLeavesStopped(a, i);
    RunKeeps(INIT_SYS, a);
    assert Avoids(b, i, IsStart) by {
      forall j | 0 <= j < |b| && b[j].On? && b[j].inst == i ensures !IsStart(b[j].act) {
        assert !IsStartOrReturn(b[j].act);
      }
    }
    NeverTimedOut(s, b, i);
    hide Run;
    StoppedStaysExactlyWhen(s, b, i);
    if UnprobedSinceStop(steps, i) { LaterUnprobed(steps, i, k); }
  }

  lemma LaterUnprobed(steps: seq<Step>, i: nat, k: nat)
    requires IsReturn(steps, i, k) && Avoids(steps[k + 1..], i, IsStartOrReturn) && UnprobedSinceStop(steps, i)
    ensures Avoids(steps[k + 1..], i, IsProbe)
  {
    var j: nat :| IsReturn(steps, i, j) && Avoids(steps[j + 1..], i, IsProbe);
    var later, after := steps[k + 1..], steps[j + 1..];
    if j > k {
      assert later[j - k - 1] == steps[j] && IsStartOrReturn(steps[j].act);
    } else {
      forall n | 0 <= n < |later| && later[n].On? && later[n].inst == i ensures !IsProbe(later[n].act) {
        assert later[n] == after[n + (k - j)];
      }
    }
  }

  lemma {:induction false} NeverTimedOut(s: Sys, steps: seq<Step>, i: nat)
    requires i < |s.insts| && Run(s, steps).Some?
    ensures i < |Run(s, steps).value.insts| && (s.insts[i].timedOut ==> Run(s, steps).value.insts[i].timedOut)
    decreases |steps|
  {
    if steps != [] {
      OneStep(s, steps[0], i);
      if steps[0].On? && steps[0].inst == i && s.insts[i].timedOut { StaysTimedOut(s.insts[i], steps[0].act, s.root); }
      hide Apply;
      NeverTimedOut(Apply(s, steps[0]).value, steps[1..], i);
    }
  }

  lemma StaysTimedOut(x: Inst, a: InstAct, root: bool)
    requires InstStep(x, a, root).Some? && x.timedOut
    ensures InstStep(x, a, root).value.timedOut
  {
    hide LoopStep;
  }

  // ---- The restart count ------------------------------------------------------------------

  function Restarts(loops: seq<Loop>): nat {
    if loops == [] then 0 else Restarts(loops[..|loops| - 1]) + loops[|loops| - 1].restarts
  }

  lemma {:induction false} RestartsUpdate(loops: seq<Loop>, g: nat, l: Loop)
    requires g < |loops|
    ensures Restarts(loops[g := l]) == Restarts(loops) - loops[g].restarts + l.restarts
  {
    var n := |loops| - 1;
    if g == n {
      assert loops[g := l][..n] == loops[..n];
    } else {
      assert loops[g := l][..n] == loops[..n][g := l];
      RestartsUpdate(loops[..n], g, l);
    }
  }

  lemma LoopCounts(x: Inst, l: Loop, a: LoopAct, done: bool)
    requires LoopStep(l, a, done).Some?
    ensures var (m, e) := LoopStep(l, a, done).value;
      && m.restarts == l.restarts + (if a == Go && l.pc == Counting then 1 else 0)
      && Write(x, e).restartCount == x.restartCount + m.restarts - l.restarts
      && Write(x, e).loops == x.loops
  {
  }

  lemma RestartsStep(x: Inst, a: InstAct, root: bool)
    requires InstStep(x, a, root).Some? && x.restartCount == Restarts(x.loops)
    ensures var y := InstStep(x, a, root).value; y.restartCount == Restarts(y.loops)
  {
    hide LoopStep, Write;
    match a {
      case At(g, act) =>
        var m := LoopStep(x.loops[g], act, x.loops[g].cancelled || root).value.0;
        LoopCounts(x.(loops := x.loops[g := m]), x.loops[g], act, x.loops[g].cancelled || root);
        RestartsUpdate(x.loops, g, m);
      case Start =>
        assert (x.loops + [NEW_LOOP])[..|x.loops|] == x.loops;
      case StopCancel =>
        var last := |x.loops| - 1;
        RestartsUpdate(x.loops, last, x.loops[last].(cancelled := true));
      case _ =>
    }
  }

  ghost predicate CountsAddUp(s: Sys) {
    forall i :: 0 <= i < |s.insts| ==> s.insts[i].restartCount == Restarts(s.insts[i].loops)
  }

  lemma {:induction false} RestartsAddUp(s: Sys, steps: seq<Step>)
    requires CountsAddUp(s) && Run(s, steps).Some?
    ensures CountsAddUp(Run(s, steps).value)
    decreases |steps|
  {
    if steps != [] {
      var s' := Apply(s, steps[0]).value;
      hide InstStep, Restarts;
      if steps[0].On? { RestartsStep(s.insts[steps[0].inst], steps[0].act, s.root); }
      if steps[0].AddInstance? { NoRestarts(); }
      RestartsAddUp(s', steps[1..]);
    }
  }

  lemma NoRestarts()
    ensures Restarts([]) == 0
  {
  }
}
