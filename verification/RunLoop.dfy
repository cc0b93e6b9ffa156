/** The run loop of one instance as the program it is (Start and runLoop in
    internal/pkg/supervisor/instance.go), proved to be a run of one loop of the
    transition system, and to wait min(2^(k-1), 30) seconds before its retry k. */
module RunLoop {
  import opened Text
  import opened Supervision
  import opened SupervisionLaws

  /** What one turn of the loop meets: whether the context is done at each of the
      three places the loop looks, and the process ID of the child, or 0 when
      starting it fails. */
  datatype Turn = Turn(doneAtTop: bool, child: nat, doneAfterExec: bool, doneInBackoff: bool)

  predicate Ends(t: Turn) {
    t.doneAtTop || t.doneAfterExec || t.doneInBackoff
  }

  /** A script of turns of which the last, and only the last, ends the loop. */
  predicate Complete(env: seq<Turn>) {
    env != [] && Ends(env[|env| - 1]) && forall i :: 0 <= i < |env| - 1 ==> !Ends(env[i])
  }

  lemma DelayStep(k: nat)
    ensures Delay(0) == 1 && Delay(k + 1) == Doubled(Delay(k))
  {
  }

  lemma LastTurn(env: seq<Turn>, i: nat)
    requires Complete(env) && i < |env|
    ensures Ends(env[i]) <==> i == |env| - 1
  {
  }

  /** Once the context has been found done it stays so, and `done` tells whether it has. */
  ghost predicate Rising(acts: seq<(LoopAct, bool)>, done: bool) {
    && (forall j, k :: 0 <= j < k < |acts| && acts[j].1 ==> acts[k].1)
    && (done <==> acts != [] && acts[|acts| - 1].1)
  }

  /** The steps of a loop, each with the context as it is then, from a loop and an
      instance to a loop and an instance. */
  function Follow(l: Loop, x: Inst, acts: seq<(LoopAct, bool)>): Option<(Loop, Inst)>
    decreases |acts|
  {
    if acts == [] then Some((l, x))
    else
      match LoopStep(l, acts[0].0, acts[0].1)
      case None => None
      case Some((l', e)) => Follow(l', Write(x, e), acts[1..])
  }

  lemma {:induction false} FollowAppend(l: Loop, x: Inst, acts: seq<(LoopAct, bool)>, a: (LoopAct, bool))
    requires Follow(l, x, acts).Some?
    ensures Follow(l, x, acts + [a])
         == var (m, y) := Follow(l, x, acts).value;
            match LoopStep(m, a.0, a.1) case None => None case Some((m', e)) => Some((m', Write(y, e)))
    decreases |acts|
  {
    if acts == [] {
      assert [] + [a] == [a];
      assert [a][1..] == [];
    } else {
      assert (acts + [a])[1..] == acts[1..] + [a];
      var (l', e) := LoopStep(l, acts[0].0, acts[0].1).value;
      FollowAppend(l', Write(x, e), acts[1..], a);
    }
  }

  // ---- The program's steps are a run of the system --------------------------------------

  /** The steps of run loop g of an instance. */
  function Ats(g: nat, acts: seq<(LoopAct, bool)>): (r: seq<InstAct>)
    ensures |r| == |acts| && forall k :: 0 <= k < |acts| ==> r[k] == At(g, acts[k].0)
  {
    seq(|acts|, k requires 0 <= k < |acts| => At(g, acts[k].0))
  }

  /** Following a loop's steps is what the system does for that loop, while its
      context is as the steps say. */
  lemma {:induction false} FollowIsSystem(x: Inst, g: nat, acts: seq<(LoopAct, bool)>, root: bool)
    requires g < |x.loops|
    requires forall k :: 0 <= k < |acts| ==> acts[k].1 == (x.loops[g].cancelled || root)
    requires Follow(x.loops[g], x, acts).Some?
    ensures var (l, y) := Follow(x.loops[g], x, acts).value;
      InstRun(x, Ats(g, acts), root) == Some(y.(loops := x.loops[g := l]))
    decreases |acts|
  {
    if acts == [] {
      assert x.loops[g := x.loops[g]] == x.loops;
    } else {
      hide LoopStep, Write;
      var (l, e) := LoopStep(x.loops[g], acts[0].0, acts[0].1).value;
      var x' := Write(x.(loops := x.loops[g := l]), e);
      WriteOthers(x, x.loops[g := l], x.phase, x.timedOut, e);
      FollowFrame(l, Write(x, e), x', acts[1..]);
      SameCancelled(x.loops[g], acts[0].0, acts[0].1);
      FollowIsSystem(x', g, acts[1..], root);
      assert Ats(g, acts)[1..] == Ats(g, acts[1..]);
      var (m, y) := Follow(l, Write(x, e), acts[1..]).value;
      assert x'.loops[g := m] == x.loops[g := m];
    }
  }

  lemma SameCancelled(l: Loop, a: LoopAct, done: bool)
    requires LoopStep(l, a, done).Some?
    ensures LoopStep(l, a, done).value.0.cancelled == l.cancelled
  {
  }

  /** Effects touch neither loops nor phase nor timeout flag. */
  lemma WriteOthers(x: Inst, loops: seq<Loop>, phase: Phase, timedOut: bool, e: Effect)
    ensures Write(x.(loops := loops, phase := phase, timedOut := timedOut), e)
         == Write(x, e).(loops := loops, phase := phase, timedOut := timedOut)
    ensures Write(x, e).loops == x.loops && Write(x, e).phase == x.phase && Write(x, e).timedOut == x.timedOut
  {
  }

  /** A loop's steps do not look at the rest of the instance, nor change it but for
      the fields they write. */
  lemma {:induction false} FollowFrame(l: Loop, x: Inst, x': Inst, acts: seq<(LoopAct, bool)>)
    requires x' == x.(loops := x'.loops, phase := x'.phase, timedOut := x'.timedOut)
    requires Follow(l, x, acts).Some?
    ensures var (m, y) := Follow(l, x, acts).value;
      && y.loops == x.loops && y.phase == x.phase && y.timedOut == x.timedOut
      && Follow(l, x', acts) == Some((m, y.(loops := x'.loops, phase := x'.phase, timedOut := x'.timedOut)))
    decreases |acts|
  {
    hide LoopStep, Write;
    if acts != [] {
      var (l', e) := LoopStep(l, acts[0].0, acts[0].1).value;
      WriteOthers(x, x'.loops, x'.phase, x'.timedOut, e);
      FollowFrame(l', Write(x, e), Write(x', e), acts[1..]);
    }
  }

  lemma StepCancelled(l: Loop, a: LoopAct, done: bool)
    requires LoopStep(l, a, done).Some?
    ensures var (m, e) := LoopStep(l, a, done).value;
      LoopStep(l.(cancelled := true), a, done) == Some((m.(cancelled := true), e))
  {
  }

  lemma {:induction false} FollowCancelled(l: Loop, x: Inst, acts: seq<(LoopAct, bool)>)
    requires Follow(l, x, acts).Some?
    ensures var (m, y) := Follow(l, x, acts).value;
      Follow(l.(cancelled := true), x, acts) == Some((m.(cancelled := true), y))
    decreases |acts|
  {
    hide LoopStep, Write;
    if acts != [] {
      var (l', e) := LoopStep(l, acts[0].0, acts[0].1).value;
      StepCancelled(l, acts[0].0, acts[0].1);
      FollowCancelled(l', Write(x, e), acts[1..]);
    }
  }

  lemma {:induction false} FollowSplit(l: Loop, x: Inst, a: seq<(LoopAct, bool)>, b: seq<(LoopAct, bool)>)
    requires Follow(l, x, a + b).Some?
    ensures Follow(l, x, a).Some?
    ensures var (m, y) := Follow(l, x, a).value; Follow(l, x, a + b) == Follow(m, y, b)
    decreases |a|
  {
    hide LoopStep, Write;
    if a == [] {
      assert a + b == b;
    } else {
      assert (a + b)[1..] == a[1..] + b;
      var (l', e) := LoopStep(l, a[0].0, a[0].1).value;
      FollowSplit(l', Write(x, e), a[1..], b);
    }
  }

  lemma {:induction false} FollowKeepsCancelled(l: Loop, x: Inst, acts: seq<(LoopAct, bool)>)
    requires Follow(l, x, acts).Some?
    ensures Follow(l, x, acts).value.0.cancelled == l.cancelled
    decreases |acts|
  {
    hide LoopStep, Write;
    if acts != [] {
      var (l', e) := LoopStep(l, acts[0].0, acts[0].1).value;
      SameCancelled(l, acts[0].0, acts[0].1);
      FollowKeepsCancelled(l', Write(x, e), acts[1..]);
    }
  }

  /** Where the context is first found done. */
  lemma {:induction false} Turning(acts: seq<(LoopAct, bool)>) returns (k: nat)
    requires Rising(acts, true)
    ensures k < |acts|
    ensures (forall j :: 0 <= j < k ==> !acts[j].1) && forall j :: k <= j < |acts| ==> acts[j].1
  {
    k := 0;
    while !acts[k].1
      invariant k < |acts| && forall j :: 0 <= j < k ==> !acts[j].1
      decreases |acts| - k
    {
      k := k + 1;
    }
  }

  /** The instance when the loop is at l with these fields, and the loops before it. */
  function Placed(x: Inst, l: Loop, y: Inst): Inst
    requires x.loops != []
  {
    x.(loops := x.loops[|x.loops| - 1 := l], state := y.state, pid := y.pid, restartCount := y.restartCount)
  }

  /** The part of a trace up to where the context turns out done. */
  lemma FirstPart(x: Inst, acts: seq<(LoopAct, bool)>)
    requires x.loops != [] && x.loops[|x.loops| - 1] == NEW_LOOP && Follow(NEW_LOOP, x, acts).Some?
    requires forall k :: 0 <= k < |acts| ==> !acts[k].1
    ensures var (m, y) := Follow(NEW_LOOP, x, acts).value;
      !m.cancelled && InstRun(x, Ats(|x.loops| - 1, acts), false) == Some(Placed(x, m, y))
  {
    FollowIsSystem(x, |x.loops| - 1, acts, false);
    FollowKeepsCancelled(NEW_LOOP, x, acts);
    FollowFrame(NEW_LOOP, x, x, acts);
    var (m, y) := Follow(NEW_LOOP, x, acts).value;
    hide Follow, InstRun;
    assert y.(loops := x.loops[|x.loops| - 1 := m]) == Placed(x, m, y);
  }

  /** The rest of it, in an instance whose context is done. */
  lemma SecondPart(x: Inst, m: Loop, y: Inst, z: Inst, acts: seq<(LoopAct, bool)>, root: bool)
    requires x.loops != [] && Follow(m, y, acts).Some? && (root || m.cancelled)
    requires y.loops == x.loops && y.phase == x.phase && y.timedOut == x.timedOut
    requires z == Placed(x, m, y).(phase := z.phase)
    requires forall k :: 0 <= k < |acts| ==> acts[k].1
    ensures var (l, y') := Follow(m, y, acts).value;
      InstRun(z, Ats(|x.loops| - 1, acts), root) == Some(Placed(x, l, y').(phase := z.phase))
  {
    var last := |x.loops| - 1;
    FollowFrame(m, y, z, acts);
    FollowIsSystem(z, last, acts, root);
    var (l, y') := Follow(m, y, acts).value;
    hide Follow, InstRun;
    assert z.loops[last := l] == x.loops[last := l];
  }

  ghost predicate HasRun(s: Sys, s': Sys) {
    exists steps ::
      Supervision.Run(s, steps) == Some(s')
  }

  lemma OneInst(x: Inst, acts: seq<InstAct>, root: bool)
    requires InstRun(x, acts, root).Some?
    ensures Supervision.Run(Sys(root, [x]), OnAll(0, acts)) == Some(Sys(root, [InstRun(x, acts, root).value]))
  {
    var s := Sys(root, [x]);
    InstRunIsRun(s, 0, acts);
    var y := InstRun(x, acts, root).value;
    assert s.insts[0 := y] == [y];
  }

  lemma {:induction false} RunConcat(s: Sys, a: seq<Step>, b: seq<Step>)
    requires Supervision.Run(s, a).Some?
    ensures Supervision.Run(s, a + b) == Supervision.Run(Supervision.Run(s, a).value, b)
    decreases |a|
  {
    hide Apply;
    if a == [] {
      assert a + b == b;
    } else {
      assert (a + b)[1..] == a[1..] + b;
      RunConcat(Apply(s, a[0]).value, a[1..], b);
    }
  }

  /** A trace is a run in which a Stop is called just before the context is found done. */
  lemma TraceUnderStop(x: Inst, acts: seq<(LoopAct, bool)>)
    requires x.loops != [] && x.loops[|x.loops| - 1] == NEW_LOOP && x.phase == Supervised
    requires Follow(NEW_LOOP, x, acts).Some? && Rising(acts, true)
    ensures var (l, y) := Follow(NEW_LOOP, x, acts).value;
      HasRun(Sys(false, [x]), Sys(false, [Placed(x, l.(cancelled := true), y).(phase := Waiting)]))
  {
    hide LoopStep, Write, Supervision.Run;
    var k := Turning(acts);
    hide Rising;
    var a, b, last := acts[..k], acts[k..], |x.loops| - 1;
    assert acts == a + b;
    FollowSplit(NEW_LOOP, x, a, b);
    FirstPart(x, a);
    FollowFrame(NEW_LOOP, x, x, a);
    var (m, y) := Follow(NEW_LOOP, x, a).value;
    var mid := Placed(x, m, y);
    var z := Placed(x, m.(cancelled := true), y).(phase := Waiting);
    StopBetween(x, m, y);
    FollowCancelled(m, y, b);
    SecondPart(x, m.(cancelled := true), y, z, b, false);
    hide Follow, InstRun;
    var p, q, r := Ats(last, a), [StopCall, StopCancel], Ats(last, b);
    InstRunAppend(mid, q, r, false);
    InstRunAppend(x, p, q + r, false);
    OneInst(x, p + (q + r), false);
  }

  lemma StopBetween(x: Inst, m: Loop, y: Inst)
    requires x.loops != [] && x.phase == Supervised
    ensures InstRun(Placed(x, m, y), [StopCall, StopCancel], false)
         == Some(Placed(x, m.(cancelled := true), y).(phase := Waiting))
  {
    var mid := Placed(x, m, y);
    var one := mid.(phase := StopCalled);
    var two := Placed(x, m.(cancelled := true), y).(phase := Waiting);
    assert one.loops[|x.loops| - 1 := m.(cancelled := true)] == two.loops;
    assert InstStep(one, StopCancel, false) == Some(two);
    assert [StopCall, StopCancel][1..] == [StopCancel] && [StopCancel][1..] == [];
    assert InstRun(one, [StopCancel], false) == Some(two);
  }

  /** And one in which the root context is cancelled there, as Shutdown does. */
  lemma TraceUnderShutdown(x: Inst, acts: seq<(LoopAct, bool)>)
    requires x.loops != [] && x.loops[|x.loops| - 1] == NEW_LOOP && x.phase == Supervised
    requires Follow(NEW_LOOP, x, acts).Some? && Rising(acts, true)
    ensures var (l, y) := Follow(NEW_LOOP, x, acts).value;
      HasRun(Sys(false, [x]), Sys(true, [Placed(x, l, y)]))
  {
    hide LoopStep, Write, InstStep;
    var k := Turning(acts);
    hide Rising;
    var a, b, last := acts[..k], acts[k..], |x.loops| - 1;
    assert acts == a + b;
    FollowSplit(NEW_LOOP, x, a, b);
    FirstPart(x, a);
    FollowFrame(NEW_LOOP, x, x, a);
    var (m, y) := Follow(NEW_LOOP, x, a).value;
    var z := Placed(x, m, y);
    SecondPart(x, m, y, z, b, true);
    hide Follow, InstRun;
    OneInst(x, Ats(last, a), false);
    OneInst(z, Ats(last, b), true);
    CancelRootStep(z);
    hide Supervision.Run;
    var p, q, r := OnAll(0, Ats(last, a)), [CancelRoot], OnAll(0, Ats(last, b));
    RunConcat(Sys(false, [z]), q, r);
    RunConcat(Sys(false, [x]), p, q + r);
  }

  lemma CancelRootStep(z: Inst)
    ensures Supervision.Run(Sys(false, [z]), [CancelRoot]) == Some(Sys(true, [z]))
  {
    assert [CancelRoot][1..] == [];
  }

  /** An instance as its run loop sees it. */
  class Instance {
    var state: State
    var pid: nat
    var restartCount: nat

    /** The steps taken so far, and the loop they lead to. */
    ghost var acts: seq<(LoopAct, bool)>
    ghost var loop: Loop

    /** The loop has found its context done. */
    ghost var done: bool
    ghost const before: Inst

    constructor (state: State, pid: nat, restartCount: nat)
      ensures this.state == state && this.pid == pid && this.restartCount == restartCount
      ensures Valid() && loop == NEW_LOOP && acts == [] && !done
      ensures before == Inst([], state, pid, restartCount, Supervised, false)
    {
      this.state, this.pid, this.restartCount := state, pid, restartCount;
      acts, loop, done := [], NEW_LOOP, false;
      before := Inst([], state, pid, restartCount, Supervised, false);
    }

    ghost function View(): Inst
      reads this
    {
      Inst([], state, pid, restartCount, Supervised, false)
    }

    /** What the program has done is a run of the transition system's loop. */
    ghost predicate Valid()
      reads this
    {
      && before.loops == [] && before.phase == Supervised && !before.timedOut
      && Follow(NEW_LOOP, before, acts) == Some((loop, View())) && Rising(acts, done)
    }

    /** Makes the loop's step on the record; the caller has written its effect. */
    ghost method Took(a: LoopAct, ctxDone: bool, was: Inst)
      requires before.loops == [] && before.phase == Supervised && !before.timedOut
      requires Follow(NEW_LOOP, before, acts) == Some((loop, was)) && Rising(acts, done) && (done ==> ctxDone)
      requires LoopStep(loop, a, ctxDone).Some? && View() == Write(was, LoopStep(loop, a, ctxDone).value.1)
      modifies this`acts, this`loop, this`done
      ensures Valid() && loop == LoopStep(old(loop), a, ctxDone).value.0 && done == ctxDone
    {
      FollowAppend(NEW_LOOP, before, acts, (a, ctxDone));
      acts := acts + [(a, ctxDone)];
      loop := LoopStep(loop, a, ctxDone).value.0;
      done := ctxDone;
    }

    method SetState(s: State, ghost a: LoopAct, ghost ctxDone: bool)
      requires Valid() && (done ==> ctxDone)
      requires LoopStep(loop, a, ctxDone).Some? && LoopStep(loop, a, ctxDone).value.1 == Effect.SetState(s)
      modifies this`state, this`acts, this`loop, this`done
      ensures Valid() && state == s && loop == LoopStep(old(loop), a, ctxDone).value.0 && done == ctxDone
    {
      ghost var was := View();
      state := s;
      Took(a, ctxDone, was);
    }

    /** Runs one child to its end: starting it may fail, else its process ID is on
        record until it has been waited for. */
    method ExecProcess(child: nat)
      requires Valid() && !done && loop.pc == Exec && !loop.child
      modifies this`state, this`pid, this`acts, this`loop, this`done
      ensures Valid() && !done
      ensures pid == if child > 0 then 0 else old(pid)
      ensures loop == old(loop).(pc := Exited, spawns := old(loop).spawns + if child > 0 then 1 else 0,
                                 childPid := if child > 0 then child else old(loop).childPid)
    {
      if child == 0 {
        Took(SpawnFail, false, View());
        return;
      }
      Spawn(child);
      Reap();
    }

    method Spawn(child: nat)
      requires Valid() && !done && loop.pc == Exec && child > 0
      modifies this`state, this`pid, this`acts, this`loop, this`done
      ensures Valid() && !done && pid == child && state == Running
      ensures loop == old(loop).(pc := Live, child := true, childPid := child, spawns := old(loop).spawns + 1)
    {
      Took(SpawnOk(child), false, View());
      ghost var was := View();
      pid, state := child, Running;
      Took(Go, false, was);
    }

    method Reap()
      requires Valid() && !done && loop.pc == Live && loop.child
      modifies this`pid, this`acts, this`loop, this`done
      ensures Valid() && !done && pid == 0
      ensures loop == old(loop).(pc := Exited, child := false)
    {
      Took(ChildExit, false, View());
      Took(Go, false, View());
      ghost var was := View();
      pid := 0;
      Took(Go, false, was);
    }

    /** The context is looked at; a done one ends the loop. */
    method Look(ctxDone: bool)
      requires Valid() && !done && (loop.pc == Top || loop.pc == Exited)
      modifies this`acts, this`loop, this`done
      ensures Valid() && done == ctxDone
      ensures loop == old(loop).(pc := if ctxDone then Finishing else if old(loop).pc == Top then Marking else Counting)
    {
      Took(Go, ctxDone, View());
    }

    method NoteRestart()
      requires Valid() && !done && loop.pc == Counting
      modifies this`state, this`restartCount, this`acts, this`loop, this`done
      ensures Valid() && !done && restartCount == old(restartCount) + 1
      ensures loop == old(loop).(pc := Backoff, restarts := old(loop).restarts + 1)
    {
      ghost var was := View();
      restartCount := restartCount + 1;
      Took(Go, false, was);
      SetState(Restarting, Go, false);
    }

    /** The backoff ends with its timer, or with the context done. */
    method LeaveBackoff(timer: bool)
      requires Valid() && !done && loop.pc == Backoff
      modifies this`acts, this`loop, this`done
      ensures Valid() && done == !timer
      ensures timer ==>
        loop == old(loop).(pc := Top, backoff := Doubled(old(loop).backoff), retries := old(loop).retries + 1)
      ensures !timer ==> loop == old(loop).(pc := Finishing)
    {
      if timer {
        Took(Timer, false, View());
      } else {
        Took(SeesCancel, true, View());
      }
    }

    /** One turn up to its backoff: starts a child, waits for it, counts a restart. */
    method TakeTurn(turn: Turn) returns (ended: bool)
      requires Valid() && !done && loop.pc == Top && !loop.child
      modifies this
      ensures Valid() && done == ended && !loop.child
      ensures loop.retries == old(loop).retries && loop.backoff == old(loop).backoff
      ensures ended == (turn.doneAtTop || turn.doneAfterExec)
      ensures loop.pc == if ended then Finishing else Backoff
      ensures restartCount == old(restartCount) + if ended then 0 else 1
    {
      hide Follow, Write, Valid, View;
      Look(turn.doneAtTop);
      if turn.doneAtTop {
        return true;
      }
      SetState(Starting, Go, false);
      ExecProcess(turn.child);
      Look(turn.doneAfterExec);
      if turn.doneAfterExec {
        return true;
      }
      NoteRestart();
      return false;
    }

    /** One turn with its backoff, or to the end of the loop. */
    method WholeTurn(turn: Turn) returns (ended: bool)
      requires Valid() && !done && loop.pc == Top && !loop.child
      modifies this
      ensures Valid() && done == ended == Ends(turn)
      ensures restartCount == old(restartCount) + if turn.doneAtTop || turn.doneAfterExec then 0 else 1
      ensures ended ==> loop.pc == Done && state == Stopped
      ensures !ended ==> loop.pc == Top && !loop.child && loop.backoff == Doubled(old(loop.backoff))
    {
      hide Follow, LoopStep, Write, Valid, View;
      var stopped := TakeTurn(turn);
      if !stopped {
        LeaveBackoff(!turn.doneInBackoff);
      }
      if stopped || turn.doneInBackoff {
        Finish();
        return true;
      }
      return false;
    }

    method NextBackoff(backoff: nat) returns (next: nat)
      ensures next == Doubled(backoff)
    {
      var maxBackoff := 30;
      next := backoff * 2;
      if next > maxBackoff {
        next := maxBackoff;
      }
    }

    /** The loop, under a script of what its turns meet. */
    method Turns(env: seq<Turn>) returns (delays: seq<nat>)
      requires Valid() && !done && loop == NEW_LOOP && Complete(env)
      modifies this
      ensures Valid() && done && loop.pc == Done && state == Stopped
      ensures |delays| == |env| - 1 && forall k :: 0 <= k < |delays| ==> delays[k] == Delay(k)
      ensures var ended := env[|env| - 1];
        restartCount == old(restartCount) + |env| - 1
                      + if !ended.doneAtTop && !ended.doneAfterExec then 1 else 0
    {
      assert |env| > 0;
      hide Follow, LoopStep, Write, Valid, View, Complete, Delay, Ends;
      var backoff := 1;
      delays := [];
      DelayStep(0);
      var i := 0;
      while true
        invariant 0 <= i < |env| && |delays| == i
        invariant Valid() && !done && loop.pc == Top && !loop.child
        invariant backoff == loop.backoff == Delay(i)
        invariant forall k :: 0 <= k < i ==> delays[k] == Delay(k)
        invariant restartCount == old(restartCount) + i
        decreases |env| - i
      {
        LastTurn(env, i);
        DelayStep(i);
        var ended := WholeTurn(env[i]);
        if ended {
          return;
        }
        delays := delays + [backoff];
        backoff := NextBackoff(backoff);
        i := i + 1;
      }
    }

    /** With a Stop or a Shutdown where the context was found done, what the program has
        done is a run of the system to this loop and these fields. */
    lemma IsSystemRun()
      requires Valid() && done
      ensures var x := before.(loops := [NEW_LOOP]);
        && HasRun(Sys(false, [x]),
                  Sys(false, [Inst([loop.(cancelled := true)], state, pid, restartCount, Waiting, false)]))
        && HasRun(Sys(false, [x]), Sys(true, [Inst([loop], state, pid, restartCount, Supervised, false)]))
    {
      hide Follow, HasRun;
      var x := before.(loops := [NEW_LOOP]);
      FollowFrame(NEW_LOOP, before, x, acts);
      TraceUnderStop(x, acts);
      TraceUnderShutdown(x, acts);
      assert [NEW_LOOP][0 := loop] == [loop] && [NEW_LOOP][0 := loop.(cancelled := true)] == [loop.(cancelled := true)];
    }

    /** The run loop. Whatever its turns meet, it ends stopped after the delays of the
        schedule, and what it has done is a run of the supervision system, with a Stop
        or a Shutdown where it finds its context done. */
    method Run(env: seq<Turn>) returns (delays: seq<nat>)
      requires Valid() && !done && loop == NEW_LOOP && Complete(env)
      modifies this
      ensures Valid() && loop.pc == Done && state == Stopped
      ensures |delays| == |env| - 1 && forall k :: 0 <= k < |delays| ==> delays[k] == Delay(k)
      ensures var ended := env[|env| - 1];
        restartCount == old(restartCount) + |env| - 1
                      + if !ended.doneAtTop && !ended.doneAfterExec then 1 else 0
      ensures var x := before.(loops := [NEW_LOOP]);
        && HasRun(Sys(false, [x]),
                  Sys(false, [Inst([loop.(cancelled := true)], state, pid, restartCount, Waiting, false)]))
        && HasRun(Sys(false, [x]), Sys(true, [Inst([loop], state, pid, restartCount, Supervised, false)]))
    {
      hide *;
      delays := Turns(env);
      IsSystemRun();
    }

    method Finish()
      requires Valid() && done && loop.pc == Finishing
      modifies this`state, this`acts, this`loop, this`done
      ensures Valid() && done && state == Stopped && loop == old(loop).(pc := Done)
    {
      SetState(Stopped, Go, true);
      Took(Go, true, View());
    }
  }

  /** The delay in closed form. */
  function Pow2(k: nat): nat {
    if k == 0 then 1 else 2 * Pow2(k - 1)
  }

  lemma {:induction false} DelayClosedForm(k: nat)
    ensures Delay(k) == if Pow2(k) < 30 then Pow2(k) else 30
  {
    if k > 0 { DelayClosedForm(k - 1); }
  }
}
