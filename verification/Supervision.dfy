/** The supervision protocol of child exporters (internal/pkg/supervisor/instance.go)
    as a transition system over every interleaving of run loops, Start, Stop, health
    probes, child exits and the shutdown of the manager's root context.

    A step names its nondeterministic choice, so a run is a sequence of steps and
    `Apply` is a function; a step that is not enabled gives None. */
module Supervision {
  import opened Text

  datatype State = Starting | Running | Unhealthy | Restarting | Stopped

  /** Where a run loop stands. */
  datatype PC =
    | Top          // the check of ctx.Done at the head of the loop
    | Marking      // about to write `starting`
    | Exec         // in execProcess, before the command is started
    | Spawned      // command started, pid not yet recorded
    | Live         // pid recorded, in cmd.Wait
    | Reaped       // Wait returned, pid not yet cleared
    | Exited       // the check of ctx.Err after execProcess
    | Counting     // about to count a restart
    | Noting       // about to write `restarting`
    | Backoff      // in the select between ctx.Done and the timer
    | Finishing    // about to write `stopped`
    | Closing      // about to close stoppedCh
    | Done

  datatype Loop = Loop(
    pc: PC,
    cancelled: bool,   // its own context's cancel function was called
    child: bool,       // its child process is alive
    childPid: nat,     // the process ID of its latest child
    backoff: nat,      // seconds to wait before the next retry
    retries: nat,      // timers that have fired
    spawns: nat,       // children started
    restarts: nat)     // restarts counted

  const NEW_LOOP := Loop(Top, false, false, 0, 1, 0, 0, 0)

  /** Where the manager, which holds its lock meanwhile, stands with an instance. */
  datatype Phase =
    | Fresh
    | Supervised
    | StopCalled       // Stop has read cancelFunc, pid and stoppedCh
    | Waiting          // the context is cancelled; waiting for stoppedCh or the timeout
    | Returning        // the wait is over; about to write `stopped`
    | Halted

  datatype Inst = Inst(
    loops: seq<Loop>,  // every run loop ever started; the last one is the current one
    state: State,
    pid: nat,          // 0 when none is recorded
    restartCount: nat,
    phase: Phase,
    timedOut: bool)    // some Stop returned through its timeout

  const NEW_INST := Inst([], Starting, 0, 0, Fresh, false)

  datatype Sys = Sys(root: bool, insts: seq<Inst>)

  const INIT_SYS := Sys(false, [])

  // ---- Steps -----------------------------------------------------------------

  datatype LoopAct = Go | SpawnOk(pid: nat) | SpawnFail | ChildExit | Timer | SeesCancel

  datatype InstAct =
    | Start
    | StopCall | StopCancel | StopClosed | StopTimeout | StopReturn
    | Probe(healthy: bool)
    | At(gen: nat, act: LoopAct)

  datatype Step = CancelRoot | AddInstance | On(inst: nat, act: InstAct)

  /** What a loop's step writes into the instance. */
  datatype Effect = Nothing | SetState(to: State) | RecordPid(pid: nat) | ClearPid | CountRestart

  /** Retry k waits min(2^(k-1), 30) seconds: one more doubling, capped. */
  function Doubled(backoff: nat): nat {
    if backoff * 2 > 30 then 30 else backoff * 2
  }

  function LoopStep(l: Loop, a: LoopAct, done: bool): Option<(Loop, Effect)> {
    match a
    case Go => (
      match l.pc
      case Top => Some((l.(pc := if done then Finishing else Marking), Nothing))
      case Marking => Some((l.(pc := Exec), SetState(Starting)))
      case Spawned => Some((l.(pc := Live), RecordPid(l.childPid)))
      case Live => if l.child then None else Some((l.(pc := Reaped), Nothing))
      case Reaped => Some((l.(pc := Exited), ClearPid))
      case Exited => Some((l.(pc := if done then Finishing else Counting), Nothing))
      case Counting => Some((l.(pc := Noting, restarts := l.restarts + 1), CountRestart))
      case Noting => Some((l.(pc := Backoff), SetState(Restarting)))
      case Finishing => Some((l.(pc := Closing), SetState(Stopped)))
      case Closing => Some((l.(pc := Done), Nothing))
      case _ => None)
    case SpawnOk(p) =>
      if l.pc == Exec && p > 0
      then Some((l.(pc := Spawned, child := true, childPid := p, spawns := l.spawns + 1), Nothing))
      else None
    case SpawnFail => if l.pc == Exec then Some((l.(pc := Exited), Nothing)) else None
    case ChildExit => if l.child then Some((l.(child := false), Nothing)) else None
    case Timer =>
      if l.pc == Backoff
      then Some((l.(pc := Top, backoff := Doubled(l.backoff), retries := l.retries + 1), Nothing))
      else None
    case SeesCancel => if l.pc == Backoff && done then Some((l.(pc := Finishing), Nothing)) else None
  }

  function Write(x: Inst, e: Effect): Inst {
    match e
    case Nothing => x
    case SetState(s) => x.(state := s)
    case RecordPid(p) => x.(pid := p, state := Running)
    case ClearPid => x.(pid := 0)
    case CountRestart => x.(restartCount := x.restartCount + 1)
  }

  function InstStep(x: Inst, a: InstAct, root: bool): Option<Inst> {
    match a
    case Start =>
      if x.phase == Fresh || x.phase == Halted
      then Some(x.(loops := x.loops + [NEW_LOOP], phase := Supervised))
      else None
    case StopCall => if x.phase == Supervised then Some(x.(phase := StopCalled)) else None
    case StopCancel =>
      if x.phase == StopCalled && x.loops != []
      then
        var last := |x.loops| - 1;
        Some(x.(loops := x.loops[last := x.loops[last].(cancelled := true)], phase := Waiting))
      else None
    case StopClosed =>
      if x.phase == Waiting && x.loops != [] && x.loops[|x.loops| - 1].pc == Done
      then Some(x.(phase := Returning))
      else None
    case StopTimeout => if x.phase == Waiting then Some(x.(phase := Returning, timedOut := true)) else None
    case StopReturn => if x.phase == Returning then Some(x.(phase := Halted, state := Stopped)) else None
    case Probe(healthy) => Some(x.(state := if healthy then Running else Unhealthy))
    case At(g, act) =>
      if g < |x.loops|
      then
        match LoopStep(x.loops[g], act, x.loops[g].cancelled || root)
        case None => None
        case Some((l, e)) => Some(Write(x.(loops := x.loops[g := l]), e))
      else None
  }

  function Apply(s: Sys, t: Step): Option<Sys> {
    match t
    case CancelRoot => Some(s.(root := true))
    case AddInstance => Some(s.(insts := s.insts + [NEW_INST]))
    case On(i, a) =>
      if i < |s.insts|
      then
        match InstStep(s.insts[i], a, s.root)
        case None => None
        case Some(x) => Some(s.(insts := s.insts[i := x]))
      else None
  }

  function Run(s: Sys, steps: seq<Step>): Option<Sys>
    decreases |steps|
  {
    if steps == [] then Some(s)
    else
      match Apply(s, steps[0])
      case None => None
      case Some(s') => Run(s', steps[1..])
  }

  // ---- What every step keeps ---------------------------------------------------

  /** min(2^k, 30). */
  function Delay(k: nat): nat {
    if k == 0 then 1 else Doubled(Delay(k - 1))
  }

  predicate LoopInv(l: Loop) {
    && (l.child ==> l.pc == Spawned || l.pc == Live)
    && l.backoff == Delay(l.retries)
    && ((l.pc == Spawned || l.pc == Live || l.pc == Reaped) ==> l.childPid > 0)
  }

  /** All loops but the current one have a cancelled context, and so has the
      current one from the moment Stop has cancelled it until the next Start. */
  predicate InstInv(x: Inst) {
    && (forall g :: 0 <= g < |x.loops| ==> LoopInv(x.loops[g]))
    && (x.phase == Fresh <==> x.loops == [])
    && (forall g :: 0 <= g < |x.loops| - 1 ==> x.loops[g].cancelled)
    && (x.loops != [] ==> (x.loops[|x.loops| - 1].cancelled <==> x.phase in {Waiting, Returning, Halted}))
  }

  /** While no Stop has timed out: every loop but the current one is Done, the
      current one too once Stop has returned, and pid is that of its child. */
  predicate CleanInv(x: Inst) {
    !x.timedOut ==>
      && (forall g :: 0 <= g < |x.loops| - 1 ==> x.loops[g].pc == Done)
      && (x.loops != [] && x.phase in {Returning, Halted} ==> x.loops[|x.loops| - 1].pc == Done)
      && x.pid == if x.loops != [] && x.loops[|x.loops| - 1].pc in {Live, Reaped}
                  then x.loops[|x.loops| - 1].childPid else 0
  }

  predicate SysInv(s: Sys) {
    forall i :: 0 <= i < |s.insts| ==> InstInv(s.insts[i]) && CleanInv(s.insts[i])
  }

  lemma LoopStepKeeps(l: Loop, a: LoopAct, done: bool)
    requires LoopInv(l) && LoopStep(l, a, done).Some?
    ensures LoopInv(LoopStep(l, a, done).value.0)
    ensures LoopStep(l, a, done).value.0.cancelled == l.cancelled
  {
  }

  /** A loop that is Done takes no further step. */
  lemma DoneIsFinal(l: Loop, a: LoopAct, done: bool)
    requires LoopInv(l) && l.pc == Done
    ensures LoopStep(l, a, done).None?
  {
  }

  predicate PidMatches(l: Loop, pid: nat) {
    pid == if l.pc in {Live, Reaped} then l.childPid else 0
  }

  /** The current loop's own steps keep the pid field in line with it. */
  lemma PidFollows(x: Inst, l: Loop, a: LoopAct, done: bool)
    requires LoopInv(l) && LoopStep(l, a, done).Some? && PidMatches(l, x.pid)
    ensures PidMatches(LoopStep(l, a, done).value.0, Write(x, LoopStep(l, a, done).value.1).pid)
    ensures l.pc == Done ==> LoopStep(l, a, done).value.0.pc == Done
  {
  }

  lemma AtKeepsInv(x: Inst, g: nat, act: LoopAct, root: bool)
    requires InstInv(x) && InstStep(x, At(g, act), root).Some?
    ensures InstInv(InstStep(x, At(g, act), root).value)
  {
    hide LoopStep;
    LoopStepKeeps(x.loops[g], act, x.loops[g].cancelled || root);
  }

  lemma AtKeepsClean(x: Inst, g: nat, act: LoopAct, root: bool)
    requires InstInv(x) && CleanInv(x) && InstStep(x, At(g, act), root).Some?
    ensures CleanInv(InstStep(x, At(g, act), root).value)
  {
    hide LoopStep, LoopInv;
    if !x.timedOut {
      var last := |x.loops| - 1;
      if g < last {
        DoneIsFinal(x.loops[g], act, x.loops[g].cancelled || root);
      } else {
        PidFollows(x, x.loops[last], act, x.loops[last].cancelled || root);
      }
    }
  }

  lemma StartKeeps(x: Inst)
    requires InstInv(x) && CleanInv(x) && (x.phase == Fresh || x.phase == Halted)
    ensures InstInv(x.(loops := x.loops + [NEW_LOOP], phase := Supervised))
    ensures CleanInv(x.(loops := x.loops + [NEW_LOOP], phase := Supervised))
  {
  }

  lemma CancelKeeps(x: Inst)
    requires InstInv(x) && CleanInv(x) && x.phase == StopCalled && x.loops != []
    ensures var last := |x.loops| - 1;
      var y := x.(loops := x.loops[last := x.loops[last].(cancelled := true)], phase := Waiting);
      InstInv(y) && CleanInv(y)
  {
  }

  lemma InstStepKeeps(x: Inst, a: InstAct, root: bool)
    requires InstInv(x) && CleanInv(x) && InstStep(x, a, root).Some?
    ensures InstInv(InstStep(x, a, root).value)
    ensures CleanInv(InstStep(x, a, root).value)
  {
    hide LoopStep;
    if a.At? {
      AtKeepsInv(x, a.gen, a.act, root);
      AtKeepsClean(x, a.gen, a.act, root);
    } else if a.Start? {
      StartKeeps(x);
    } else if a.StopCancel? {
      CancelKeeps(x);
    }
  }

  lemma ApplyKeeps(s: Sys, t: Step)
    requires SysInv(s) && Apply(s, t).Some?
    ensures SysInv(Apply(s, t).value)
  {
    if t.On? { InstStepKeeps(s.insts[t.inst], t.act, s.root); }
  }

  lemma {:induction false} RunKeeps(s: Sys, steps: seq<Step>)
    requires SysInv(s) && Run(s, steps).Some?
    ensures SysInv(Run(s, steps).value)
    decreases |steps|
  {
    if steps != [] {
      ApplyKeeps(s, steps[0]);
      RunKeeps(Apply(s, steps[0]).value, steps[1..]);
    }
  }

  // ---- Safety over every run -----------------------------------------------------

  /** In every reachable state: at most one run loop of an instance has an
      uncancelled context, a closed stoppedCh means its loop has no live child, and
      every loop waits min(2^(k-1), 30) seconds before its retry k. */
  lemma AtMostOneUncancelled(steps: seq<Step>, i: nat)
    requires Run(INIT_SYS, steps).Some? && i < |Run(INIT_SYS, steps).value.insts|
    ensures var x := Run(INIT_SYS, steps).value.insts[i];
      && (forall g, h :: 0 <= g < |x.loops| && 0 <= h < |x.loops| ==>
            !x.loops[g].cancelled && !x.loops[h].cancelled ==> g == h)
      && (forall g :: 0 <= g < |x.loops| && x.loops[g].pc == Done ==> !x.loops[g].child)
      && (forall g :: 0 <= g < |x.loops| ==> x.loops[g].backoff == Delay(x.loops[g].retries))
  {
    RunKeeps(INIT_SYS, steps);
  }

  /** If no Stop of an instance has timed out, it has at most one live child, and
      its pid field is nonzero exactly while the current loop waits for the child
      of that process ID. */
  lemma AtMostOneChild(steps: seq<Step>, i: nat)
    requires Run(INIT_SYS, steps).Some? && i < |Run(INIT_SYS, steps).value.insts|
    requires !Run(INIT_SYS, steps).value.insts[i].timedOut
    ensures var x := Run(INIT_SYS, steps).value.insts[i];
      && (forall g, h :: 0 <= g < |x.loops| && 0 <= h < |x.loops| && x.loops[g].child && x.loops[h].child ==> g == h)
      && (x.pid != 0 <==> exists g :: 0 <= g < |x.loops| && x.loops[g].pc in {Live, Reaped})
      && (forall g :: 0 <= g < |x.loops| && x.loops[g].pc in {Live, Reaped} ==> x.pid == x.loops[g].childPid)
  {
    RunKeeps(INIT_SYS, steps);
  }

  // ---- After cancellation ---------------------------------------------------------

  /** Steps left to a loop whose context is done; a live child costs its exit. */
  function Measure(l: Loop): nat {
    2 * Rank(l.pc) + if l.child then 1 else 0
  }

  function Rank(pc: PC): nat {
    match pc
    case Done => 0
    case Closing => 1
    case Finishing => 2
    case Top => 3
    case Backoff => 4
    case Noting => 5
    case Counting => 6
    case Exited => 7
    case Reaped => 8
    case Live => 9
    case Spawned => 10
    case Exec => 11
    case Marking => 12
  }

  function SpawnsLeft(pc: PC): nat { if pc == Marking || pc == Exec then 1 else 0 }

  function RestartsLeft(pc: PC): nat { if pc == Counting then 1 else 0 }

  lemma DrainStep(l: Loop, a: LoopAct)
    requires LoopStep(l, a, true).Some?
    ensures var l' := LoopStep(l, a, true).value.0;
      && Measure(l') < Measure(l)
      && l'.spawns + SpawnsLeft(l'.pc) <= l.spawns + SpawnsLeft(l.pc)
      && l'.restarts + RestartsLeft(l'.pc) <= l.restarts + RestartsLeft(l.pc)
  {
  }

  /** A loop whose context is done is only ever held up by its living child. */
  lemma DrainProgress(l: Loop)
    requires l.pc != Done && !l.child
    ensures exists a :: LoopStep(l, a, true).Some?
  {
    if l.pc == Exec {
      assert LoopStep(l, SpawnFail, true).Some?;
    } else if l.pc == Backoff {
      assert LoopStep(l, SeesCancel, true).Some?;
    } else {
      assert LoopStep(l, Go, true).Some?;
    }
  }

  /** How many steps a run gives to loop g of instance i. */
  function StepsOf(steps: seq<Step>, i: nat, g: nat): nat {
    if steps == [] then 0
    else (if steps[0].On? && steps[0].inst == i && steps[0].act.At? && steps[0].act.gen == g then 1 else 0)
         + StepsOf(steps[1..], i, g)
  }

  predicate IsLoop(s: Sys, i: nat, g: nat) {
    i < |s.insts| && g < |s.insts[i].loops|
  }

  predicate DoneCtx(s: Sys, i: nat, g: nat)
    requires IsLoop(s, i, g)
  {
    s.root || s.insts[i].loops[g].cancelled
  }

  /** Another step of its instance leaves a loop alone, but for its cancellation. */
  lemma OthersKeepLoop(x: Inst, a: InstAct, root: bool, g: nat)
    requires g < |x.loops| && InstStep(x, a, root).Some? && !(a.At? && a.gen == g)
    ensures var y := InstStep(x, a, root).value;
      && g < |y.loops|
      && y.loops[g] == x.loops[g].(cancelled := y.loops[g].cancelled)
      && (x.loops[g].cancelled ==> y.loops[g].cancelled)
  {
    hide LoopStep;
  }

  predicate Drained(l: Loop, l': Loop, steps: nat) {
    && steps + Measure(l') <= Measure(l)
    && l'.spawns + SpawnsLeft(l'.pc) <= l.spawns + SpawnsLeft(l.pc)
    && l'.restarts + RestartsLeft(l'.pc) <= l.restarts + RestartsLeft(l.pc)
  }

  lemma InstDrains(x: Inst, a: InstAct, root: bool, g: nat)
    requires g < |x.loops| && (root || x.loops[g].cancelled) && InstStep(x, a, root).Some?
    ensures var y := InstStep(x, a, root).value;
      && g < |y.loops| && (x.loops[g].cancelled ==> y.loops[g].cancelled)
      && Drained(x.loops[g], y.loops[g], if a.At? && a.gen == g then 1 else 0)
  {
    if a.At? && a.gen == g {
      DrainStep(x.loops[g], a.act);
      LoopStepContext(x.loops[g], a.act);
      hide LoopStep, Measure, SpawnsLeft, RestartsLeft;
    } else {
      OthersKeepLoop(x, a, root, g);
    }
  }

  /** One step of the system, seen from one loop whose context is done. */
  lemma ApplyDrains(s: Sys, t: Step, i: nat, g: nat)
    requires IsLoop(s, i, g) && DoneCtx(s, i, g) && Apply(s, t).Some?
    ensures var s' := Apply(s, t).value;
      && IsLoop(s', i, g) && DoneCtx(s', i, g)
      && Drained(s.insts[i].loops[g], s'.insts[i].loops[g], StepsOf([t], i, g))
  {
    assert StepsOf([t][1..], i, g) == 0;
    if t.On? && t.inst == i {
      InstDrains(s.insts[i], t.act, s.root, g);
    }
    hide InstStep, Measure, SpawnsLeft, RestartsLeft;
  }

  lemma LoopStepContext(l: Loop, a: LoopAct)
    requires LoopStep(l, a, true).Some?
    ensures LoopStep(l, a, true).value.0.cancelled == l.cancelled
  {
  }

  /** Once a loop's context is done -- by Stop or by the manager's Shutdown -- it
      takes boundedly many steps, starts at most one more child and counts at most
      one more restart, in every continuation; and unless it is Done or waits for a
      living child it has a step to take. */
  lemma {:induction false} CancelledLoopDrains(s: Sys, steps: seq<Step>, i: nat, g: nat)
    requires IsLoop(s, i, g) && DoneCtx(s, i, g) && Run(s, steps).Some?
    ensures var s' := Run(s, steps).value;
      && IsLoop(s', i, g) && DoneCtx(s', i, g)
      && var l, l' := s.insts[i].loops[g], s'.insts[i].loops[g];
      && Drained(l, l', StepsOf(steps, i, g))
      && l'.spawns <= l.spawns + 1 && l'.restarts <= l.restarts + 1
      && (l'.pc == Done || l'.child || exists a :: LoopStep(l', a, true).Some?)
    decreases |steps|
  {
    if steps == [] {
      var l := s.insts[i].loops[g];
      if l.pc != Done && !l.child { DrainProgress(l); }
    } else {
      ApplyDrains(s, steps[0], i, g);
      CancelledLoopDrains(Apply(s, steps[0]).value, steps[1..], i, g);
      assert StepsOf([steps[0]][1..], i, g) == 0;
    }
  }

  /** A loop that never got past the head of its loop. */
  predicate Unborn(l: Loop) {
    l.pc in {Top, Finishing, Closing, Done} && l.spawns == 0 && l.restarts == 0 && !l.child
  }

  /** Every loop of s beyond those of s0 is unborn. */
  ghost predicate NewLoopsUnborn(s0: Sys, s: Sys) {
    forall i: nat, g: nat :: IsLoop(s, i, g) && !IsLoop(s0, i, g) ==> Unborn(s.insts[i].loops[g])
  }

  lemma UnbornStays(l: Loop, a: LoopAct)
    requires Unborn(l) && LoopStep(l, a, true).Some?
    ensures Unborn(LoopStep(l, a, true).value.0)
  {
  }

  lemma ApplyUnborn(s0: Sys, s: Sys, t: Step)
    requires s.root && NewLoopsUnborn(s0, s) && Apply(s, t).Some?
    ensures Apply(s, t).value.root && NewLoopsUnborn(s0, Apply(s, t).value)
  {
    var s' := Apply(s, t).value;
    forall i: nat, g: nat | IsLoop(s', i, g) && !IsLoop(s0, i, g) ensures Unborn(s'.insts[i].loops[g]) {
      if IsLoop(s, i, g) {
        assert Unborn(s.insts[i].loops[g]);
        if t.On? && t.inst == i && t.act.At? && t.act.gen == g {
          UnbornStays(s.insts[i].loops[g], t.act.act);
        }
      }
    }
  }

  /** After Shutdown has cancelled the root context, a loop started later -- by a
      Reconcile that was still running, or by a later one -- never starts a child. */
  lemma {:induction false} NothingSpawnsAfterShutdown(s0: Sys, s: Sys, steps: seq<Step>)
    requires s.root && NewLoopsUnborn(s0, s) && Run(s, steps).Some?
    ensures NewLoopsUnborn(s0, Run(s, steps).value)
    decreases |steps|
  {
    if steps != [] {
      ApplyUnborn(s0, s, steps[0]);
      NothingSpawnsAfterShutdown(s0, Apply(s, steps[0]).value, steps[1..]);
    }
  }

  // ---- Claims that do not hold ------------------------------------------------------

  /** Extends a run by one step. */
  lemma Then(steps: seq<Step>, s: Sys, t: Step) returns (steps': seq<Step>, s': Sys)
    requires Run(INIT_SYS, steps) == Some(s) && Apply(s, t).Some?
    ensures steps' == steps + [t] && s' == Apply(s, t).value
    ensures Run(INIT_SYS, steps') == Some(s')
  {
    steps', s' := steps + [t], Apply(s, t).value;
    RunAppend(INIT_SYS, steps, t);
  }

  lemma {:induction false} RunAppend(s0: Sys, steps: seq<Step>, t: Step)
    requires Run(s0, steps).Some?
    ensures Run(s0, steps + [t]) == Apply(Run(s0, steps).value, t)
    decreases |steps|
  {
    if steps == [] {
      assert [] + [t] == [t];
      assert [t][1..] == [];
    } else {
      assert (steps + [t])[1..] == steps[1..] + [t];
      RunAppend(Apply(s0, steps[0]).value, steps[1..], t);
    }
  }

  /** A run of a single instance that has reached the state x. */
  ghost predicate Reaches(steps: seq<Step>, x: Inst) {
    Run(INIT_SYS, steps) == Some(Sys(false, [x]))
  }

  lemma Next(steps: seq<Step>, x: Inst, a: InstAct, y: Inst) returns (steps': seq<Step>)
    requires Reaches(steps, x) && InstStep(x, a, false) == Some(y)
    ensures Reaches(steps', y)
  {
    var s: Sys;
    steps', s := Then(steps, Sys(false, [x]), On(0, a));
    assert [x][0 := y] == [y];
  }

  lemma Begin() returns (steps: seq<Step>)
    ensures Reaches(steps, Inst([NEW_LOOP], Starting, 0, 0, Supervised, false))
  {
    var s: Sys;
    steps, s := Then([], INIT_SYS, AddInstance);
    assert [] + [NEW_INST] == [NEW_INST] && [] + [NEW_LOOP] == [NEW_LOOP];
    steps := Next(steps, NEW_INST, Start, Inst([NEW_LOOP], Starting, 0, 0, Supervised, false));
  }

  /** A loop as it is before its first retry. */
  function L(pc: PC, cancelled: bool, child: bool, pid: nat): Loop {
    Loop(pc, cancelled, child, pid, 1, 0, if pid > 0 then 1 else 0, 0)
  }

  /** A probe that answers late overwrites `stopped`: a reachable state with the
      instance halted, its only loop gone, and `running` on record. */
  lemma StoppedIsNotFinal() returns (steps: seq<Step>)
    ensures Reaches(steps, Inst([L(Done, true, false, 0)], Running, 0, 0, Halted, false))
  {
    hide Reaches, Run, Apply;
    var x := Inst([L(Done, true, false, 0)], Stopped, 0, 0, Waiting, false);
    steps := StopAtOnce();
    steps := Next(steps, x, StopClosed, x.(phase := Returning));
    steps := Next(steps, x.(phase := Returning), StopReturn, x.(phase := Halted));
    steps := Next(steps, x.(phase := Halted), Probe(true), x.(phase := Halted, state := Running));
  }

  /** A Stop before the loop has looked at its context for the first time. */
  lemma StopAtOnce() returns (steps: seq<Step>)
    ensures Reaches(steps, Inst([L(Done, true, false, 0)], Stopped, 0, 0, Waiting, false))
  {
    hide Reaches, Run, Apply;
    var x0 := Inst([L(Top, false, false, 0)], Starting, 0, 0, Supervised, false);
    var x1 := x0.(phase := StopCalled);
    var x2 := Inst([L(Top, true, false, 0)], Starting, 0, 0, Waiting, false);
    var x3 := Inst([L(Finishing, true, false, 0)], Starting, 0, 0, Waiting, false);
    var x4 := Inst([L(Closing, true, false, 0)], Stopped, 0, 0, Waiting, false);
    var x5 := Inst([L(Done, true, false, 0)], Stopped, 0, 0, Waiting, false);
    steps := Begin();
    assert x0.loops == [NEW_LOOP];
    steps := Next(steps, x0, StopCall, x1);
    assert x1.loops[0 := x2.loops[0]] == x2.loops;
    steps := Next(steps, x1, StopCancel, x2);
    assert x2.loops[0 := x3.loops[0]] == x3.loops;
    steps := Next(steps, x2, At(0, Go), x3);
    assert x3.loops[0 := x4.loops[0]] == x4.loops;
    steps := Next(steps, x3, At(0, Go), x4);
    assert x4.loops[0 := x5.loops[0]] == x5.loops;
    steps := Next(steps, x4, At(0, Go), x5);
  }

  /** From the start of the current loop to its child being waited for. */
  lemma SpawnCurrent(steps: seq<Step>, earlier: seq<Loop>, timedOut: bool, state: State, pid0: nat, pid: nat)
    returns (steps': seq<Step>)
    requires pid > 0
    requires Reaches(steps, Inst(earlier + [L(Top, false, false, 0)], state, pid0, 0, Supervised, timedOut))
    ensures Reaches(steps', Inst(earlier + [L(Live, false, true, pid)], Running, pid, 0, Supervised, timedOut))
  {
    hide Reaches, Run, Apply;
    var g := |earlier|;
    var x0 := Inst(earlier + [L(Top, false, false, 0)], state, pid0, 0, Supervised, timedOut);
    var x1 := x0.(loops := earlier + [L(Marking, false, false, 0)]);
    var x2 := x0.(loops := earlier + [L(Exec, false, false, 0)], state := Starting);
    var x3 := x2.(loops := earlier + [L(Spawned, false, true, pid)]);
    var x4 := x3.(loops := earlier + [L(Live, false, true, pid)], pid := pid, state := Running);
    assert x0.loops[g := L(Marking, false, false, 0)] == x1.loops;
    steps' := Next(steps, x0, At(g, Go), x1);
    assert x1.loops[g := L(Exec, false, false, 0)] == x2.loops;
    steps' := Next(steps', x1, At(g, Go), x2);
    assert x2.loops[g := L(Spawned, false, true, pid)] == x3.loops;
    steps' := Next(steps', x2, At(g, SpawnOk(pid)), x3);
    assert x3.loops[g := L(Live, false, true, pid)] == x4.loops;
    steps' := Next(steps', x3, At(g, Go), x4);
  }

  /** After a Stop that timed out and a Start, two children of one instance can be
      alive, and the pid field names only the newer one. */
  lemma TimeoutOverlapsChildren(p: nat, q: nat) returns (steps: seq<Step>)
    requires 0 < p && 0 < q
    ensures Reaches(steps, Inst([L(Live, true, true, p), L(Live, false, true, q)], Running, q, 0, Supervised, true))
  {
    hide Reaches, Run, Apply;
    steps := Begin();
    assert [] + [NEW_LOOP] == [L(Top, false, false, 0)];
    steps := SpawnCurrent(steps, [], false, Starting, 0, p);
    var x0 := Inst([L(Live, false, true, p)], Running, p, 0, Supervised, false);
    assert [] + [L(Live, false, true, p)] == x0.loops;
    var x1 := Inst([L(Live, true, true, p)], Running, p, 0, Waiting, false);
    steps := Next(steps, x0, StopCall, x0.(phase := StopCalled));
    assert x0.loops[0 := x1.loops[0]] == x1.loops;
    steps := Next(steps, x0.(phase := StopCalled), StopCancel, x1);
    var x2 := x1.(phase := Returning, timedOut := true);
    steps := Next(steps, x1, StopTimeout, x2);
    var x3 := x2.(phase := Halted, state := Stopped);
    steps := Next(steps, x2, StopReturn, x3);
    var x4 := x3.(loops := x3.loops + [L(Top, false, false, 0)], phase := Supervised);
    steps := Next(steps, x3, Start, x4);
    steps := SpawnCurrent(steps, x3.loops, true, Stopped, p, q);
    assert x3.loops + [L(Live, false, true, q)] == [L(Live, true, true, p), L(Live, false, true, q)];
  }
}
