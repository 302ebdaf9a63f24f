// The supervision loop and an install that must swap the directory the loop's
// child process runs from. Two threads share `paused`, `parked` and `cmd`; each
// step below is one critical section or one blocking point of the source.
module Supervisor {

  datatype Child = NoChild | Alive | Exited

  /** Where the supervision loop is. */
  datatype LoopPC =
    | Top            // checking for cancellation
    | Gate           // at the pause gate, holding the lock
    | Parked         // in cond.Wait at the gate
    | Past           // through the gate, lock released
    | Check          // looking for an install
    | Idle           // in cond.Wait because nothing is installed
    | Spawn          // about to start the child
    | Publish        // child started, not yet visible in cmd
    | Starting       // waiting for the port line
    | ReapEarly      // waiting for a child that never got a port
    | ReapAndExit    // terminating the child during shutdown
    | Running        // waiting for the child to exit
    | ReapedEarly    // that child is gone, cmd still to be cleared
    | ReapedExit     // likewise, during shutdown
    | Reaped         // likewise, after a run
    | Cleared        // deciding whether to back off
    | Backoff
    | Gone           // the loop has returned

  /** Where the installer is. `Swap` and `Swapped` remember whether pause returned before its deadline. */
  datatype InstallPC = Waiting | Pausing | Polling | Swap(early: bool) | Swapped(early: bool)

  datatype State = State(
    loop: LoopPC, inst: InstallPC,
    paused: bool, parked: bool, cmd: bool,
    child: Child, cancelled: bool)

  const INITIAL := State(Top, Waiting, false, false, false, NoChild, false)

  datatype Action =
    // the loop
    | TopStep | GateStep | Wake | PastStep | CheckStep(installed: bool) | IdleWake
    | SpawnStep(started: bool) | PublishStep | PortSeen | GiveUp | CancelStart
    | ReapChild | ClearStep | ClearedStep | BackoffDone
    // the installer
    | StartInstall | SetPaused | SeeParked | Deadline | CommitDone | Resume
    // the environment
    | ChildExits | Cancel

  predicate Enabled(s: State, a: Action) {
    match a
    case TopStep => s.loop == Top
    case GateStep => s.loop == Gate
    case Wake => s.loop == Parked
    case PastStep => s.loop == Past
    case CheckStep(_) => s.loop == Check
    case IdleWake => s.loop == Idle
    case SpawnStep(_) => s.loop == Spawn
    case PublishStep => s.loop == Publish
    case PortSeen => s.loop == Starting
    case GiveUp => s.loop == Starting
    case CancelStart => s.loop == Starting && s.cancelled
    case ReapChild => s.child == Exited && (s.loop == Running || s.loop == ReapEarly || s.loop == ReapAndExit)
    case ClearStep => s.loop == Reaped || s.loop == ReapedEarly || s.loop == ReapedExit
    case ClearedStep => s.loop == Cleared
    case BackoffDone => s.loop == Backoff
    case StartInstall => s.inst == Waiting
    case SetPaused => s.inst == Pausing
    case SeeParked => s.inst == Polling && s.parked && !s.cmd
    case Deadline => s.inst == Polling
    case CommitDone => s.inst.Swap?
    case Resume => s.inst.Swapped?
    case ChildExits => s.child == Alive
    case Cancel => true
  }

  function Do(s: State, a: Action): State
    requires Enabled(s, a)
  {
    match a
    case TopStep => s.(loop := if s.cancelled then Gone else Gate)
    case GateStep =>
      if s.paused && !s.cancelled then s.(parked := true, loop := Parked)
      else s.(parked := false, loop := Past)
    case Wake => s.(loop := Gate)
    case PastStep => s.(loop := if s.cancelled then Gone else Check)
    case CheckStep(installed) => if installed then s.(loop := Spawn) else s.(parked := true, loop := Idle)
    case IdleWake => s.(parked := false, loop := Top)
    case SpawnStep(started) => if started then s.(child := Alive, loop := Publish) else s.(loop := Backoff)
    case PublishStep => s.(cmd := true, loop := Starting)
    case PortSeen => s.(loop := Running)
    case GiveUp => s.(loop := ReapEarly)
    case CancelStart => s.(loop := ReapAndExit)
    case ReapChild =>
      s.(child := NoChild,
         loop := if s.loop == Running then Reaped else if s.loop == ReapEarly then ReapedEarly else ReapedExit)
    case ClearStep =>
      s.(cmd := false,
         loop := if s.loop == ReapedEarly then Backoff else if s.loop == ReapedExit || s.cancelled then Gone else Cleared)
    case ClearedStep => s.(loop := if s.paused then Top else Backoff)
    case BackoffDone => s.(loop := Top)
    case StartInstall => s.(inst := Pausing)
    case SetPaused => s.(paused := true, inst := Polling)
    case SeeParked => s.(inst := Swap(true))
    case Deadline => s.(inst := Swap(false))
    case CommitDone => s.(inst := Swapped(s.inst.early))
    case Resume => s.(paused := false, inst := Waiting)
    case ChildExits => s.(child := Exited)
    case Cancel => s.(cancelled := true)
  }

  /** The loop cannot start a child without passing the gate first, or is on its way out. */
  predicate Quiet(s: State) {
    || s.loop == Top || s.loop == Gate || s.loop == Parked || s.loop == Idle || s.loop == Gone
    || (s.loop == Past && s.cancelled)
  }

  predicate HasChild(pc: LoopPC) {
    pc == Publish || pc == Starting || pc == ReapEarly || pc == ReapAndExit || pc == Running
  }

  predicate HasCmd(pc: LoopPC) {
    (HasChild(pc) && pc != Publish) || pc == Reaped || pc == ReapedEarly || pc == ReapedExit
  }

  ghost predicate Inv(s: State) {
    && (s.parked ==> s.loop == Parked || s.loop == Idle || s.loop == Gate)
    && (s.child != NoChild <==> HasChild(s.loop))
    && (s.cmd <==> HasCmd(s.loop))
    && (s.paused <==> s.inst.Polling? || s.inst.Swap? || s.inst.Swapped?)
    && (s.inst == Swap(true) || s.inst == Swapped(true) ==> Quiet(s))
  }

  /** The steps of the loop up to the point where a child is started. */
  predicate GateAction(a: Action) {
    a.TopStep? || a.GateStep? || a.Wake? || a.PastStep? || a.CheckStep? || a.IdleWake?
  }

  lemma GateStepsKeepInv(s: State, a: Action)
    requires Inv(s) && Enabled(s, a) && GateAction(a)
    ensures Inv(Do(s, a))
  {}

  lemma ChildStepsKeepInv(s: State, a: Action)
    requires Inv(s) && Enabled(s, a) && LoopAction(a) && !GateAction(a)
    ensures Inv(Do(s, a))
  {
    match a
    case SpawnStep(_) => case PublishStep => case PortSeen => case GiveUp => case CancelStart =>
    case ClearedStep => case BackoffDone =>
    case _ => ReapStepsKeepInv(s, a);
  }

  lemma ReapStepsKeepInv(s: State, a: Action)
    requires Inv(s) && Enabled(s, a) && (a.ReapChild? || a.ClearStep?)
    ensures Inv(Do(s, a))
  {}

  /** Every step of the loop, the installer and the environment keeps the invariant. */
  lemma StepsKeepInv(s: State, a: Action)
    requires Inv(s) && Enabled(s, a)
    ensures Inv(Do(s, a))
  {
    match a
    case StartInstall => case SetPaused => case SeeParked => case Deadline => case CommitDone => case Resume =>
    case ChildExits => case Cancel =>
    case _ =>
      if GateAction(a) {
        GateStepsKeepInv(s, a);
      } else {
        ChildStepsKeepInv(s, a);
      }
  }

  ghost predicate StepAt(states: seq<State>, actions: seq<Action>, i: nat) {
    i < |actions| && |states| == |actions| + 1
    && Enabled(states[i], actions[i]) && states[i + 1] == Do(states[i], actions[i])
  }

  ghost predicate Run(states: seq<State>, actions: seq<Action>) {
    && |states| == |actions| + 1 && states[0] == INITIAL
    && (forall i :: 0 <= i < |actions| ==> StepAt(states, actions, i))
  }

  lemma {:induction false} RunsKeepInv(states: seq<State>, actions: seq<Action>, n: nat)
    requires Run(states, actions) && n < |states|
    ensures forall k :: 0 <= k <= n ==> Inv(states[k])
  {
    if n > 0 {
      RunsKeepInv(states, actions, n - 1);
      assert StepAt(states, actions, n - 1);
      StepsKeepInv(states[n - 1], actions[n - 1]);
    }
  }

  /**
   * In every interleaving: a parked loop has no child, and from the moment
   * pause returns before its deadline until resume clears `paused`, no child
   * exists and none can be started.
   */
  lemma SwapIsChildFree(states: seq<State>, actions: seq<Action>)
    requires Run(states, actions)
    ensures forall n :: 0 <= n < |states| && states[n].parked ==> states[n].child == NoChild && !states[n].cmd
    ensures forall n :: 0 <= n < |states| && (states[n].inst == Swap(true) || states[n].inst == Swapped(true)) ==>
              states[n].child == NoChild && forall started :: !Enabled(states[n], SpawnStep(started))
  {
    RunsKeepInv(states, actions, |states| - 1);
  }

  // ---- an install that gave up waiting ----

  ghost predicate UnresumedAt(actions: seq<Action>, i: nat) { i < |actions| && actions[i] != Resume }

  /** A continuation from `s` that stays before resume. */
  ghost predicate Unresumed(s: State, states: seq<State>, actions: seq<Action>) {
    && |states| == |actions| + 1 && states[0] == s
    && (forall i :: 0 <= i < |actions| ==> StepAt(states, actions, i))
    && (forall i :: 0 <= i < |actions| ==> UnresumedAt(actions, i))
  }

  /** No child exists at any point until resume, whatever the three threads do. */
  ghost predicate ChildFreeUntilResume(s: State) {
    forall states: seq<State>, actions: seq<Action> :: Unresumed(s, states, actions) ==>
      states[|states| - 1].child == NoChild
  }

  /** No child, and every way to a new one leads through the gate or out. */
  predicate Calm(s: State) {
    && s.child == NoChild && s.loop != Check && s.loop != Spawn
    && (s.loop == Past ==> s.cancelled)
  }

  /** As `Calm`, but the last child may still have to be reaped. */
  predicate Ending(s: State) {
    && s.child != Alive && s.loop != Check && s.loop != Spawn
    && (s.loop == Past ==> s.cancelled)
  }

  lemma StepsStayEnding(s: State, a: Action)
    requires Inv(s) && Ending(s) && s.paused && Enabled(s, a) && a != Resume
    ensures Ending(Do(s, a)) && Do(s, a).paused
    ensures s.child == NoChild ==> Do(s, a).child == NoChild
  {}

  lemma {:induction false} EndingRunsStayEnding(s: State, states: seq<State>, actions: seq<Action>, n: nat)
    requires Inv(s) && Ending(s) && s.paused && Unresumed(s, states, actions) && n < |states|
    ensures forall k :: 0 <= k <= n ==>
              Inv(states[k]) && Ending(states[k]) && states[k].paused
              && (s.child == NoChild ==> states[k].child == NoChild)
  {
    if n > 0 {
      EndingRunsStayEnding(s, states, actions, n - 1);
      assert StepAt(states, actions, n - 1) && UnresumedAt(actions, n - 1);
      StepsStayEnding(states[n - 1], actions[n - 1]);
      StepsKeepInv(states[n - 1], actions[n - 1]);
    }
  }

  /**
   * Past its deadline, pause lets the swap run. Exactly these returns are safe:
   * there is no child, and the loop is not already past the gate on its way to
   * starting one. Neither `parked` nor `cmd` is needed.
   */
  lemma LateSwapSafeIff(s: State)
    requires Inv(s) && s.inst == Polling
    ensures ChildFreeUntilResume(Do(s, Deadline)) <==> Calm(s)
  {
    var t := Do(s, Deadline);
    StepsKeepInv(s, Deadline);
    if Calm(s) {
      forall states: seq<State>, actions: seq<Action> | Unresumed(t, states, actions)
        ensures states[|states| - 1].child == NoChild
      {
        EndingRunsStayEnding(t, states, actions, |states| - 1);
      }
    } else {
      LateSwapMeetsChild(t);
    }
  }

  /** No child is running at any point until resume; one that has exited may be waiting to be reaped. */
  ghost predicate NoneAliveUntilResume(s: State) {
    forall states: seq<State>, actions: seq<Action> :: Unresumed(s, states, actions) ==>
      states[|states| - 1].child != Alive
  }

  /** A late return keeps every running child away from the swap exactly then: a child that has exited does no harm. */
  lemma LateSwapNoneAliveIff(s: State)
    requires Inv(s) && s.inst == Polling
    ensures NoneAliveUntilResume(Do(s, Deadline)) <==> Ending(s)
  {
    var t := Do(s, Deadline);
    StepsKeepInv(s, Deadline);
    if Ending(s) {
      forall states: seq<State>, actions: seq<Action> | Unresumed(t, states, actions)
        ensures states[|states| - 1].child != Alive
      {
        EndingRunsStayEnding(t, states, actions, |states| - 1);
      }
    } else if t.child == Alive {
      assert Unresumed(t, [t], []);
    } else {
      assert t.child == NoChild;
      LateSwapMeetsChild(t);
    }
  }

  /** From any other state at most three steps of the loop lead to a child beside the swap. */
  lemma LateSwapMeetsChild(t: State)
    requires !Calm(t)
    ensures exists states: seq<State>, actions: seq<Action> ::
              Unresumed(t, states, actions) && |actions| <= 3 && states[|states| - 1].child != NoChild
              && (t.child == NoChild ==> states[|states| - 1].child == Alive)
  {
    var states, actions := [t], [];
    if t.child == NoChild {
      var last := t;
      if t.loop == Past {
        states, actions, last := Extend(t, states, actions, PastStep);
      }
      if t.loop != Spawn {
        states, actions, last := Extend(t, states, actions, CheckStep(true));
      }
      states, actions, last := Extend(t, states, actions, SpawnStep(true));
    }
    assert Unresumed(t, states, actions) && |actions| <= 3;
  }

  lemma Extend(s: State, states: seq<State>, actions: seq<Action>, a: Action)
    returns (states': seq<State>, actions': seq<Action>, last: State)
    requires Unresumed(s, states, actions) && a != Resume && Enabled(states[|states| - 1], a)
    ensures Unresumed(s, states', actions')
    ensures last == states'[|states'| - 1] == Do(states[|states| - 1], a) && |actions'| == |actions| + 1
  {
    last := Do(states[|states| - 1], a);
    states', actions' := states + [last], actions + [a];
    forall i | 0 <= i < |actions'| ensures StepAt(states', actions', i) && UnresumedAt(actions', i) {
      assert i < |actions| ==> StepAt(states, actions, i) && UnresumedAt(actions, i);
    }
  }

  /** The condition is not idle: an install can reach its deadline with a live child. */
  lemma LateSwapReached()
    ensures exists states: seq<State>, actions: seq<Action> ::
              Run(states, actions) && states[|states| - 1].inst == Polling && states[|states| - 1].child == Alive
  {
    var states, actions, last := [INITIAL], [], INITIAL;
    states, actions, last := Extend(INITIAL, states, actions, StartInstall);
    states, actions, last := Extend(INITIAL, states, actions, TopStep);
    states, actions, last := Extend(INITIAL, states, actions, GateStep);
    assert last == INITIAL.(inst := Pausing, loop := Past);
    states, actions, last := Extend(INITIAL, states, actions, SetPaused);
    states, actions, last := Extend(INITIAL, states, actions, PastStep);
    states, actions, last := Extend(INITIAL, states, actions, CheckStep(true));
    states, actions, last := Extend(INITIAL, states, actions, SpawnStep(true));
    assert Run(states, actions) && last.inst == Polling && last.child == Alive;
  }

  /** Own steps of the loop left until it parks, once paused with no child left to wait for. */
  function StepsToPark(s: State): nat {
    match s.loop
    case Parked => 0
    case Idle => 0
    case Gone => 0
    case Gate => 2
    case Top => 3
    case Backoff => 4
    case Cleared => 5
    case Reaped => 6
    case ReapedEarly => 6
    case ReapedExit => 6
    case Running => 7
    case ReapEarly => 7
    case ReapAndExit => 7
    case Starting => 8
    case Publish => 9
    case Spawn => 10
    case Check => 11
    case Past => if s.cancelled then 1 else 12
  }

  predicate LoopAction(a: Action) {
    || a.TopStep? || a.GateStep? || a.PastStep? || a.CheckStep? || a.SpawnStep? || a.PublishStep? || a.PortSeen?
    || a.GiveUp? || a.CancelStart? || a.ReapChild? || a.ClearStep? || a.ClearedStep? || a.BackoffDone?
  }

  /** While `paused` is set, every step of the loop's own brings it closer to parking. */
  lemma PausedLoopAdvances(s: State, a: Action)
    requires s.paused && Enabled(s, a) && LoopAction(a)
    ensures StepsToPark(Do(s, a)) < StepsToPark(s)
  {
    match a
    case TopStep => case GateStep => case PastStep => case CheckStep(_) => case SpawnStep(_) =>
    case PublishStep => case PortSeen => case GiveUp => case CancelStart => case ReapChild =>
    case ClearStep => case ClearedStep => case BackoffDone =>
  }

  /** And such a step is possible until it is parked or gone, or waits for a live child to exit. */
  lemma LoopNeverStuck(s: State)
    requires Inv(s) && s.loop != Parked && s.loop != Idle && s.loop != Gone && s.child != Alive
    ensures exists a :: LoopAction(a) && Enabled(s, a)
  {
    var a: Action;
    match s.loop {
      case Top => a := TopStep;
      case Gate => a := GateStep;
      case Past => a := PastStep;
      case Check => a := CheckStep(true);
      case Spawn => a := SpawnStep(true);
      case Publish => a := PublishStep;
      case Starting => a := PortSeen;
      case Cleared => a := ClearedStep;
      case Backoff => a := BackoffDone;
      case Reaped => a := ClearStep;
      case ReapedEarly => a := ClearStep;
      case ReapedExit => a := ClearStep;
      case _ => a := ReapChild;
    }
    assert LoopAction(a) && Enabled(s, a);
  }

  // ---- what the loop does when it is left alone ----

  /** The loop gives up for good only when it was told to, and is on its way there only then. */
  predicate EndsOnlyCancelled(s: State) {
    s.loop == Gone || s.loop == ReapAndExit || s.loop == ReapedExit ==> s.cancelled
  }

  lemma StepsEndOnlyCancelled(s: State, a: Action)
    requires Enabled(s, a) && EndsOnlyCancelled(s)
    ensures EndsOnlyCancelled(Do(s, a))
  {
    match a
    case TopStep => case PastStep => case CancelStart => case ReapChild => case ClearStep =>
    case _ =>
  }

  lemma {:induction false} GoneOnlyCancelled(states: seq<State>, actions: seq<Action>, n: nat)
    requires Run(states, actions) && n < |states|
    ensures EndsOnlyCancelled(states[n])
  {
    if n > 0 {
      GoneOnlyCancelled(states, actions, n - 1);
      assert StepAt(states, actions, n - 1);
      StepsEndOnlyCancelled(states[n - 1], actions[n - 1]);
    }
  }

  /** Steps until a child is running and visible, for a loop that is neither paused nor cancelled. */
  function StepsToRun(s: State): nat {
    match s.loop
    case Running => 0
    case Starting => 1
    case Publish => 2
    case Spawn => 3
    case Check => 4
    case Past => 5
    case Gate => 6
    case Parked => 7
    case Top => 7
    case Idle => 8
    case Backoff => 8
    case Cleared => 9
    case Reaped => 10
    case ReapedEarly => 9
    case ReapEarly => if s.child == Alive then 11 else 10
    case ReapedExit => 0
    case ReapAndExit => 0
    case Gone => 0
  }

  /** A step of the loop, a wake-up of it, or the exit of the child. */
  predicate OwnAction(a: Action) { LoopAction(a) || a.Wake? || a.IdleWake? || a.ChildExits? }

  /** Left alone and with an install in place, the loop gets a child running from wherever it is. */
  lemma UnpausedGetsChild(s: State)
    requires Inv(s) && EndsOnlyCancelled(s) && !s.paused && !s.cancelled && s.loop != Running
    ensures exists a :: Enabled(s, a) && OwnAction(a)
                        && StepsToRun(Do(s, a)) < StepsToRun(s) && !Do(s, a).paused && !Do(s, a).cancelled
  {
    var a: Action;
    match s.loop {
      case Top => a := TopStep;
      case Gate => a := GateStep;
      case Parked => a := Wake;
      case Past => a := PastStep;
      case Check => a := CheckStep(true);
      case Idle => a := IdleWake;
      case Spawn => a := SpawnStep(true);
      case Publish => a := PublishStep;
      case Starting => a := PortSeen;
      case ReapEarly => a := if s.child == Alive then ChildExits else ReapChild;
      case Cleared => a := ClearedStep;
      case Backoff => a := BackoffDone;
      case _ => a := ClearStep;
    }
    assert Enabled(s, a) && OwnAction(a) && StepsToRun(Do(s, a)) < StepsToRun(s);
  }

  /** A running child is alive until it exits, and its command is visible to whoever must stop it. */
  lemma RunningHasChild(states: seq<State>, actions: seq<Action>, n: nat)
    requires Run(states, actions) && n < |states| && (states[n].loop == Running || states[n].loop == Starting)
    ensures states[n].child != NoChild && states[n].cmd
  {
    RunsKeepInv(states, actions, n);
  }

  /** Between a child that did not start, or one that ended unpaused, and the next attempt there is a backoff. */
  predicate BeforeBackoff(pc: LoopPC) {
    || pc == ReapEarly || pc == ReapedEarly || pc == Backoff
  }

  /** An attempt that failed: no process, or one that never named its port. */
  predicate FailedStart(a: Action) { a == SpawnStep(false) || a == GiveUp }

  lemma {:induction false} FailedStartBacksOff(states: seq<State>, actions: seq<Action>, i: nat, n: nat)
    requires Run(states, actions) && i < n < |states| && FailedStart(actions[i])
    requires forall k :: i < k < n ==> NoBackoffAt(actions, k)
    ensures BeforeBackoff(states[n].loop)
    decreases n
  {
    assert StepAt(states, actions, n - 1);
    if i < n - 1 {
      FailedStartBacksOff(states, actions, i, n - 1);
      assert NoBackoffAt(actions, n - 1);
      WaitsForBackoff(states[n - 1], actions[n - 1]);
    }
  }

  ghost predicate NoBackoffAt(actions: seq<Action>, k: nat) { k < |actions| && actions[k] != BackoffDone }

  lemma WaitsForBackoff(s: State, a: Action)
    requires Enabled(s, a) && BeforeBackoff(s.loop) && a != BackoffDone
    ensures BeforeBackoff(Do(s, a).loop)
  {}

  /** After a run the loop backs off, unless it was paused, when it goes straight to its gate; cancelled, it ends. */
  lemma AfterRun(s: State)
    requires Enabled(s, ClearStep) && s.loop == Reaped
    ensures var t := Do(s, ClearStep);
            if s.cancelled then t.loop == Gone
            else Enabled(t, ClearedStep) && Do(t, ClearedStep).loop == if s.paused then Top else Backoff
  {}

  /** Steps until a cancelled loop has ended. */
  function StepsToEnd(s: State): nat {
    match s.loop
    case Gone => 0
    case Top => 1
    case Past => 1
    case Gate => 2
    case ReapedExit => 1
    case Reaped => 1
    case Cleared => 3
    case Backoff => 2
    case ReapedEarly => 3
    case Parked => 3
    case Idle => 2
    case ReapAndExit => if s.child == Alive then 3 else 2
    case Running => if s.child == Alive then 3 else 2
    case ReapEarly => if s.child == Alive then 5 else 4
    case Starting => 4
    case Publish => 5
    case Spawn => 6
    case Check => 7
  }

  /** A cancelled loop can always end: some step, or the exit of the child, brings it closer. */
  lemma CancelledCanEnd(s: State)
    requires Inv(s) && s.cancelled && s.loop != Gone
    ensures exists a :: Enabled(s, a) && OwnAction(a) && StepsToEnd(Do(s, a)) < StepsToEnd(s)
  {
    var a: Action;
    match s.loop {
      case Top => a := TopStep;
      case Gate => a := GateStep;
      case Parked => a := Wake;
      case Past => a := PastStep;
      case Check => a := CheckStep(true);
      case Idle => a := IdleWake;
      case Spawn => a := SpawnStep(true);
      case Publish => a := PublishStep;
      case Starting => a := CancelStart;
      case Cleared => a := ClearedStep;
      case Backoff => a := BackoffDone;
      case Reaped => a := ClearStep;
      case ReapedEarly => a := ClearStep;
      case ReapedExit => a := ClearStep;
      case _ => a := if s.child == Alive then ChildExits else ReapChild;
    }
    assert Enabled(s, a) && OwnAction(a) && StepsToEnd(Do(s, a)) < StepsToEnd(s);
  }

  /** A start that is cancelled leads to the end, without another attempt. */
  lemma CancelledStartEnds(s: State, a: Action)
    requires Enabled(s, a) && (s.loop == ReapAndExit || s.loop == ReapedExit || s.loop == Gone)
    ensures var pc := Do(s, a).loop; pc == ReapAndExit || pc == ReapedExit || pc == Gone
  {}

  /** Cancellation is for good. */
  lemma {:induction false} CancelStays(states: seq<State>, actions: seq<Action>, i: nat, n: nat)
    requires Run(states, actions) && i < n < |states| && actions[i] == Cancel
    ensures states[n].cancelled
    decreases n
  {
    assert StepAt(states, actions, n - 1);
    if i < n - 1 {
      CancelStays(states, actions, i, n - 1);
    }
  }

  /** With the loop parked an install goes through, pause returning early, and leaves all as it was. */
  lemma InstallGoesThrough(s: State)
    requires Inv(s) && s.parked && s.inst == Waiting
    ensures var polling := Do(Do(s, StartInstall), SetPaused);
            && Enabled(polling, SeeParked) && polling.paused
            && var swapping := Do(polling, SeeParked);
               swapping.inst == Swap(true) && Do(Do(swapping, CommitDone), Resume) == s
  {
    var polling := Do(Do(s, StartInstall), SetPaused);
    assert polling == s.(inst := Polling, paused := true);
    var swapping := Do(polling, SeeParked);
    assert swapping == s.(inst := Swap(true), paused := true);
    assert Do(swapping, CommitDone) == s.(inst := Swapped(true), paused := true);
  }

  /** Nothing is assumed of the world: cancellation may come at any time, and a child may never name its port. */
  lemma WorldIsFree(s: State)
    ensures Enabled(s, Cancel) && (s.loop == Starting ==> Enabled(s, GiveUp)) && (s.child == Alive ==> Enabled(s, ChildExits))
  {}
}
