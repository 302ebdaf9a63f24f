// Watching a session daemon: a goroutine that dials, reads, reconnects and calls
// back, and a stop function that must not return before all of that has ended.
// Each step is one critical section or one blocking point of either side.
module Watch {

  datatype Callback = Unreachable(bad: bool) | Exit

  /** Where the goroutine goes after a callback. */
  datatype After = ToReading | ToReconnect | ToDone

  datatype PC =
    | Dial                              // first dialling, retried until a deadline
    | FirstPublish                      // first connection made, not yet published
    | DeadlineCheck                     // first dialling given up, process to be checked
    | Reading                           // holding the connection
    | StopCheck                         // a frame was read, stop to be checked
    | LostCheck                         // connection lost and closed, process to be checked
    | Entering(cb: Callback, next: After) // about to call back
    | Inside(cb: Callback, next: After)   // the callback is running
    | Reconnect                         // waiting before the next dial
    | RedialFailed                      // that dial failed, process to be checked
    | SecondPublish                     // reconnected, not yet published
    | MatchCheck                        // published, identity to be verified
    | Done

  datatype StopPC = NotStopped | Suppressed | Marked | Signalled | Waited | Returned

  datatype State = State(
    pc: PC, stop: StopPC,
    suppress: bool, stopping: bool, stopCh: bool,
    conn: bool,        // the goroutine holds a connection
    open: bool,        // that connection is open
    active: bool,      // it is the published one
    alive: bool,       // the watched process
    log: seq<Callback>)

  datatype Action =
    // the goroutine
    | DialStop | DialOk | DialFail | DialDeadline
    | PublishFirst | CheckDeadline
    | ReadOk | ReadError | CheckStop | CheckLost
    | Enter | Leave
    | ReconnectStop | RedialOk | RedialFail | CheckRedial
    | PublishSecond | Match | Mismatch
    // stop()
    | Suppress | Mark | Signal | WaitLoop | WaitCallbacks
    // the world
    | ProcessDies

  predicate Enabled(s: State, a: Action) {
    match a
    case DialStop => s.pc == Dial && s.stopCh
    case DialOk => s.pc == Dial
    case DialFail => s.pc == Dial
    case DialDeadline => s.pc == Dial
    case PublishFirst => s.pc == FirstPublish
    case CheckDeadline => s.pc == DeadlineCheck
    case ReadOk => s.pc == Reading && s.open
    case ReadError => s.pc == Reading
    case CheckStop => s.pc == StopCheck
    case CheckLost => s.pc == LostCheck
    case Enter => s.pc.Entering?
    case Leave => s.pc.Inside?
    case ReconnectStop => s.pc == Reconnect && s.stopCh
    case RedialOk => s.pc == Reconnect
    case RedialFail => s.pc == Reconnect
    case CheckRedial => s.pc == RedialFailed
    case PublishSecond => s.pc == SecondPublish
    case Match => s.pc == MatchCheck
    case Mismatch => s.pc == MatchCheck
    case Suppress => s.stop == NotStopped
    case Mark => s.stop == Suppressed
    case Signal => s.stop == Marked
    case WaitLoop => s.stop == Signalled && s.pc == Done
    case WaitCallbacks => s.stop == Waited && !s.pc.Inside?
    case ProcessDies => s.alive
  }

  function Next(after: After): PC {
    match after
    case ToReading => Reading
    case ToReconnect => Reconnect
    case ToDone => Done
  }

  /** Publish the connection, unless stop() came first: then close it and return. */
  function Publish(s: State, next: PC): State {
    if s.stopping then s.(conn := false, open := false, pc := Done) else s.(active := true, pc := next)
  }

  /** Close the connection and withdraw it. */
  function Drop(s: State, next: PC): State {
    s.(conn := false, open := false, active := false, pc := next)
  }

  /** Report an exit if the process is gone, else go on. */
  function CheckProcess(s: State, otherwise: PC): State {
    s.(pc := if !s.alive then Entering(Exit, ToDone) else otherwise)
  }

  function Do(s: State, a: Action): State
    requires Enabled(s, a)
  {
    match a
    case DialStop => s.(pc := Done)
    case DialOk => s.(conn := true, open := true, pc := FirstPublish)
    case DialFail => s
    case DialDeadline => s.(pc := DeadlineCheck)
    case PublishFirst => Publish(s, Reading)
    case CheckDeadline => CheckProcess(s, Entering(Unreachable(true), ToReconnect))
    case ReadOk => s.(pc := StopCheck)
    case ReadError => Drop(s, LostCheck)
    case CheckStop => if s.stopCh then Drop(s, Done) else s.(pc := Reading)
    case CheckLost => CheckProcess(s, Entering(Unreachable(true), ToReconnect))
    case Enter =>
      if s.suppress then s.(pc := Next(s.pc.next))
      else s.(log := s.log + [s.pc.cb], pc := Inside(s.pc.cb, s.pc.next))
    case Leave => s.(pc := Next(s.pc.next))
    case ReconnectStop => s.(pc := Done)
    case RedialOk => s.(conn := true, open := true, pc := SecondPublish)
    case RedialFail => s.(pc := RedialFailed)
    case CheckRedial => CheckProcess(s, Reconnect)
    case PublishSecond => Publish(s, MatchCheck)
    case Match => s.(pc := Entering(Unreachable(false), ToReading))
    case Mismatch => Drop(s, Reconnect)
    case Suppress => s.(suppress := true, stop := Suppressed)
    case Mark => s.(stopping := true, open := s.open && !s.active, active := false, stop := Marked)
    case Signal => s.(stopCh := true, stop := Signalled)
    case WaitLoop => s.(stop := Waited)
    case WaitCallbacks => s.(stop := Returned)
    case ProcessDies => s.(alive := false)
  }

  const INITIAL := State(Dial, NotStopped, false, false, false, false, false, false, true, [])

  /** Callbacks alternate unreachable, reachable, unreachable, ...; an exit ends the sequence. */
  ghost predicate Ordered(log: seq<Callback>) {
    && (forall i :: 0 <= i < |log| && log[i].Unreachable? ==> log[i].bad == (i % 2 == 0))
    && (forall i :: 0 <= i < |log| && log[i].Exit? ==> i == |log| - 1)
  }

  /** Whether the next report would be of an unreachable session. */
  predicate SeenReachable(pc: PC) {
    match pc
    case Dial => true
    case FirstPublish => true
    case DeadlineCheck => true
    case Reading => true
    case StopCheck => true
    case LostCheck => true
    case Entering(cb, _) => cb.Unreachable? && cb.bad
    case Inside(cb, _) => cb.Unreachable? && !cb.bad
    case _ => false
  }

  predicate ProperCall(cb: Callback, next: After) {
    match cb
    case Exit => next == ToDone
    case Unreachable(bad) => next == if bad then ToReconnect else ToReading
  }

  predicate Holding(pc: PC) {
    || pc == FirstPublish || pc == Reading || pc == StopCheck || pc == SecondPublish || pc == MatchCheck
    || (pc.Entering? && pc.next == ToReading) || (pc.Inside? && pc.next == ToReading)
  }

  predicate Exiting(pc: PC) {
    (pc.Entering? && pc.cb.Exit?) || (pc.Inside? && pc.cb.Exit?)
  }

  ghost predicate LogInv(s: State) {
    && Ordered(s.log)
    && (Exit in s.log ==> (s.pc.Inside? && s.pc.cb.Exit?) || s.pc == Done)
    && (s.pc.Inside? && s.pc.cb.Exit? ==> Exit in s.log)
    && (Exit in s.log || Exiting(s.pc) ==> !s.alive)
    && (!s.suppress && s.pc != Done && !Exiting(s.pc) ==> (SeenReachable(s.pc) <==> |s.log| % 2 == 0))
    && (s.pc == Done && !s.suppress ==> Exit in s.log)
    && (s.pc.Entering? ==> ProperCall(s.pc.cb, s.pc.next))
    && (s.pc.Inside? ==> ProperCall(s.pc.cb, s.pc.next))
  }

  ghost predicate ConnInv(s: State) {
    && (s.conn <==> Holding(s.pc))
    && (s.open ==> s.conn)
    && (s.active ==> s.conn && !s.stopping)
    && (s.conn && !s.stopping && s.pc != FirstPublish && s.pc != SecondPublish ==> s.active)
    && (s.open && s.stopping ==> s.pc == FirstPublish || s.pc == SecondPublish)
    && (s.pc == FirstPublish || s.pc == SecondPublish ==> !s.active)
  }

  predicate StopInv(s: State) {
    && (s.suppress <==> s.stop != NotStopped)
    && (s.stopping <==> s.stop != NotStopped && s.stop != Suppressed)
    && (s.stopCh ==> s.stopping)
    && (s.stop == Waited || s.stop == Returned ==> s.pc == Done)
  }

  ghost predicate Inv(s: State) { LogInv(s) && ConnInv(s) && StopInv(s) }

  lemma OrderedNext(log: seq<Callback>, cb: Callback)
    requires Ordered(log) && Exit !in log
    requires cb.Unreachable? ==> cb.bad == (|log| % 2 == 0)
    ensures Ordered(log + [cb])
  {
    forall i | 0 <= i < |log| ensures log[i] != Exit {
      assert log[i] in log;
    }
  }

  lemma EnterKeepsLog(s: State)
    requires LogInv(s) && s.pc.Entering?
    ensures LogInv(Do(s, Enter))
  {
    if !s.suppress {
      OrderedNext(s.log, s.pc.cb);
    }
  }

  /** The steps up to the first published connection and those of reading from one. */
  predicate EarlyAction(a: Action) {
    || a.DialStop? || a.DialOk? || a.DialFail? || a.DialDeadline? || a.PublishFirst? || a.CheckDeadline?
    || a.ReadOk? || a.ReadError? || a.CheckStop? || a.CheckLost?
  }

  lemma EarlyLogKept(s: State, a: Action)
    requires LogInv(s) && StopInv(s) && Enabled(s, a) && EarlyAction(a)
    ensures LogInv(Do(s, a))
  {
    match a
    case DialStop => case DialOk => case DialFail => case DialDeadline => case PublishFirst => case CheckDeadline =>
    case ReadOk => case ReadError => case CheckStop => case CheckLost =>
  }

  lemma LogKept(s: State, a: Action)
    requires LogInv(s) && StopInv(s) && Enabled(s, a)
    ensures LogInv(Do(s, a))
  {
    match a
    case Enter => EnterKeepsLog(s);
    case Leave =>
    case ReconnectStop => case RedialOk => case RedialFail => case CheckRedial =>
    case PublishSecond => case Match => case Mismatch =>
    case Suppress => case Mark => case Signal => case WaitLoop => case WaitCallbacks => case ProcessDies =>
    case _ => EarlyLogKept(s, a);
  }

  lemma EarlyConnKept(s: State, a: Action)
    requires ConnInv(s) && StopInv(s) && Enabled(s, a) && EarlyAction(a)
    ensures ConnInv(Do(s, a)) && StopInv(Do(s, a))
  {
    match a
    case DialStop => case DialOk => case DialFail => case DialDeadline => case PublishFirst => case CheckDeadline =>
    case ReadOk => case ReadError => case CheckStop => case CheckLost =>
  }

  lemma ConnKept(s: State, a: Action)
    requires ConnInv(s) && StopInv(s) && Enabled(s, a)
    ensures ConnInv(Do(s, a)) && StopInv(Do(s, a))
  {
    match a
    case Enter => case Leave =>
    case ReconnectStop => case RedialOk => case RedialFail => case CheckRedial =>
    case PublishSecond => case Match => case Mismatch =>
    case Suppress => case Mark => case Signal => case WaitLoop => case WaitCallbacks => case ProcessDies =>
    case _ => EarlyConnKept(s, a);
  }

  lemma StepsKeepInv(s: State, a: Action)
    requires Inv(s) && Enabled(s, a)
    ensures Inv(Do(s, a))
  {
    LogKept(s, a);
    ConnKept(s, a);
  }

  ghost predicate StepAt(states: seq<State>, actions: seq<Action>, i: nat) {
    i < |actions| && |states| == |actions| + 1
    && Enabled(states[i], actions[i]) && states[i + 1] == Do(states[i], actions[i])
  }

  ghost predicate Run(states: seq<State>, actions: seq<Action>) {
    && |states| == |actions| + 1 && states[0] == INITIAL
    && (forall i :: 0 <= i < |actions| ==> StepAt(states, actions, i))
  }

  lemma {:induction false} RunsKeepInv(states: seq<State>, actions: seq<Action>, n: nat)
    requires Run(states, actions) && n < |states|
    ensures forall k :: 0 <= k <= n ==> Inv(states[k])
  {
    if n > 0 {
      RunsKeepInv(states, actions, n - 1);
      assert StepAt(states, actions, n - 1);
      StepsKeepInv(states[n - 1], actions[n - 1]);
    }
  }

  /**
   * In every interleaving of the watch, stop() and the process: the callbacks
   * made alternate between unreachable and reachable, starting with
   * unreachable; an exit is reported at most once, as the last of them, and
   * only when the process is dead. Nothing is left unreported either: until
   * stop() suppresses them, the last report agrees with what the goroutine
   * knows, and it ends only after reporting the exit.
   */
  lemma CallbacksOrdered(states: seq<State>, actions: seq<Action>)
    requires Run(states, actions)
    ensures forall n :: 0 <= n < |states| ==>
              var s := states[n];
              && Ordered(s.log)
              && (Exit in s.log ==> !s.alive)
              && (!s.suppress && s.pc == Reading ==> |s.log| % 2 == 0)
              && (!s.suppress && s.pc == Reconnect ==> |s.log| % 2 == 1)
              && (!s.suppress && s.pc == Done ==> Exit in s.log)
  {
    RunsKeepInv(states, actions, |states| - 1);
  }

  /**
   * Once stop() has returned the goroutine has ended, no callback is running,
   * no connection is open, and nothing of this ever changes again.
   */
  lemma {:induction false} StopIsFinal(states: seq<State>, actions: seq<Action>, n: nat, m: nat)
    requires Run(states, actions) && n <= m < |states| && states[n].stop == Returned
    ensures forall k :: n <= k <= m ==>
              states[k].stop == Returned && states[k].pc == Done && !states[k].open && !states[k].active
              && states[k].log == states[n].log
    decreases m
  {
    RunsKeepInv(states, actions, m);
    if n < m {
      assert StepAt(states, actions, m - 1);
      StopIsFinal(states, actions, n, m - 1);
      RunsKeepInv(states, actions, m - 1);
    }
  }

  lemma SilentStep(s: State, a: Action)
    requires Enabled(s, a) && s.suppress
    ensures Do(s, a).suppress && Do(s, a).log == s.log
  {
    match a
    case Enter =>
    case CheckDeadline => case CheckLost => case CheckRedial => case PublishFirst => case PublishSecond =>
    case _ =>
  }

  /** From the suppression on no callback is admitted; at most one admitted before is still running. */
  lemma {:induction false} SuppressedIsSilent(states: seq<State>, actions: seq<Action>, n: nat, m: nat)
    requires Run(states, actions) && n <= m < |states| && states[n].suppress
    ensures states[m].suppress && states[m].log == states[n].log
    decreases m
  {
    if n < m {
      SuppressedIsSilent(states, actions, n, m - 1);
      assert StepAt(states, actions, m - 1);
      SilentStep(states[m - 1], actions[m - 1]);
    }
  }

  // ---- an exit is reported, and stop() can return ----

  predicate ChecksProcess(a: Action) { a.CheckDeadline? || a.CheckLost? || a.CheckRedial? }

  /** An exit is about to be reported, or has been. */
  predicate ExitDue(s: State) { Exit in s.log || s.pc == Entering(Exit, ToDone) }

  lemma ExitStaysDue(s: State, a: Action)
    requires Inv(s) && Enabled(s, a) && ExitDue(s) && !Do(s, a).suppress
    ensures ExitDue(Do(s, a))
  {}

  lemma SuppressStays(s: State, a: Action)
    requires Enabled(s, a) && !Do(s, a).suppress
    ensures !s.suppress
  {
    if s.suppress {
      SilentStep(s, a);
    }
  }

  /** A process found dead at any of the three checks is reported as exited, unless stop() comes first. */
  lemma {:induction false} DeathIsReported(states: seq<State>, actions: seq<Action>, i: nat, n: nat)
    requires Run(states, actions) && i < n < |states|
    requires ChecksProcess(actions[i]) && !states[i].alive && !states[n].suppress
    ensures ExitDue(states[n])
    decreases n
  {
    assert StepAt(states, actions, n - 1);
    if i < n - 1 {
      SuppressStays(states[n - 1], actions[n - 1]);
      DeathIsReported(states, actions, i, n - 1);
      RunsKeepInv(states, actions, n - 1);
      ExitStaysDue(states[n - 1], actions[n - 1]);
    }
  }

  predicate WatchAction(a: Action) {
    EarlyAction(a) || a.Enter? || a.Leave? || a.ReconnectStop? || a.RedialOk? || a.RedialFail? || a.CheckRedial?
    || a.PublishSecond? || a.Match? || a.Mismatch?
  }

  /** The goroutine's next step then makes the report. */
  lemma DueExitIsNext(s: State, a: Action)
    requires Enabled(s, a) && WatchAction(a) && s.pc == Entering(Exit, ToDone) && !s.suppress
    ensures Do(s, a).log == s.log + [Exit]
  {}

  /** And a live process is not reported: the checks go on with the reports of an unreachable session. */
  lemma LiveProcessGoesOn(s: State, a: Action)
    requires Enabled(s, a) && ChecksProcess(a) && s.alive
    ensures Do(s, a).pc == if a.CheckRedial? then Reconnect else Entering(Unreachable(true), ToReconnect)
  {
    match a
    case CheckDeadline => case CheckLost => case CheckRedial =>
  }

  /** Steps left to the end once stop() has signalled. */
  function StepsToDone(s: State): nat {
    match s.pc
    case Done => 0
    case Inside(_, ToDone) => 1
    case Entering(_, ToDone) => 2
    case Dial => 1
    case FirstPublish => 1
    case SecondPublish => 1
    case Reconnect => 1
    case StopCheck => 1
    case RedialFailed => 3
    case Inside(_, ToReconnect) => 2
    case Entering(_, ToReconnect) => 3
    case DeadlineCheck => 4
    case LostCheck => 4
    case Reading => 5
    case Inside(_, ToReading) => 6
    case Entering(_, ToReading) => 7
    case MatchCheck => 8
  }

  /** stop() can always return: while it waits for the goroutine, some step of that brings the end closer. */
  lemma StopEndsWatch(s: State)
    requires Inv(s) && s.stopCh && s.pc != Done
    ensures exists a :: WatchAction(a) && Enabled(s, a) && StepsToDone(Do(s, a)) < StepsToDone(s)
  {
    var a: Action;
    match s.pc {
      case Dial => a := DialStop;
      case FirstPublish => a := PublishFirst;
      case SecondPublish => a := PublishSecond;
      case Reconnect => a := ReconnectStop;
      case StopCheck => a := CheckStop;
      case Reading => a := if s.open then ReadOk else ReadError;
      case RedialFailed => a := CheckRedial;
      case DeadlineCheck => a := CheckDeadline;
      case LostCheck => a := CheckLost;
      case MatchCheck => a := Match;
      case Inside(_, _) => a := Leave;
      case Entering(_, _) => a := Enter;
    }
    assert WatchAction(a) && Enabled(s, a) && StepsToDone(Do(s, a)) < StepsToDone(s);
  }

  /** How far stop() has come. */
  function StopRank(p: StopPC): nat {
    match p
    case NotStopped => 0 case Suppressed => 1 case Marked => 2 case Signalled => 3 case Waited => 4 case Returned => 5
  }

  /** stop() goes on step by step; it only waits for the goroutine to end. */
  lemma StopGoesOn(s: State)
    requires Inv(s) && s.stop != Returned && (s.stop == Signalled ==> s.pc == Done)
    ensures exists a :: Enabled(s, a) && StopRank(Do(s, a).stop) == StopRank(s.stop) + 1
                        && (s.stop == Marked ==> Do(s, a).stopCh)
  {
    var a: Action;
    match s.stop {
      case NotStopped => a := Suppress;
      case Suppressed => a := Mark;
      case Marked => a := Signal;
      case Signalled => a := WaitLoop;
      case Waited => a := WaitCallbacks;
    }
    assert Enabled(s, a) && StopRank(Do(s, a).stop) == StopRank(s.stop) + 1;
  }

  lemma Extend(s: State, states: seq<State>, actions: seq<Action>, a: Action)
    returns (states': seq<State>, actions': seq<Action>)
    requires RunFrom(s, states, actions) && Enabled(states[|states| - 1], a)
    ensures RunFrom(s, states', actions') && states'[|states'| - 1] == Do(states[|states| - 1], a)
  {
    states', actions' := states + [Do(states[|states| - 1], a)], actions + [a];
    forall i | 0 <= i < |actions'| ensures StepAt(states', actions', i) {
      assert i < |actions| ==> StepAt(states, actions, i);
    }
  }

  /** A continuation. */
  ghost predicate RunFrom(s: State, states: seq<State>, actions: seq<Action>) {
    && |states| == |actions| + 1 && states[0] == s
    && (forall i :: 0 <= i < |actions| ==> StepAt(states, actions, i))
  }

  ghost predicate CanReach(s: State, t: State) {
    exists states: seq<State>, actions: seq<Action> :: RunFrom(s, states, actions) && states[|states| - 1] == t
  }

  /** The first connection is read from without a report, and reading goes on frame after frame. */
  lemma FirstConnectionIsRead(s: State)
    requires Inv(s) && s.pc == Dial && s.stop == NotStopped
    ensures var t := s.(pc := Reading, conn := true, open := true, active := true);
            CanReach(s, t) && Enabled(t, ReadOk) && Enabled(Do(t, ReadOk), CheckStop) && Do(Do(t, ReadOk), CheckStop) == t
  {
    var states, actions := [s], [];
    states, actions := Extend(s, states, actions, DialOk);
    states, actions := Extend(s, states, actions, PublishFirst);
    assert RunFrom(s, states, actions);
  }

  /** A session that comes back is reported reachable and read from again. */
  lemma ReturnIsReported(s: State)
    requires Inv(s) && s.pc == Reconnect && s.stop == NotStopped
    ensures CanReach(s, s.(pc := Reading, conn := true, open := true, active := true, log := s.log + [Unreachable(false)]))
  {
    var states, actions := [s], [];
    states, actions := Extend(s, states, actions, RedialOk);
    states, actions := Extend(s, states, actions, PublishSecond);
    states, actions := Extend(s, states, actions, Match);
    states, actions := Extend(s, states, actions, Enter);
    states, actions := Extend(s, states, actions, Leave);
    assert RunFrom(s, states, actions);
  }

  /** A process that died is found out at the next failure to dial or read, and its exit reported. */
  lemma DeathIsFound(s: State)
    requires Inv(s) && !s.alive && s.stop == NotStopped && (s.pc == Dial || s.pc == Reading || s.pc == Reconnect)
    ensures CanReach(s, s.(pc := Done, conn := false, open := false, active := false, log := s.log + [Exit]))
  {
    var states, actions := [s], [];
    if s.pc == Dial {
      states, actions := Extend(s, states, actions, DialDeadline);
      states, actions := Extend(s, states, actions, CheckDeadline);
    } else if s.pc == Reading {
      states, actions := Extend(s, states, actions, ReadError);
      states, actions := Extend(s, states, actions, CheckLost);
    } else {
      states, actions := Extend(s, states, actions, RedialFail);
      states, actions := Extend(s, states, actions, CheckRedial);
    }
    states, actions := Extend(s, states, actions, Enter);
    states, actions := Extend(s, states, actions, Leave);
    assert RunFrom(s, states, actions);
  }

  /** Nothing is assumed of the world: dials and reads may fail, another process may answer, and the watched one may die at any time. */
  lemma WorldIsFree(s: State)
    ensures s.alive ==> Enabled(s, ProcessDies)
    ensures s.pc == Dial ==> Enabled(s, DialFail) && Enabled(s, DialDeadline)
    ensures s.pc == Reading ==> Enabled(s, ReadError)
    ensures s.pc == Reconnect ==> Enabled(s, RedialFail)
    ensures s.pc == MatchCheck ==> Enabled(s, Mismatch)
  {}
}
