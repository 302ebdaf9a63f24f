// Swapping a staged directory over the live install with two renames, and
// recovering when the machine stops in between. Renames are atomic; removing a
// directory is not, it may stop half way.
module InstallSwap {

  datatype Slot = Absent | Partial | Complete(version: nat)

  /** The live directory, its backup and the staging directory beside it. */
  datatype Dirs = Dirs(live: Slot, backup: Slot, staging: Slot)

  /** RecoverInstall: put the backup back when nothing is live. */
  function Recover(d: Dirs): Dirs {
    if d.live != Absent then d
    else if d.backup == Absent then d
    else d.(live := d.backup, backup := Absent)
  }

  /** Where Commit is; `Returned` says whether the new install went live. */
  datatype PC =
    | Ready                      // not installing
    | Staged(version: nat)       // staging holds a verified package
    | Recovering                 // Commit's own recovery
    | ClearBackup                // removing an earlier backup
    | MoveAside                  // rename live to backup
    | MoveIn(renamed: bool)      // rename staging to live
    | MoveBack                   // undo after a failed rename

  /** `removing`: the background removal of the last backup is still at work. */
  datatype State = State(dirs: Dirs, pc: PC, removing: bool)

  datatype Action =
    | Stage(version: nat) | StageFails
    | Begin | RecoverStep | RecoverFails
    | ClearSome | ClearAll | ClearFails
    | Aside | AsideFails
    | In | InFails
    | Back | BackFails
    | RemoveSome | RemoveAll
    | CrashAndBoot

  predicate Enabled(s: State, a: Action) {
    match a
    case Stage(_) => s.pc == Ready
    case StageFails => s.pc == Ready
    case Begin => s.pc.Staged?
    case RecoverStep => s.pc == Recovering
    case RecoverFails => s.pc == Recovering && s.dirs.live == Absent && s.dirs.backup != Absent
    case ClearSome => s.pc == ClearBackup && s.dirs.backup != Absent
    case ClearAll => s.pc == ClearBackup
    case ClearFails => s.pc == ClearBackup
    case Aside => s.pc == MoveAside && s.dirs.backup == Absent
    case AsideFails => s.pc == MoveAside
    case In => s.pc.MoveIn? && s.dirs.live == Absent
    case InFails => s.pc.MoveIn?
    case Back => s.pc == MoveBack && s.dirs.live == Absent
    case BackFails => s.pc == MoveBack
    case RemoveSome => s.removing && s.dirs.backup != Absent
    case RemoveAll => s.removing
    case CrashAndBoot => true
  }

  function Do(s: State, a: Action): State
    requires Enabled(s, a)
  {
    var d := s.dirs;
    match a
    case Stage(v) => s.(dirs := d.(staging := Complete(v)), pc := Staged(v))
    case StageFails => s.(dirs := d.(staging := Absent))
    case Begin => s.(pc := Recovering)
    case RecoverStep => s.(dirs := Recover(d), pc := if Recover(d).live != Absent then ClearBackup else MoveIn(false))
    case RecoverFails => s.(pc := Ready)
    case ClearSome => s.(dirs := d.(backup := Partial))
    case ClearAll => s.(dirs := d.(backup := Absent), pc := MoveAside)
    case ClearFails => s.(pc := Ready)
    case Aside => s.(dirs := d.(backup := d.live, live := Absent), pc := MoveIn(true))
    case AsideFails => s.(pc := Ready)
    case In => s.(dirs := d.(live := d.staging, staging := Absent), pc := Ready, removing := s.removing || s.pc.renamed)
    case InFails => s.(pc := if s.pc.renamed then MoveBack else Ready)
    case Back => s.(dirs := d.(live := d.backup, backup := Absent), pc := Ready)
    case BackFails => s.(pc := Ready)
    case RemoveSome => s.(dirs := d.(backup := Partial))
    case RemoveAll => s.(dirs := d.(backup := Absent), removing := false)
    case CrashAndBoot => State(Recover(d), Ready, false)
  }

  /** No background removal is at work when the live directory is moved aside. */
  predicate Clear(s: State, a: Action) { a.Aside? ==> !s.removing }

  /** What a caller can see to: the background removal has finished before the next Commit begins. */
  predicate Orderly(s: State, a: Action) { a.Begin? ==> !s.removing }

  /** A complete install is live, or nothing is live and the backup is complete. */
  predicate Healthy(d: Dirs) {
    d.live.Complete? || (d.live == Absent && d.backup.Complete?)
  }

  /** Healthy, or a machine that never had an install. */
  predicate Sound(d: Dirs) { Healthy(d) || (d.live == Absent && d.backup == Absent) }

  ghost predicate Inv(s: State) {
    && Sound(s.dirs)
    && (s.removing ==> s.dirs.live.Complete? && !s.pc.MoveIn? && s.pc != MoveBack)
    && (s.pc == ClearBackup || s.pc == MoveAside ==> s.dirs.live.Complete?)
    && (s.pc == MoveIn(true) || s.pc == MoveBack ==> s.dirs.live == Absent && s.dirs.backup.Complete?)
    && (s.pc == MoveIn(false) ==> s.dirs.live == Absent && s.dirs.backup == Absent)
    && (s.pc != Ready && s.pc != MoveBack ==> s.dirs.staging.Complete?)
  }

  lemma StepsKeepInv(s: State, a: Action)
    requires Inv(s) && Enabled(s, a) && Clear(s, a)
    ensures Inv(Do(s, a))
    ensures Healthy(s.dirs) || a == In ==> Healthy(Do(s, a).dirs)
  {}

  ghost predicate StepAt(states: seq<State>, actions: seq<Action>, i: nat) {
    i < |actions| && |states| == |actions| + 1
    && Enabled(states[i], actions[i]) && states[i + 1] == Do(states[i], actions[i])
  }

  ghost predicate Run(states: seq<State>, actions: seq<Action>) {
    && |states| == |actions| + 1
    && (forall i :: 0 <= i < |actions| ==> StepAt(states, actions, i))
  }

  ghost predicate ClearAt(states: seq<State>, actions: seq<Action>, i: nat) {
    i < |actions| && |states| == |actions| + 1 && Clear(states[i], actions[i])
  }

  ghost predicate ClearRun(states: seq<State>, actions: seq<Action>) {
    Run(states, actions) && forall i :: 0 <= i < |actions| ==> ClearAt(states, actions, i)
  }

  ghost predicate OrderlyAt(states: seq<State>, actions: seq<Action>, i: nat) {
    i < |actions| && |states| == |actions| + 1 && Orderly(states[i], actions[i])
  }

  ghost predicate OrderlyRun(states: seq<State>, actions: seq<Action>) {
    Run(states, actions) && forall i :: 0 <= i < |actions| ==> OrderlyAt(states, actions, i)
  }

  /**
   * Crash safety over any number of installs, from a fresh start or from any
   * point of an install: the live directory is never partial; and once an
   * install was complete, wherever the machine stops an absent live directory
   * implies a complete backup, and recovery puts a complete install back.
   */
  lemma {:induction false} AlwaysRecoverable(states: seq<State>, actions: seq<Action>, n: nat)
    requires ClearRun(states, actions) && Inv(states[0]) && n < |states|
    ensures forall k :: 0 <= k <= n ==>
              && Inv(states[k]) && states[k].dirs.live != Partial
              && (Healthy(states[0].dirs) ==>
                    && Healthy(states[k].dirs) && Recover(states[k].dirs).live.Complete?
                    && (states[k].dirs.live == Absent ==> states[k].dirs.backup.Complete?))
  {
    if n > 0 {
      AlwaysRecoverable(states, actions, n - 1);
      assert StepAt(states, actions, n - 1) && ClearAt(states, actions, n - 1);
      StepsKeepInv(states[n - 1], actions[n - 1]);
    }
  }

  /** The install in force: what recovery would leave live. */
  function InForce(d: Dirs): Slot { Recover(d).live }

  /**
   * One step at a time the install in force changes only by the rename that
   * moves the staged package in, and then to exactly that package.
   */
  lemma OldOrNew(s: State, a: Action)
    requires Inv(s) && Enabled(s, a)
    ensures InForce(Do(s, a).dirs) == if a == In then s.dirs.staging else InForce(s.dirs)
  {}

  /** Running Commit to a crash at any point leaves the old install or the new one. */
  lemma {:induction false} CommitLeavesOldOrNew(states: seq<State>, actions: seq<Action>, n: nat)
    requires ClearRun(states, actions) && Inv(states[0]) && states[0].pc.Staged? && n < |states|
    requires forall i :: 0 <= i < |actions| ==> !actions[i].Stage? && !actions[i].StageFails?
    ensures InForce(states[n].dirs) == InForce(states[0].dirs) || InForce(states[n].dirs) == states[0].dirs.staging
    ensures states[n].pc != Ready && states[n].pc != MoveBack ==> states[n].dirs.staging == states[0].dirs.staging
  {
    if n > 0 {
      CommitLeavesOldOrNew(states, actions, n - 1);
      AlwaysRecoverable(states, actions, n - 1);
      assert StepAt(states, actions, n - 1);
      OldOrNew(states[n - 1], actions[n - 1]);
    }
  }

  /** Renames move directories about, they neither copy nor lose one. */
  predicate Renames(a: Action) { a.RecoverStep? || a.Aside? || a.In? || a.Back? || a.CrashAndBoot? }

  lemma RenamesMove(s: State, a: Action)
    requires Enabled(s, a) && Renames(a) && (a.Back? ==> s.dirs.live == Absent)
    ensures var d, d' := s.dirs, Do(s, a).dirs;
            multiset{d'.live, d'.backup, d'.staging} == multiset{d.live, d.backup, d.staging}
  {}

  /** When the package staged as version `v` goes in, version `v` is live, whatever happened in between. */
  lemma CommitInstalls(s: State, v: nat, states: seq<State>, actions: seq<Action>, n: nat)
    requires Inv(s) && s.pc == Ready && ClearRun(states, actions) && states[0] == Do(s, Stage(v))
    requires forall i :: 0 <= i < |actions| ==> !actions[i].Stage? && !actions[i].StageFails?
    requires n < |actions| && actions[n] == In
    ensures states[n + 1].dirs.live == Complete(v)
  {
    CommitLeavesOldOrNew(states, actions, n);
    assert StepAt(states, actions, n);
  }

  /** Nothing hindering it, Commit installs the staged package and the removal leaves nothing but that. */
  lemma CommitSucceeds(s: State)
    requires Inv(s) && s.pc.Staged? && !s.removing
    ensures exists states: seq<State>, actions: seq<Action> ::
              OrderlyRun(states, actions) && states[0] == s
              && states[|states| - 1] == State(Dirs(s.dirs.staging, Absent, Absent), Ready, false)
  {
    var states, actions := [s], [];
    states, actions := Extend(states, actions, Begin);
    states, actions := Extend(states, actions, RecoverStep);
    if states[|states| - 1].pc == ClearBackup {
      states, actions := Extend(states, actions, ClearAll);
      states, actions := Extend(states, actions, Aside);
      states, actions := Extend(states, actions, In);
      states, actions := Extend(states, actions, RemoveAll);
    } else {
      states, actions := Extend(states, actions, In);
    }
    assert OrderlyRun(states, actions) && states[0] == s;
  }

  /** When the staged package cannot be moved in, the install moved aside is put back. */
  lemma FailedSwapRestores(s: State)
    requires Inv(s) && s.pc == MoveIn(true)
    ensures var t := Do(s, InFails);
            Enabled(t, Back) && Do(t, Back) == State(Dirs(s.dirs.backup, Absent, s.dirs.staging), Ready, s.removing)
  {}

  /** After a crash at any point the machine comes up with a complete install, if it had one. */
  lemma BootHasInstall(s: State)
    requires Inv(s) && Healthy(s.dirs)
    ensures Do(s, CrashAndBoot).dirs.live.Complete?
  {}

  /** Staging leaves the install and its backup alone, and leaves a complete package or none. */
  lemma StagingApart(s: State, v: nat)
    requires s.pc == Ready
    ensures Do(s, Stage(v)).dirs == s.dirs.(staging := Complete(v))
    ensures Do(s, StageFails).dirs == s.dirs.(staging := Absent)
  {}

  /** Nothing is assumed of the disk: every operation of Commit may fail, removals may stop half way, and the machine may stop anywhere. */
  lemma DiskIsFree(s: State)
    ensures Enabled(s, CrashAndBoot)
    ensures s.pc == Recovering && s.dirs.live == Absent && s.dirs.backup != Absent ==> Enabled(s, RecoverFails)
    ensures s.pc == ClearBackup ==> Enabled(s, ClearFails) && (s.dirs.backup != Absent ==> Enabled(s, ClearSome))
    ensures s.pc == MoveAside ==> Enabled(s, AsideFails)
    ensures s.pc.MoveIn? ==> Enabled(s, InFails)
    ensures s.pc == MoveBack ==> Enabled(s, BackFails)
    ensures s.removing && s.dirs.backup != Absent ==> Enabled(s, RemoveSome)
  {}

  // ---- a background removal that overlaps the next Commit ----

  /** In every continuation that keeps to the rule, wherever it stops, recovery finds a complete install. */
  ghost predicate SafeWhileClear(s: State) {
    forall states: seq<State>, actions: seq<Action> :: ClearRun(states, actions) && states[0] == s ==>
      Recover(states[|states| - 1].dirs).live.Complete?
  }

  ghost predicate SafeWhileOrderly(s: State) {
    forall states: seq<State>, actions: seq<Action> :: OrderlyRun(states, actions) && states[0] == s ==>
      Recover(states[|states| - 1].dirs).live.Complete?
  }

  /** Moving the live install aside is safe exactly when no background removal is still at work. */
  lemma AsideSafeIff(s: State)
    requires Inv(s) && Enabled(s, Aside)
    ensures SafeWhileClear(Do(s, Aside)) <==> !s.removing
  {
    var t := Do(s, Aside);
    if s.removing {
      var states, actions := [t, Do(t, RemoveAll)], [RemoveAll];
      assert StepAt(states, actions, 0) && ClearAt(states, actions, 0);
      assert ClearRun(states, actions) && !Recover(states[1].dirs).live.Complete?;
    } else {
      StepsKeepInv(s, Aside);
      forall states: seq<State>, actions: seq<Action> | ClearRun(states, actions) && states[0] == t
        ensures Recover(states[|states| - 1].dirs).live.Complete?
      {
        AlwaysRecoverable(states, actions, |states| - 1);
      }
    }
  }

  /** Between installs only, which is what starting each Commit after the removal brings about. */
  predicate RemovesIdle(s: State) { s.removing ==> s.pc == Ready || s.pc.Staged? }

  lemma {:induction false} OrderlyIsClear(states: seq<State>, actions: seq<Action>, n: nat)
    requires OrderlyRun(states, actions) && RemovesIdle(states[0]) && n < |states|
    ensures RemovesIdle(states[n])
    ensures forall i :: 0 <= i < n ==> ClearAt(states, actions, i)
  {
    if n > 0 {
      OrderlyIsClear(states, actions, n - 1);
      assert StepAt(states, actions, n - 1) && OrderlyAt(states, actions, n - 1);
    }
  }

  /**
   * Starting a Commit over a healthy install, while later ones keep the order,
   * is safe exactly when the background removal of the last one has finished.
   */
  lemma BeginSafeIff(s: State)
    requires Healthy(s.dirs) && s.pc.Staged? && s.dirs.staging.Complete?
    ensures SafeWhileOrderly(Do(s, Begin)) <==> !s.removing
  {
    var t := Do(s, Begin);
    if s.removing {
      OverlapLosesInstall(t);
    } else {
      forall states: seq<State>, actions: seq<Action> | OrderlyRun(states, actions) && states[0] == t
        ensures Recover(states[|states| - 1].dirs).live.Complete?
      {
        OrderlyIsClear(states, actions, |states| - 1);
        AlwaysRecoverable(states, actions, |states| - 1);
      }
    }
  }

  /** The removal deletes the backup that Commit has just made, and a crash then leaves no install. */
  lemma OverlapLosesInstall(t: State)
    requires Healthy(t.dirs) && t.pc == Recovering && t.removing
    ensures exists states: seq<State>, actions: seq<Action> ::
              OrderlyRun(states, actions) && states[0] == t && !Recover(states[|states| - 1].dirs).live.Complete?
  {
    var states, actions := [t], [];
    states, actions := Extend(states, actions, RecoverStep);
    states, actions := Extend(states, actions, ClearAll);
    states, actions := Extend(states, actions, Aside);
    states, actions := Extend(states, actions, RemoveAll);
    assert OrderlyRun(states, actions) && states[0] == t;
  }

  /** A package is staged over a healthy install while the last removal is at work. */
  predicate Overlapping(s: State) {
    Healthy(s.dirs) && s.pc.Staged? && s.dirs.staging.Complete? && s.removing
  }

  /** It can come to that: after one install over another, the next is staged while the removal is at work. */
  lemma OverlapReached()
    ensures exists states: seq<State>, actions: seq<Action> ::
              OrderlyRun(states, actions) && states[0] == State(Dirs(Complete(1), Absent, Absent), Ready, false)
              && Overlapping(states[|states| - 1])
  {
    var states, actions := [State(Dirs(Complete(1), Absent, Absent), Ready, false)], [];
    states, actions := Extend(states, actions, Stage(2));
    states, actions := Extend(states, actions, Begin);
    states, actions := Extend(states, actions, RecoverStep);
    states, actions := Extend(states, actions, ClearAll);
    states, actions := Extend(states, actions, Aside);
    states, actions := Extend(states, actions, In);
    states, actions := Extend(states, actions, Stage(3));
    assert OrderlyRun(states, actions) && Overlapping(states[|states| - 1]);
  }

  lemma Extend(states: seq<State>, actions: seq<Action>, a: Action)
    returns (states': seq<State>, actions': seq<Action>)
    requires OrderlyRun(states, actions)
    requires Enabled(states[|states| - 1], a) && Orderly(states[|states| - 1], a)
    ensures OrderlyRun(states', actions') && states'[0] == states[0]
    ensures states'[|states'| - 1] == Do(states[|states| - 1], a)
  {
    states', actions' := states + [Do(states[|states| - 1], a)], actions + [a];
    forall i | 0 <= i < |actions'| ensures StepAt(states', actions', i) && OrderlyAt(states', actions', i) {
      assert i < |actions| ==> StepAt(states, actions, i) && OrderlyAt(states, actions, i);
    }
  }
}
