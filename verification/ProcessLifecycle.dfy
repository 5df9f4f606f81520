/**
The core process manager (mihomo/process.go) as an interleaving of atomic sections.

Every lifecycle call (Start, Stop, Restart, quiesce and the delayed restart inside waitProcess)
runs under lifecycleMu, so the state holds one program counter for whoever owns that lock.
Next to it run the children and, for every child, its waitProcess goroutine. Callers that
still queue for the lock carry no state: any of them may enter whenever the lock is free.
One atomic section is one stretch of code under pm.mu, or one system call.
*/
module ProcessLifecycle {
  import opened Wrappers

  /** One spawned core: its *exec.Cmd, pid and done channel. Identities are never reused. */
  type Child = nat

  /** Where the waitProcess goroutine of a child is. The done channel is closed from Closed on. */
  datatype Waiter = Waiting | Closed | Sleeping | Finished

  datatype Origin = Explicit | Revive(of: Child)

  datatype AfterStop = Return | ThenStart

  /** The owner of lifecycleMu, named after the section it executes next. */
  datatype Holder =
    | Free
    | StartEntry(origin: Origin)
    | StartRecheck(origin: Origin)
    | StartSpawn(origin: Origin)
    | StartRecord(origin: Origin, child: Child)
    | StartWatch(origin: Origin, child: Child)
    | StartCleanup(origin: Origin, child: Child)
    | StopEntry(after: AfterStop)
    | StopWaiting(victim: Child, after: AfterStop)
    | StopClearing(victim: Child, after: AfterStop)
    | RestartEntry
    | RestartValidate
    | QuiesceEntry
    | QuiesceMark
    | ReviveCheck(dead: Child)
    | ReviveRunning(dead: Child)
    | ReviveValidate(dead: Child)

  datatype State = State(
    cmd: Option<Child>,
    desired: bool,
    alive: set<Child>,
    waiters: map<Child, Waiter>,
    next: Child,
    holder: Holder)

  datatype Step =
    | EnterStart
    | EnterStop
    | EnterRestart
    | EnterQuiesce
    | EnterRevive(child: Child)
    | Advance(observed: bool)  // the holder runs its next section; the flag is what its test saw
    | Abort                    // the holder's next section fails for a reason outside the manager
    | Exit(child: Child)
    | Reap(child: Child)       // cmd.Wait returned and done is closed
    | Verdict(child: Child)    // waitProcess decides under pm.mu whether to restart

  ghost predicate Init(s: State) {
    s == State(None, false, {}, map[], 0, Free)
  }

  predicate DoneClosed(s: State, c: Child) {
    c in s.waiters && s.waiters[c] != Waiting
  }

  /** What isRunning may answer: never true after done closed, never false for a live child;
      an exited child whose Wait has not returned yet may still look alive. */
  predicate MayObserveRunning(s: State, answer: bool) {
    match s.cmd
    case None => !answer
    case Some(c) => (answer ==> !DoneClosed(s, c)) && (c in s.alive ==> answer)
  }

  predicate Enabled(s: State, step: Step) {
    match step
    case EnterStart | EnterStop | EnterRestart | EnterQuiesce => s.holder == Free
    case EnterRevive(c) => s.holder == Free && c in s.waiters && s.waiters[c] == Sleeping
    case Exit(c) => c in s.alive
    case Reap(c) => c in s.waiters && s.waiters[c] == Waiting && c !in s.alive
    case Verdict(c) => c in s.waiters && s.waiters[c] == Closed
    case Abort => s.holder.StartRecheck? || s.holder.StartSpawn? || s.holder.RestartValidate? || s.holder.ReviveValidate?
    case Advance(observed) =>
      match s.holder
      case Free => false
      case StartEntry(_) | StartRecheck(_) | StopEntry(_) | RestartEntry | QuiesceEntry | ReviveRunning(_) =>
        MayObserveRunning(s, observed)
      case StartWatch(_, c) => observed ==> DoneClosed(s, c)
      case StopWaiting(v, _) => DoneClosed(s, v)
      case _ => true
  }

  function Release(s: State): State {
    s.(holder := Free)
  }

  function Goto(s: State, h: Holder): State {
    s.(holder := h)
  }

  predicate InStart(h: Holder) {
    h.StartEntry? || h.StartRecheck? || h.StartSpawn? || h.StartRecord? || h.StartWatch? || h.StartCleanup?
  }

  predicate InStop(h: Holder) {
    h.StopEntry? || h.StopWaiting? || h.StopClearing?
  }

  /** The sections of start(). */
  function AdvanceStart(s: State, observed: bool): State
    requires Enabled(s, Advance(observed)) && InStart(s.holder)
  {
    match s.holder
    case StartEntry(o) => if observed then Release(s) else Goto(s, StartRecheck(o))
    case StartRecheck(o) => if observed then Release(s) else Goto(s, StartSpawn(o))
    case StartSpawn(o) =>
      s.(alive := s.alive + {s.next}, next := s.next + 1, holder := StartRecord(o, s.next))
    case StartRecord(o, c) =>
      s.(cmd := Some(c), desired := true, waiters := s.waiters[c := Waiting], holder := StartWatch(o, c))
    case StartWatch(o, c) => if observed then Goto(s, StartCleanup(o, c)) else Release(s)
    case StartCleanup(o, c) =>
      if s.cmd == Some(c) then Release(s).(cmd := None, desired := false) else Release(s)
  }

  /** The sections of stop(), which returns to its caller or falls through to Restart's second half. */
  function AdvanceStop(s: State, observed: bool): State
    requires Enabled(s, Advance(observed)) && InStop(s.holder)
  {
    match s.holder
    case StopEntry(after) =>
      if observed then s.(desired := false, holder := StopWaiting(s.cmd.value, after))
      else Release(s).(desired := false)
    case StopWaiting(v, after) => Goto(s, StopClearing(v, after))
    case StopClearing(v, after) =>
      var cleared := if s.cmd == Some(v) then s.(cmd := None) else s;
      if after == Return then Release(cleared) else Goto(cleared, RestartValidate)
  }

  /** The sections of Restart, quiesce and the tail of waitProcess around start() and stop(). */
  function AdvanceCaller(s: State, observed: bool): State
    requires Enabled(s, Advance(observed)) && !InStart(s.holder) && !InStop(s.holder)
  {
    match s.holder
    case RestartEntry => Goto(s, if observed then StopEntry(ThenStart) else RestartValidate)
    case RestartValidate => Goto(s, StartEntry(Explicit))
    case QuiesceEntry => Goto(s, if observed then StopEntry(Return) else QuiesceMark)
    case QuiesceMark => Release(s).(desired := false)
    case ReviveCheck(c) =>
      if s.desired && s.cmd == Some(c) then Goto(s, ReviveRunning(c)) else Release(s)
    case ReviveRunning(c) => if observed then Release(s) else Goto(s, ReviveValidate(c))
    case ReviveValidate(c) => Goto(s, StartEntry(Revive(c)))
  }

  function AdvanceHolder(s: State, observed: bool): State
    requires Enabled(s, Advance(observed))
  {
    if InStart(s.holder) then AdvanceStart(s, observed)
    else if InStop(s.holder) then AdvanceStop(s, observed)
    else AdvanceCaller(s, observed)
  }

  function Apply(s: State, step: Step): State
    requires Enabled(s, step)
  {
    match step
    case EnterStart => Goto(s, StartEntry(Explicit))
    case EnterStop => Goto(s, StopEntry(Return))
    case EnterRestart => Goto(s, RestartEntry)
    case EnterQuiesce => Goto(s, QuiesceEntry)
    case EnterRevive(c) => s.(waiters := s.waiters[c := Finished], holder := ReviveCheck(c))
    case Advance(observed) => AdvanceHolder(s, observed)
    case Abort => Release(s)
    case Exit(c) => s.(alive := s.alive - {c})
    case Reap(c) => s.(waiters := s.waiters[c := Closed])
    case Verdict(c) =>
      s.(waiters := s.waiters[c := if s.desired && s.cmd == Some(c) then Sleeping else Finished])
  }

  /** A run: each step is enabled in the state before it and leads to the state after it. */
  ghost predicate IsRun(states: seq<State>, steps: seq<Step>) {
    && |states| == |steps| + 1
    && Init(states[0])
    && forall i | 0 <= i < |steps| :: Enabled(states[i], steps[i]) && states[i + 1] == Apply(states[i], steps[i])
  }

  // ---------------------------------------------------------------- the inductive invariant

  /** The owner of the lock is past the check that no recorded child is alive. */
  predicate PastCheck(h: Holder) {
    h.StartSpawn? || h.StartRecheck? || h.QuiesceMark? || h.ReviveValidate?
  }

  /** The holder executes the delayed restart of c, past the test that c is still wanted. */
  predicate Reviving(h: Holder, c: Child) {
    || h == ReviveRunning(c)
    || h == ReviveValidate(c)
    || ((h.StartEntry? || h.StartRecheck? || h.StartSpawn? || h.StartRecord? || h.StartWatch? || h.StartCleanup?)
        && h.origin == Revive(c))
  }

  ghost predicate HolderInv(s: State) {
    match s.holder
    case StartRecord(o, c) => c !in s.waiters && c < s.next && s.alive <= {c} && s.cmd != Some(c)
    case StartWatch(_, c) => s.cmd == Some(c)
    case StartCleanup(_, c) => s.cmd == Some(c) && DoneClosed(s, c)
    case StopWaiting(v, _) => s.cmd == Some(v)
    case StopClearing(v, _) => s.cmd == Some(v) && DoneClosed(s, v)
    case _ => true
  }

  ghost predicate Inv(s: State) {
    && (forall c | c in s.alive :: c < s.next)
    && (forall c | c in s.waiters :: c < s.next)
    && (s.cmd.Some? ==> s.cmd.value in s.waiters)
    && (forall c | c in s.alive ::
          (s.cmd == Some(c) && s.waiters[c] == Waiting) || (s.holder.StartRecord? && s.holder.child == c))
    && (PastCheck(s.holder) ==> s.alive == {})
    && HolderInv(s)
  }

  lemma StartKeepsInv(s: State, observed: bool)
    requires Inv(s) && Enabled(s, Advance(observed)) && InStart(s.holder)
    ensures Inv(AdvanceStart(s, observed))
  {
  }

  lemma StopKeepsInv(s: State, observed: bool)
    requires Inv(s) && Enabled(s, Advance(observed)) && InStop(s.holder)
    ensures Inv(AdvanceStop(s, observed))
  {
  }

  lemma CallerKeepsInv(s: State, observed: bool)
    requires Inv(s) && Enabled(s, Advance(observed)) && !InStart(s.holder) && !InStop(s.holder)
    ensures Inv(AdvanceCaller(s, observed))
  {
  }

  lemma StepKeepsInv(s: State, step: Step)
    requires Inv(s) && Enabled(s, step)
    ensures Inv(Apply(s, step))
  {
    match step
    case Advance(observed) =>
      if InStart(s.holder) { StartKeepsInv(s, observed); }
      else if InStop(s.holder) { StopKeepsInv(s, observed); }
      else { CallerKeepsInv(s, observed); }
    case Exit(_) =>
    case Reap(_) =>
    case Verdict(_) =>
    case EnterRevive(_) =>
    case EnterStart | EnterStop | EnterRestart | EnterQuiesce | Abort =>
  }

  lemma {:induction false} RunInv(states: seq<State>, steps: seq<Step>, i: nat)
    requires IsRun(states, steps) && i < |states|
    ensures Inv(states[i])
  {
    if i > 0 {
      RunInv(states, steps, i - 1);
      StepKeepsInv(states[i - 1], steps[i - 1]);
    }
  }

  // ---------------------------------------------------------------- what the lock holder may rely on

  /** The child whose delayed restart the holder is executing, up to the new spawn. */
  function Revived(h: Holder): Option<Child> {
    match h
    case ReviveRunning(c) => Some(c)
    case ReviveValidate(c) => Some(c)
    case StartEntry(o) => if o.Revive? then Some(o.of) else None
    case StartRecheck(o) => if o.Revive? then Some(o.of) else None
    case StartSpawn(o) => if o.Revive? then Some(o.of) else None
    case _ => None
  }

  /** A revival goes on only while its child is recorded and wanted, it never watches that same
      child as its own, and while stop() waits for its victim nobody can want the core back. */
  ghost predicate Intent(s: State) {
    && (Revived(s.holder).Some? ==> s.desired && s.cmd == Revived(s.holder))
    && (s.holder.StartRecord? || s.holder.StartWatch? || s.holder.StartCleanup? ==>
          s.holder.origin.Revive? ==> s.holder.origin.of < s.holder.child)
    && (s.holder.StopWaiting? || s.holder.StopClearing? ==> !s.desired)
  }

  lemma AdvanceKeepsIntent(s: State, observed: bool)
    requires Inv(s) && Intent(s) && Enabled(s, Advance(observed))
    ensures Intent(AdvanceHolder(s, observed))
  {
  }

  lemma StepKeepsIntent(s: State, step: Step)
    requires Inv(s) && Intent(s) && Enabled(s, step)
    ensures Intent(Apply(s, step))
  {
    if step.Advance? {
      AdvanceKeepsIntent(s, step.observed);
    }
  }

  lemma {:induction false} RunIntent(states: seq<State>, steps: seq<Step>, i: nat)
    requires IsRun(states, steps) && i < |states|
    ensures Intent(states[i])
  {
    if i > 0 {
      RunIntent(states, steps, i - 1);
      RunInv(states, steps, i - 1);
      StepKeepsIntent(states[i - 1], steps[i - 1]);
    }
  }

  // ---------------------------------------------------------------- what every run satisfies

  /** Over every interleaving at most one spawned core is alive. */
  lemma AtMostOneChild(states: seq<State>, steps: seq<Step>, i: nat)
    requires IsRun(states, steps) && i < |states|
    ensures |states[i].alive| <= 1
  {
    RunInv(states, steps, i);
    var s := states[i];
    if s.alive != {} {
      var c :| c in s.alive;
      assert s.alive == {c} by {
        forall d | d in s.alive ensures d == c {}
      }
    }
  }

  /** This step spawns a new core process. */
  predicate Spawns(s: State, step: Step) {
    step.Advance? && s.holder.StartSpawn?
  }

  /** This step is the last section of Stop or quiesce, or of a Restart whose stop was refused:
      the call returns, with or without an error. */
  predicate StopReturns(s: State, step: Step) {
    && step.Advance?
    && match s.holder
       case StopClearing(_, after) => after == Return
       case StopEntry(_) => !step.observed
       case QuiesceMark => true
       case _ => false
  }

  predicate ExplicitStart(step: Step) {
    step == EnterStart || step == EnterRestart
  }

  /** Nothing runs, nothing is wanted, and no pending goroutine is past its last look at desired. */
  ghost predicate Quiet(s: State) {
    && s.alive == {}
    && !s.desired
    && (s.holder == Free || s.holder.QuiesceEntry? || s.holder.QuiesceMark? || s.holder.ReviveCheck?
        || (InStop(s.holder) && s.holder.after == Return))
  }

  lemma QuietStep(s: State, step: Step)
    requires Inv(s) && Quiet(s) && Enabled(s, step) && !ExplicitStart(step)
    ensures Quiet(Apply(s, step)) && !Spawns(s, step)
  {
  }

  lemma StopLeavesQuiet(s: State, step: Step)
    requires Inv(s) && Enabled(s, step) && StopReturns(s, step)
    requires s.holder.StopClearing? ==> !s.desired
    ensures Quiet(Apply(s, step))
  {
  }

  /**
   After Stop or quiesce returned, and until somebody explicitly enters Start or Restart, no core
   is alive and no step spawns one: no sleeping waitProcess goroutine can revive the core.
   */
  lemma {:induction false} NoRevivalAfterStop(states: seq<State>, steps: seq<Step>, i: nat, j: nat)
    requires IsRun(states, steps) && i < j < |states|
    requires StopReturns(states[i], steps[i])
    requires forall k | i < k < j :: !ExplicitStart(steps[k])
    ensures states[j].alive == {} && !states[j].desired
    ensures j < |steps| && !ExplicitStart(steps[j]) ==> !Spawns(states[j], steps[j])
    ensures Quiet(states[j])
  {
    RunInv(states, steps, j - 1);
    RunInv(states, steps, j);
    if j == i + 1 {
      RunIntent(states, steps, i);
      StopLeavesQuiet(states[i], steps[i]);
    } else {
      NoRevivalAfterStop(states, steps, i, j - 1);
      QuietStep(states[j - 1], steps[j - 1]);
    }
    if j < |steps| && !ExplicitStart(steps[j]) {
      QuietStep(states[j], steps[j]);
    }
  }

  /** c is no longer recorded and nothing is about to record or revive it. */
  ghost predicate Gone(s: State, c: Child) {
    c < s.next && s.cmd != Some(c) && !Reviving(s.holder, c) && !(s.holder.StartRecord? && s.holder.child == c)
  }

  lemma GoneStep(s: State, step: Step, c: Child)
    requires Inv(s) && Enabled(s, step) && Gone(s, c)
    ensures Gone(Apply(s, step), c)
  {
  }

  /**
   A child that start() saw exiting inside its 500 ms window (start returns the error "exited
   immediately") is never restarted by its waitProcess goroutine, whatever verdict that took.
   */
  lemma {:induction false} EarlyExitNeverRevived(states: seq<State>, steps: seq<Step>, i: nat, j: nat)
    requires IsRun(states, steps) && i < j < |states|
    requires steps[i].Advance? && states[i].holder.StartCleanup?
    ensures Gone(states[j], states[i].holder.child)
    ensures j < |steps| && Spawns(states[j], steps[j]) ==> states[j].holder.origin != Revive(states[i].holder.child)
  {
    RunInv(states, steps, j - 1);
    if j == i + 1 {
      RunIntent(states, steps, i);
    } else {
      EarlyExitNeverRevived(states, steps, i, j - 1);
      GoneStep(states[j - 1], steps[j - 1], states[i].holder.child);
    }
  }

  // ---------------------------------------------------------------- who called

  predicate Entry(step: Step) {
    step.EnterStart? || step.EnterStop? || step.EnterRestart? || step.EnterQuiesce? || step.EnterRevive?
  }

  /** The step that took the lock last. */
  function Caller(steps: seq<Step>, i: nat): Option<Step>
    requires i <= |steps|
  {
    if i == 0 then None else if Entry(steps[i - 1]) then Some(steps[i - 1]) else Caller(steps, i - 1)
  }

  /** The section the owner of the lock is in belongs to the call that took it. */
  ghost predicate Belongs(h: Holder, caller: Option<Step>) {
    match h
    case Free => true
    case StopEntry(after) => caller in (if after == Return then {Some(EnterStop), Some(EnterQuiesce)} else {Some(EnterRestart)})
    case StopWaiting(_, after) => caller in (if after == Return then {Some(EnterStop), Some(EnterQuiesce)} else {Some(EnterRestart)})
    case StopClearing(_, after) => caller in (if after == Return then {Some(EnterStop), Some(EnterQuiesce)} else {Some(EnterRestart)})
    case RestartEntry => caller == Some(EnterRestart)
    case RestartValidate => caller == Some(EnterRestart)
    case QuiesceEntry => caller == Some(EnterQuiesce)
    case QuiesceMark => caller == Some(EnterQuiesce)
    case ReviveCheck(c) => caller == Some(EnterRevive(c))
    case ReviveRunning(c) => caller == Some(EnterRevive(c))
    case ReviveValidate(c) => caller == Some(EnterRevive(c))
    case _ => caller in (match h.origin
                         case Explicit => {Some(EnterStart), Some(EnterRestart)}
                         case Revive(c) => {Some(EnterRevive(c))})
  }

  lemma StepKeepsBelongs(s: State, step: Step, caller: Option<Step>)
    requires Enabled(s, step) && Belongs(s.holder, caller)
    ensures Belongs(Apply(s, step).holder, if Entry(step) then Some(step) else caller)
  {
  }

  lemma {:induction false} RunBelongs(states: seq<State>, steps: seq<Step>, i: nat)
    requires IsRun(states, steps) && i < |states|
    ensures Belongs(states[i].holder, Caller(steps, i))
  {
    if i > 0 {
      RunBelongs(states, steps, i - 1);
      StepKeepsBelongs(states[i - 1], steps[i - 1], Caller(steps, i - 1));
    }
  }

  /**
   Every spawn belongs to a Start or Restart, or replaces the recorded child of the goroutine that took the lock,
   after that child's death and while it is still wanted.
   */
  lemma SpawnIsJustified(states: seq<State>, steps: seq<Step>, i: nat)
    requires IsRun(states, steps) && i < |steps| && Spawns(states[i], steps[i])
    ensures states[i].alive == {}
    ensures Caller(steps, i) in {Some(EnterStart), Some(EnterRestart)}
            || (states[i].desired && states[i].cmd.Some? && Caller(steps, i) == Some(EnterRevive(states[i].cmd.value)))
  {
    RunInv(states, steps, i);
    RunIntent(states, steps, i);
    RunBelongs(states, steps, i);
  }

  /** Whenever Stop or quiesce gives the lock back, nothing is alive or wanted, and NoRevivalAfterStop holds from there. */
  lemma StopMeansStopped(states: seq<State>, steps: seq<Step>, i: nat)
    requires IsRun(states, steps) && i < |steps|
    requires states[i].holder != Free && states[i + 1].holder == Free
    requires Caller(steps, i) in {Some(EnterStop), Some(EnterQuiesce)}
    ensures StopReturns(states[i], steps[i])
    ensures states[i + 1].alive == {} && !states[i + 1].desired
  {
    RunInv(states, steps, i);
    RunIntent(states, steps, i);
    RunBelongs(states, steps, i);
    StopLeavesQuiet(states[i], steps[i]);
  }

  /** A waitProcess goroutine that found its child unwanted or replaced never restarts anything. */
  lemma {:induction false} VerdictIsFinal(states: seq<State>, steps: seq<Step>, c: Child, i: nat, j: nat)
    requires IsRun(states, steps) && i < j < |states| && steps[i] == Verdict(c)
    requires !states[i].desired || states[i].cmd != Some(c)
    ensures c in states[j].waiters && states[j].waiters[c] == Finished
    ensures j < |steps| ==> steps[j] != EnterRevive(c)
  {
    if j > i + 1 {
      VerdictIsFinal(states, steps, c, i, j - 1);
      FinishedStays(states, steps, c, j - 1);
    }
  }

  /** It restarts at most once. */
  lemma {:induction false} RevivesOnce(states: seq<State>, steps: seq<Step>, c: Child, i: nat, j: nat)
    requires IsRun(states, steps) && i < j < |states| && steps[i] == EnterRevive(c)
    ensures c in states[j].waiters && states[j].waiters[c] == Finished
    ensures j < |steps| ==> steps[j] != EnterRevive(c)
  {
    if j > i + 1 {
      RevivesOnce(states, steps, c, i, j - 1);
      FinishedStays(states, steps, c, j - 1);
    }
  }

  lemma FinishedStays(states: seq<State>, steps: seq<Step>, c: Child, i: nat)
    requires IsRun(states, steps) && i < |steps| && c in states[i].waiters && states[i].waiters[c] == Finished
    ensures c in states[i + 1].waiters && states[i + 1].waiters[c] == Finished
  {
    RunInv(states, steps, i);
  }
}
