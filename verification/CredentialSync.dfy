/**
Service.SyncCredentials racing with a core update job (mihomo/core_update.go).

A committed user or binding change must reach the core configuration although ApplyConfig
refuses while a job runs. A call that meets a running job leaves its callback in the one-slot
field pendingCredentials; finishCoreUpdate takes the slot in the critical section that ends the
job and then becomes a caller itself. Each step below is one critical section under u.mu, one
database snapshot, or one commit, so every interleaving of callers and jobs is a run.
*/
module CredentialSync {
  import opened Wrappers

  type Call = nat

  datatype Phase =
    | Checking                     // about to look at the job under u.mu
    | Generating                   // regenerate() entered, database not read yet
    | FirstTest(snapshot: nat)     // ApplyConfig before its first coreMutationAllowed
    | SecondTest(snapshot: nat)    // ApplyConfig holding applyMu, before its second test
    | Ran(snapshot: nat)           // returned the result of a regenerate that was not refused as busy
    | Queued                       // returned ErrCoreUpdateBusy

  datatype State = State(
    running: bool,
    pending: Option<Call>,
    calls: map<Call, Phase>,
    next: Call,
    version: nat,    // number of committed changes
    covered: nat)    // newest database version some non-refused regenerate has read

  datatype Step =
    | Commit                              // a change is committed and its SyncCredentials begins
    | Proceed(call: Call, fails: bool)    // fails: generating the configuration returns an error
    | Begin
    | Finish

  ghost predicate Init(s: State) {
    s == State(false, None, map[], 0, 0, 0)
  }

  predicate Returned(p: Phase) {
    p.Ran? || p.Queued?
  }

  predicate Enabled(s: State, step: Step) {
    match step
    case Commit => true
    case Proceed(c, _) => c in s.calls && !Returned(s.calls[c])
    case Begin => !s.running
    case Finish => s.running
  }

  function Max(a: nat, b: nat): nat {
    if a < b then b else a
  }

  function NewCall(s: State): State {
    s.(calls := s.calls[s.next := Checking], next := s.next + 1)
  }

  function Set(s: State, c: Call, p: Phase): State {
    s.(calls := s.calls[c := p])
  }

  function ProceedCall(s: State, c: Call, fails: bool): State
    requires Enabled(s, Proceed(c, fails))
  {
    match s.calls[c]
    case Checking =>
      if s.running then Set(s, c, Queued).(pending := Some(c)) else Set(s, c, Generating)
    case Generating =>
      if fails then Set(s, c, Ran(s.version)).(covered := Max(s.covered, s.version))
      else Set(s, c, FirstTest(s.version))
    case FirstTest(v) => Set(s, c, if s.running then Checking else SecondTest(v))
    case SecondTest(v) =>
      if s.running then Set(s, c, Checking)
      else Set(s, c, Ran(v)).(covered := Max(s.covered, v))
  }

  function Apply(s: State, step: Step): State
    requires Enabled(s, step)
  {
    match step
    case Commit => NewCall(s).(version := s.version + 1)
    case Proceed(c, fails) => ProceedCall(s, c, fails)
    case Begin => s.(running := true)
    case Finish =>
      var ended := s.(running := false, pending := None);
      if s.pending.Some? then NewCall(ended) else ended
  }

  ghost predicate IsRun(states: seq<State>, steps: seq<Step>) {
    && |states| == |steps| + 1
    && Init(states[0])
    && forall i | 0 <= i < |steps| :: Enabled(states[i], steps[i]) && states[i + 1] == Apply(states[i], steps[i])
  }

  /** A call in this phase will still read the database at version v or later, or already has. */
  predicate Owes(p: Phase, v: nat) {
    match p
    case Checking => true
    case Generating => true
    case FirstTest(w) => v <= w
    case SecondTest(w) => v <= w
    case _ => false
  }

  /** Somebody is still going to regenerate from version v or a later one. */
  ghost predicate Owed(s: State, v: nat) {
    s.pending.Some? || exists c :: c in s.calls && Owes(s.calls[c], v)
  }

  ghost predicate Inv(s: State) {
    && (s.pending.Some? ==> s.running)
    && (forall c | c in s.calls :: c < s.next)
    && (s.covered < s.version ==> Owed(s, s.version))
  }

  lemma ProceedKeepsInv(s: State, c: Call, fails: bool)
    requires Inv(s) && Enabled(s, Proceed(c, fails))
    ensures Inv(ProceedCall(s, c, fails))
  {
    var t := ProceedCall(s, c, fails);
    if t.covered < t.version && t.pending.None? {
      var d :| d in s.calls && Owes(s.calls[d], s.version);
      assert d in t.calls && Owes(t.calls[d], t.version);
    }
  }

  lemma StepKeepsInv(s: State, step: Step)
    requires Inv(s) && Enabled(s, step)
    ensures Inv(Apply(s, step))
  {
    var t := Apply(s, step);
    match step
    case Proceed(c, fails) => ProceedKeepsInv(s, c, fails);
    case Commit =>
      assert s.next in t.calls && Owes(t.calls[s.next], t.version);
    case Begin =>
      if t.covered < t.version && t.pending.None? {
        var d :| d in s.calls && Owes(s.calls[d], s.version);
        assert d in t.calls && Owes(t.calls[d], t.version);
      }
    case Finish =>
      if s.pending.Some? {
        assert s.next in t.calls && Owes(t.calls[s.next], t.version);
      } else if t.covered < t.version {
        var d :| d in s.calls && Owes(s.calls[d], s.version);
        assert d in t.calls && Owes(t.calls[d], t.version);
      }
  }

  lemma {:induction false} RunInv(states: seq<State>, steps: seq<Step>, i: nat)
    requires IsRun(states, steps) && i < |states|
    ensures Inv(states[i])
  {
    if i > 0 {
      RunInv(states, steps, i - 1);
      StepKeepsInv(states[i - 1], steps[i - 1]);
    }
  }

  /** The slot is only ever filled while a job runs, so the end of that job empties it. */
  lemma PendingMeansRunning(states: seq<State>, steps: seq<Step>, i: nat)
    requires IsRun(states, steps) && i < |states|
    ensures states[i].pending.Some? ==> states[i].running
  {
    RunInv(states, steps, i);
  }

  /**
   No committed change is lost: in every state of every run the newest change has been read by a
   regenerate that was not refused, or a call or the slot still owes one that will read it. Once
   no job runs and every call has returned, all changes are covered.
   */
  lemma NoLostSync(states: seq<State>, steps: seq<Step>, i: nat)
    requires IsRun(states, steps) && i < |states|
    ensures states[i].version <= states[i].covered || Owed(states[i], states[i].version)
    ensures !states[i].running && (forall c | c in states[i].calls :: Returned(states[i].calls[c])) ==>
              states[i].version <= states[i].covered
  {
    RunInv(states, steps, i);
  }

  /** This step makes call c return ErrCoreUpdateBusy. */
  predicate Queues(s: State, step: Step, c: Call) {
    step.Proceed? && step.call == c && c in s.calls && s.calls[c] == Checking && s.running
  }

  /** Call d was queued at step i or later, before step j. */
  ghost predicate QueuedSince(states: seq<State>, steps: seq<Step>, d: Call, i: nat, j: nat)
    requires IsRun(states, steps) && j < |states|
  {
    exists l | i <= l < j :: Queues(states[l], steps[l], d)
  }

  /** The slot holds the callback of a call queued at step i or later. */
  ghost predicate Holds(states: seq<State>, steps: seq<Step>, i: nat, j: nat)
    requires IsRun(states, steps) && j < |states|
  {
    states[j].running && states[j].pending.Some? && QueuedSince(states, steps, states[j].pending.value, i, j)
  }

  /** Step k ends the job and, in the same step, takes such a callback and calls it. */
  ghost predicate Takes(states: seq<State>, steps: seq<Step>, i: nat, k: nat)
    requires IsRun(states, steps) && k < |steps|
  {
    && Holds(states, steps, i, k) && steps[k] == Finish
    && !states[k + 1].running && states[k + 1].pending.None?
    && states[k + 1].calls == states[k].calls[states[k].next := Checking]
  }

  /**
   A call that returned busy left its callback in the slot; from then on the slot holds its callback or
   one queued later, until a Finish takes that one in the very step that ends the job.
   */
  lemma {:induction false} QueuedCallbackIsTaken(states: seq<State>, steps: seq<Step>, c: Call, i: nat, j: nat)
    requires IsRun(states, steps) && i < j < |states|
    requires Queues(states[i], steps[i], c)
    ensures states[i + 1].pending == Some(c)
    ensures (exists k | i < k < j :: Takes(states, steps, i, k)) || Holds(states, steps, i, j)
  {
    if j == i + 1 {
      assert QueuedSince(states, steps, c, i, j);
    } else {
      QueuedCallbackIsTaken(states, steps, c, i, j - 1);
      if Holds(states, steps, i, j - 1) {
        if steps[j - 1] == Finish {
          assert Takes(states, steps, i, j - 1);
        } else {
          StillHeld(states, steps, i, j - 1);
        }
      }
    }
  }

  /** A step that does not end the job keeps the callback in the slot or replaces it by a later one. */
  lemma StillHeld(states: seq<State>, steps: seq<Step>, i: nat, j: nat)
    requires IsRun(states, steps) && i < j < |steps| && Holds(states, steps, i, j) && steps[j] != Finish
    ensures Holds(states, steps, i, j + 1)
  {
    var d := states[j].pending.value;
    var l :| i <= l < j && Queues(states[l], steps[l], d);
    if states[j + 1].pending == Some(d) {
      assert QueuedSince(states, steps, d, i, j + 1);
    } else {
      assert Queues(states[j], steps[j], states[j + 1].pending.value);
    }
  }

  /** A call that returned without the busy error ran a regenerate that the job did not refuse,
      on a database at least as new as the change that call was made for. */
  ghost predicate CallInv(s: State, born: map<Call, nat>) {
    && born.Keys == s.calls.Keys
    && forall c | c in s.calls ::
         match s.calls[c]
         case FirstTest(v) => born[c] <= v <= s.version
         case SecondTest(v) => born[c] <= v <= s.version
         case Ran(v) => born[c] <= v <= s.covered && v <= s.version
         case _ => born[c] <= s.version
  }

  /** Calls that are new in t began at its version. */
  ghost function Extend(t: State, before: map<Call, nat>): map<Call, nat> {
    map c | c in t.calls :: if c in before then before[c] else t.version
  }

  /** The database version at the moment each call began. */
  ghost function Born(states: seq<State>, steps: seq<Step>, i: nat): (born: map<Call, nat>)
    requires IsRun(states, steps) && i < |states|
    ensures born.Keys == states[i].calls.Keys
  {
    if i == 0 then map[] else Extend(states[i], Born(states, steps, i - 1))
  }

  lemma ProceedKeepsCallInv(s: State, c: Call, fails: bool, born: map<Call, nat>)
    requires CallInv(s, born) && Enabled(s, Proceed(c, fails))
    ensures CallInv(ProceedCall(s, c, fails), Extend(ProceedCall(s, c, fails), born))
  {
  }

  lemma StepKeepsCallInv(s: State, step: Step, born: map<Call, nat>)
    requires CallInv(s, born) && Enabled(s, step)
    ensures CallInv(Apply(s, step), Extend(Apply(s, step), born))
  {
    match step
    case Proceed(c, fails) => ProceedKeepsCallInv(s, c, fails, born);
    case _ =>
  }

  lemma {:induction false} RunCallInv(states: seq<State>, steps: seq<Step>, i: nat)
    requires IsRun(states, steps) && i < |states|
    ensures CallInv(states[i], Born(states, steps, i))
  {
    if i > 0 {
      RunCallInv(states, steps, i - 1);
      StepKeepsCallInv(states[i - 1], steps[i - 1], Born(states, steps, i - 1));
    }
  }

  lemma RanCoversItsChange(states: seq<State>, steps: seq<Step>, i: nat, c: Call)
    requires IsRun(states, steps) && i < |states|
    requires c in states[i].calls && states[i].calls[c].Ran?
    ensures Born(states, steps, i)[c] <= states[i].calls[c].snapshot <= states[i].covered
  {
    RunCallInv(states, steps, i);
  }

  // ---------------------------------------------------------------- what the numbers mean

  function Commits(steps: seq<Step>, i: nat): nat
    requires i <= |steps|
  {
    if i == 0 then 0 else Commits(steps, i - 1) + if steps[i - 1] == Commit then 1 else 0
  }

  lemma {:induction false} VersionCountsCommits(states: seq<State>, steps: seq<Step>, i: nat)
    requires IsRun(states, steps) && i < |states|
    ensures states[i].version == Commits(steps, i)
  {
    if i > 0 {
      VersionCountsCommits(states, steps, i - 1);
    }
  }

  /** Step j is where call c generates the configuration, from database version v. */
  predicate Reads(s: State, step: Step, c: Call, v: nat) {
    step.Proceed? && step.call == c && c in s.calls && s.calls[c] == Generating && s.version == v
  }

  ghost predicate ReadBefore(states: seq<State>, steps: seq<Step>, c: Call, v: nat, i: nat)
    requires IsRun(states, steps) && i < |states|
  {
    exists j | 0 <= j < i :: Reads(states[j], steps[j], c, v)
  }

  /** The snapshot of a call, if it has one. */
  function Snapshot(p: Phase): Option<nat> {
    match p
    case FirstTest(v) => Some(v)
    case SecondTest(v) => Some(v)
    case Ran(v) => Some(v)
    case _ => None
  }

  /** A snapshot is a version that very call has read, and what is covered is what some call that ran has read. */
  lemma {:induction false} SnapshotsAreRead(states: seq<State>, steps: seq<Step>, i: nat)
    requires IsRun(states, steps) && i < |states|
    ensures forall c | c in states[i].calls && Snapshot(states[i].calls[c]).Some? ::
              ReadBefore(states, steps, c, Snapshot(states[i].calls[c]).value, i)
    ensures states[i].covered == 0 || exists c :: c in states[i].calls && states[i].calls[c] == Ran(states[i].covered)
  {
    if i > 0 {
      SnapshotsAreRead(states, steps, i - 1);
      var s, t, step := states[i - 1], states[i], steps[i - 1];
      RunInv(states, steps, i - 1);
      forall c | c in t.calls && Snapshot(t.calls[c]).Some?
        ensures ReadBefore(states, steps, c, Snapshot(t.calls[c]).value, i)
      {
        var v := Snapshot(t.calls[c]).value;
        if step.Proceed? && step.call == c && s.calls[c] == Generating {
          assert Reads(states[i - 1], steps[i - 1], c, v);
        } else {
          assert Snapshot(s.calls[c]) == Some(v);
          var j :| 0 <= j < i - 1 && Reads(states[j], steps[j], c, v);
        }
      }
      CoveredStaysReal(s, step);
    }
  }

  lemma CoveredStaysReal(s: State, step: Step)
    requires Inv(s) && Enabled(s, step)
    requires s.covered == 0 || exists c :: c in s.calls && s.calls[c] == Ran(s.covered)
    ensures var t := Apply(s, step);
            t.covered == 0 || exists c :: c in t.calls && t.calls[c] == Ran(t.covered)
  {
    var t := Apply(s, step);
    if s.covered != 0 {
      var c :| c in s.calls && s.calls[c] == Ran(s.covered);
      assert c in t.calls && t.calls[c] == Ran(s.covered);
    }
    if step.Proceed? {
      assert t.covered != s.covered ==> t.calls[step.call] == Ran(t.covered);
    }
  }

  /** A call begins with a commit, or where a finished job takes a callback from the slot. */
  lemma CallsBeginForAReason(states: seq<State>, steps: seq<Step>, i: nat)
    requires IsRun(states, steps) && i < |steps|
    ensures |states[i + 1].calls| == |states[i].calls|
              + if steps[i] == Commit || (steps[i] == Finish && states[i].pending.Some?) then 1 else 0
  {
    RunInv(states, steps, i);
  }

  /** A job runs from the step that begins it to the one that ends it. */
  function JobRuns(steps: seq<Step>, i: nat): bool
    requires i <= |steps|
  {
    i > 0 && (steps[i - 1] == Begin || (steps[i - 1] != Finish && JobRuns(steps, i - 1)))
  }

  /**
   No call gets past a running job: it is queued when it first looks, sent back to look again by either test of
   ApplyConfig, and returns at once only when generating fails.
   */
  lemma {:induction false} JobsKeepCallsOut(states: seq<State>, steps: seq<Step>, i: nat, c: Call)
    requires IsRun(states, steps) && i < |steps| && steps[i].Proceed? && steps[i].call == c
    ensures states[i].running <==> JobRuns(steps, i)
    ensures var before, after := states[i].calls[c], states[i + 1].calls[c];
            && (Returned(after) <==> (before == Checking && JobRuns(steps, i))
                                     || (before == Generating && steps[i].fails)
                                     || (before.SecondTest? && !JobRuns(steps, i)))
            && (before.FirstTest? || before.SecondTest? ==> (after == Checking <==> JobRuns(steps, i)))
  {
    RunningIsJob(states, steps, i);
  }

  lemma {:induction false} RunningIsJob(states: seq<State>, steps: seq<Step>, i: nat)
    requires IsRun(states, steps) && i < |states|
    ensures states[i].running <==> JobRuns(steps, i)
  {
    if i > 0 {
      RunningIsJob(states, steps, i - 1);
    }
  }

  // ---------------------------------------------------------------- progress

  function Rank(p: Phase): nat {
    match p
    case Checking => 4
    case Generating => 3
    case FirstTest(_) => 2
    case SecondTest(_) => 1
    case _ => 0
  }

  /** These states follow on those of a run, by these steps. */
  ghost predicate Extends(states: seq<State>, steps: seq<Step>, more: seq<State>, path: seq<Step>) {
    |more| == |path| && IsRun(states + more, steps + path)
  }

  ghost function LastState(states: seq<State>, more: seq<State>): State
    requires states != []
  {
    (states + more)[|states| + |more| - 1]
  }

  lemma StepExtends(states: seq<State>, steps: seq<Step>, step: Step)
    requires IsRun(states, steps) && Enabled(states[|steps|], step)
    ensures Extends(states, steps, [Apply(states[|steps|], step)], [step])
  {
  }

  lemma ExtendsTwice(states: seq<State>, steps: seq<Step>, more: seq<State>, path: seq<Step>, more': seq<State>, path': seq<Step>)
    requires states != [] && Extends(states, steps, more, path) && Extends(states + more, steps + path, more', path')
    ensures Extends(states, steps, more + more', path + path')
    ensures LastState(states, more + more') == LastState(states + more, more')
  {
    assert states + (more + more') == states + more + more' && steps + (path + path') == steps + path + path';
  }

  /** Only call c changes, and it goes on until it has run. */
  ghost predicate RanAlone(s: State, t: State, c: Call) {
    && t.running == s.running && t.pending == s.pending && t.version == s.version && t.next == s.next
    && c in t.calls && t.calls[c].Ran? && t.calls == s.calls[c := t.calls[c]] && s.covered <= t.covered
    && t.calls[c].snapshot <= t.covered
  }

  /** With no job running a call that keeps proceeding runs its regenerate within four steps of its own. */
  lemma {:induction false} CallRuns(states: seq<State>, steps: seq<Step>, c: Call)
    returns (more: seq<State>, path: seq<Step>)
    requires IsRun(states, steps)
    requires var s := states[|steps|]; !s.running && c in s.calls && !Returned(s.calls[c])
    ensures Extends(states, steps, more, path) && 1 <= |path| <= Rank(states[|steps|].calls[c]) <= 4
    ensures forall p | p in path :: p == Proceed(c, false)
    ensures RanAlone(states[|steps|], LastState(states, more), c)
    decreases Rank(states[|steps|].calls[c])
  {
    var s := states[|steps|];
    var t := Apply(s, Proceed(c, false));
    StepExtends(states, steps, Proceed(c, false));
    if Returned(t.calls[c]) {
      more, path := [t], [Proceed(c, false)];
      assert LastState(states, more) == t && t.calls == s.calls[c := t.calls[c]];
      return;
    }
    assert (states + [t])[|steps| + 1] == t;
    more, path := CallRuns(states + [t], steps + [Proceed(c, false)], c);
    var u := LastState(states + [t], more);
    assert u.calls == t.calls[c := u.calls[c]] == s.calls[c := u.calls[c]];
    RanLater(states, steps, t, more, path, c);
    more, path := [t] + more, [Proceed(c, false)] + path;
  }

  lemma RanLater(states: seq<State>, steps: seq<Step>, t: State, more: seq<State>, path: seq<Step>, c: Call)
    requires states != [] && Extends(states, steps, [t], [Proceed(c, false)])
    requires Extends(states + [t], steps + [Proceed(c, false)], more, path)
    ensures Extends(states, steps, [t] + more, [Proceed(c, false)] + path)
    ensures LastState(states, [t] + more) == LastState(states + [t], more)
  {
    ExtendsTwice(states, steps, [t], [Proceed(c, false)], more, path);
  }

  function Open(s: State): set<Call> {
    set c | c in s.calls && !Returned(s.calls[c])
  }

  /** No job runs, every call has returned, and the newest change is covered. */
  ghost predicate Settled(s: State) {
    !s.running && s.pending.None? && Open(s) == {} && s.version <= s.covered
  }

  lemma NobodyOwes(s: State)
    requires Inv(s) && !s.running && Open(s) == {}
    ensures s.version <= s.covered
  {
    forall c | c in s.calls ensures !Owes(s.calls[c], s.version) {
      assert c !in Open(s);
    }
  }

  /** The other calls of an idle panel can run one after the other. */
  lemma {:induction false} IdleSettles(states: seq<State>, steps: seq<Step>) returns (more: seq<State>, path: seq<Step>)
    requires IsRun(states, steps) && !states[|steps|].running
    ensures Extends(states, steps, more, path) && forall p | p in path :: p.Proceed?
    ensures Settled(LastState(states, more)) && LastState(states, more).version == states[|steps|].version
    decreases |Open(states[|steps|])|
  {
    var s := states[|steps|];
    RunInv(states, steps, |steps|);
    if Open(s) == {} {
      more, path := [], [];
      assert states + more == states && steps + path == steps;
      NobodyOwes(s);
      return;
    }
    var c :| c in Open(s);
    var first, own := CallRuns(states, steps, c);
    var t := LastState(states, first);
    assert Open(t) == Open(s) - {c};
    var rest, others := IdleSettles(states + first, steps + own);
    ExtendsTwice(states, steps, first, own, rest, others);
    more, path := first + rest, own + others;
  }

  /**
   From every state of every run the panel can settle by ending the job, if one runs, and letting the calls proceed:
   no callback or call is ever stuck.
   */
  lemma EverythingCanSettle(states: seq<State>, steps: seq<Step>) returns (more: seq<State>, path: seq<Step>)
    requires IsRun(states, steps)
    ensures Extends(states, steps, more, path) && forall p | p in path :: p == Finish || p.Proceed?
    ensures Settled(LastState(states, more)) && LastState(states, more).version == states[|steps|].version
  {
    var s := states[|steps|];
    if s.running {
      var t := Apply(s, Finish);
      StepExtends(states, steps, Finish);
      assert (states + [t])[|steps| + 1] == t;
      more, path := IdleSettles(states + [t], steps + [Finish]);
      ExtendsTwice(states, steps, [t], [Finish], more, path);
      more, path := [t] + more, [Finish] + path;
    } else {
      more, path := IdleSettles(states, steps);
    }
  }
}
