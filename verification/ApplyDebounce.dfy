/**
The debounced configuration apply of the listener service (listener/service.go).

Mutators commit under s.mu and then set applyPending and re-arm the 400 ms timer under
applySchedMu. A mutator may also return an error after it has changed the database, without
scheduling (Registry.Service.Delete and Registry.Service.BatchCreate say when): it abandons its
commit. A fired timer becomes a flushConfigApply goroutine, which clears the flag under
applySchedMu and later generates the YAML under s.mu. Stopping a timer that has already fired does
not stop its goroutine, so several flushes can be under way. Each step is one critical section.
*/
module ApplyDebounce {
  type Flush = nat

  datatype Mutator = Nobody | Entered | Committed | Scheduled

  datatype Phase = Fired | Cleared | Done

  datatype State = State(
    mutator: Mutator,             // who holds s.mu, and how far the call is
    pending: bool,                // applyPending
    armed: bool,                  // a timer that has neither fired nor been stopped
    flushes: map<Flush, Phase>,
    next: Flush,
    version: nat,                 // committed mutations
    generated: nat)               // newest version a YAML generation has been attempted from

  datatype Step =
    | Enter
    | Commit                      // the call has changed what a generation reads
    | Schedule
    | Leave
    | Abandon                     // an error is returned after a commit, nothing is scheduled
    | Fire
    | Clear(flush: Flush)
    | Generate(flush: Flush)
    | Regenerate                  // RegenerateConfig, called from elsewhere

  ghost predicate Init(s: State) {
    s == State(Nobody, false, false, map[], 0, 0, 0)
  }

  predicate Enabled(s: State, step: Step) {
    match step
    case Enter => s.mutator == Nobody
    case Commit => s.mutator == Entered || s.mutator == Committed
    case Schedule => s.mutator == Committed
    case Leave => s.mutator == Entered || s.mutator == Scheduled
    case Abandon => s.mutator == Committed
    case Fire => s.armed
    case Clear(f) => f in s.flushes && s.flushes[f] == Fired
    case Generate(f) => f in s.flushes && s.flushes[f] == Cleared && s.mutator == Nobody
    case Regenerate => s.mutator == Nobody
  }

  function Apply(s: State, step: Step): State
    requires Enabled(s, step)
  {
    match step
    case Enter => s.(mutator := Entered)
    case Commit => s.(mutator := Committed, version := s.version + 1)
    case Schedule => s.(mutator := Scheduled, pending := true, armed := true)
    case Leave => s.(mutator := Nobody)
    case Abandon => s.(mutator := Nobody)
    case Fire => s.(armed := false, flushes := s.flushes[s.next := Fired], next := s.next + 1)
    case Clear(f) => s.(pending := false, flushes := s.flushes[f := if s.pending then Cleared else Done])
    case Generate(f) => s.(generated := s.version, flushes := s.flushes[f := Done])
    case Regenerate => s.(generated := s.version)
  }

  ghost predicate IsRun(states: seq<State>, steps: seq<Step>) {
    && |states| == |steps| + 1
    && Init(states[0])
    && forall i | 0 <= i < |steps| :: Enabled(states[i], steps[i]) && states[i + 1] == Apply(states[i], steps[i])
  }

  ghost predicate SomeFlush(s: State, p: Phase) {
    exists f :: f in s.flushes && s.flushes[f] == p
  }

  /** A timer that will still fire, or a fired one whose goroutine has not looked at the flag yet. */
  ghost predicate TimerOutstanding(s: State) {
    s.armed || SomeFlush(s, Fired)
  }

  /** A commit was abandoned, and nothing has been generated since. */
  function Lost(steps: seq<Step>, i: nat): bool
    requires i <= |steps|
  {
    if i == 0 then false
    else match steps[i - 1]
      case Abandon => true
      case Generate(_) | Regenerate => false
      case _ => Lost(steps, i - 1)
  }

  /** Step k abandons a commit, and no step after it and before i generates. */
  predicate AbandonedAt(steps: seq<Step>, k: nat, i: nat)
    requires k < i <= |steps|
  {
    steps[k] == Abandon && forall l | k < l < i :: !steps[l].Generate? && !steps[l].Regenerate?
  }

  lemma {:induction false} LostMeansAbandoned(steps: seq<Step>, i: nat)
    requires i <= |steps|
    ensures Lost(steps, i) <==> exists k | 0 <= k < i :: AbandonedAt(steps, k, i)
  {
    if i > 0 {
      LostMeansAbandoned(steps, i - 1);
      if steps[i - 1] == Abandon {
        assert AbandonedAt(steps, i - 1, i);
      } else if Lost(steps, i - 1) {
        var k :| 0 <= k < i - 1 && AbandonedAt(steps, k, i - 1);
        assert Lost(steps, i) ==> AbandonedAt(steps, k, i);
      }
      if k :| 0 <= k < i - 1 && AbandonedAt(steps, k, i) {
        assert AbandonedAt(steps, k, i - 1);
      }
    }
  }

  ghost predicate Inv(s: State, lost: bool) {
    && s.generated <= s.version
    && (forall f | f in s.flushes :: f < s.next)
    && (s.pending ==> TimerOutstanding(s))
    && (s.mutator == Committed ==> s.generated < s.version)
    && (lost ==> s.generated < s.version)
    && (s.generated < s.version ==> s.pending || SomeFlush(s, Cleared) || s.mutator == Committed || lost)
  }

  /** A flush other than f keeps its phase when f moves on. */
  lemma OtherFlush(s: State, t: State, f: Flush, p: Phase, g: Flush)
    requires g in s.flushes && s.flushes[g] == p && g != f
    requires g in t.flushes && t.flushes[g] == s.flushes[g]
    ensures SomeFlush(t, p)
  {
  }

  lemma StepKeepsInv(s: State, step: Step, lost: bool)
    requires Inv(s, lost) && Enabled(s, step)
    ensures Inv(Apply(s, step), step.Abandon? || (lost && !step.Generate? && !step.Regenerate?))
  {
    var t := Apply(s, step);
    match step
    case Fire =>
      assert t.flushes[s.next] == Fired;
      if SomeFlush(s, Cleared) {
        var g :| g in s.flushes && s.flushes[g] == Cleared;
        OtherFlush(s, t, s.next, Cleared, g);
      }
    case Clear(f) =>
      if s.pending {
        assert t.flushes[f] == Cleared;
      } else if SomeFlush(s, Cleared) {
        var g :| g in s.flushes && s.flushes[g] == Cleared;
        OtherFlush(s, t, f, Cleared, g);
      }
    case Generate(f) =>
      if s.pending && !s.armed {
        var g :| g in s.flushes && s.flushes[g] == Fired;
        OtherFlush(s, t, f, Fired, g);
      }
    case _ =>
      if SomeFlush(s, Cleared) {
        var g :| g in s.flushes && s.flushes[g] == Cleared;
        assert t.flushes[g] == Cleared;
      }
      if SomeFlush(s, Fired) {
        var g :| g in s.flushes && s.flushes[g] == Fired;
        assert t.flushes[g] == Fired;
      }
  }

  lemma {:induction false} RunInv(states: seq<State>, steps: seq<Step>, i: nat)
    requires IsRun(states, steps) && i < |states|
    ensures Inv(states[i], Lost(steps, i))
  {
    if i > 0 {
      RunInv(states, steps, i - 1);
      StepKeepsInv(states[i - 1], steps[i - 1], Lost(steps, i - 1));
    }
  }

  /**
   No scheduled mutation is forgotten: in every state of every run, if the newest one is not covered by
   an attempted generation, then the flag is set and a timer is outstanding, or some flush has cleared
   the flag and has still to generate, or its mutator has not scheduled yet, or a commit was abandoned
   since the last generation.
   */
  lemma NoLostMutation(states: seq<State>, steps: seq<Step>, i: nat)
    requires IsRun(states, steps) && i < |states|
    ensures states[i].generated < states[i].version ==>
              || (states[i].pending && TimerOutstanding(states[i]))
              || SomeFlush(states[i], Cleared)
              || states[i].mutator == Committed
              || Lost(steps, i)
  {
    RunInv(states, steps, i);
  }

  /** Nothing is under way. */
  ghost predicate Quiet(s: State) {
    s.mutator == Nobody && !s.armed && forall f | f in s.flushes :: s.flushes[f] == Done
  }

  /** Once nothing is under way, the newest state has been generated exactly unless a commit was abandoned since. */
  lemma QuietMeansCovered(states: seq<State>, steps: seq<Step>, i: nat)
    requires IsRun(states, steps) && i < |states| && Quiet(states[i])
    ensures states[i].generated == states[i].version <==> !Lost(steps, i)
  {
    RunInv(states, steps, i);
  }

  /** Such a run: a mutator enters, commits, and returns an error without scheduling. */
  lemma AbandonedIsNeverGenerated() returns (states: seq<State>, steps: seq<Step>)
    ensures IsRun(states, steps) && Quiet(states[|steps|])
    ensures states[|steps|].generated < states[|steps|].version
  {
    var s := State(Nobody, false, false, map[], 0, 0, 0);
    steps := [Enter, Commit, Abandon];
    states := [s, Apply(s, Enter), Apply(Apply(s, Enter), Commit), Apply(Apply(Apply(s, Enter), Commit), Abandon)];
    assert forall i | 0 <= i < 3 :: Enabled(states[i], steps[i]) && states[i + 1] == Apply(states[i], steps[i]);
  }

  // ---------------------------------------------------------------- what the numbers mean

  function Commits(steps: seq<Step>, i: nat): nat
    requires i <= |steps|
  {
    if i == 0 then 0 else Commits(steps, i - 1) + if steps[i - 1] == Commit then 1 else 0
  }

  /** The commits there had been at the last generation. */
  function Generated(steps: seq<Step>, i: nat): nat
    requires i <= |steps|
  {
    if i == 0 then 0
    else if steps[i - 1].Generate? || steps[i - 1].Regenerate? then Commits(steps, i - 1)
    else Generated(steps, i - 1)
  }

  lemma {:induction false} NumbersCount(states: seq<State>, steps: seq<Step>, i: nat)
    requires IsRun(states, steps) && i < |states|
    ensures states[i].version == Commits(steps, i) && states[i].generated == Generated(steps, i)
  {
    if i > 0 {
      NumbersCount(states, steps, i - 1);
    }
  }

  /** Flush f took the flag at step j. */
  predicate Took(s: State, step: Step, f: Flush) {
    step == Clear(f) && s.pending
  }

  /** A flush generates only if it found the flag set, and whoever finds it set clears it. */
  lemma {:induction false} FlushesAreAskedFor(states: seq<State>, steps: seq<Step>, i: nat, f: Flush)
    requires IsRun(states, steps) && i < |states| && f in states[i].flushes && states[i].flushes[f] == Cleared
    ensures exists j | 0 <= j < i :: Took(states[j], steps[j], f) && !states[j + 1].pending
  {
    if f in states[i - 1].flushes && states[i - 1].flushes[f] == Cleared {
      FlushesAreAskedFor(states, steps, i - 1, f);
    } else {
      assert Took(states[i - 1], steps[i - 1], f);
    }
  }

  /** A timer fires once per schedule at most: between two firings somebody has scheduled. */
  lemma FiresOncePerSchedule(states: seq<State>, steps: seq<Step>, i: nat, k: nat)
    requires IsRun(states, steps) && i < k < |steps| && steps[i] == Fire && steps[k] == Fire
    ensures exists j | i < j < k :: steps[j] == Schedule
  {
    if forall j | i < j < k :: steps[j] != Schedule {
      StaysUnarmed(states, steps, i, k);
    }
  }

  lemma {:induction false} StaysUnarmed(states: seq<State>, steps: seq<Step>, i: nat, k: nat)
    requires IsRun(states, steps) && i < k < |states| && steps[i] == Fire && forall j | i < j < k :: steps[j] != Schedule
    ensures !states[k].armed
  {
    if k > i + 1 {
      StaysUnarmed(states, steps, i, k - 1);
    }
  }

  // ---------------------------------------------------------------- progress

  /** These states follow on those of a run, by these steps. */
  ghost predicate Extends(states: seq<State>, steps: seq<Step>, more: seq<State>, path: seq<Step>) {
    |more| == |path| && IsRun(states + more, steps + path)
  }

  ghost function LastState(states: seq<State>, more: seq<State>): State
    requires states != []
  {
    (states + more)[|states| + |more| - 1]
  }

  lemma StepExtends(states: seq<State>, steps: seq<Step>, step: Step)
    requires IsRun(states, steps) && Enabled(states[|steps|], step)
    ensures Extends(states, steps, [Apply(states[|steps|], step)], [step])
    ensures LastState(states, [Apply(states[|steps|], step)]) == Apply(states[|steps|], step)
  {
  }

  lemma ExtendsTwice(states: seq<State>, steps: seq<Step>, more: seq<State>, path: seq<Step>, more': seq<State>, path': seq<Step>)
    requires states != [] && Extends(states, steps, more, path) && Extends(states + more, steps + path, more', path')
    ensures Extends(states, steps, more + more', path + path')
    ensures LastState(states, more + more') == LastState(states + more, more')
  {
    assert states + (more + more') == states + more + more' && steps + (path + path') == steps + path + path';
  }

  function Unfinished(s: State): set<Flush> {
    set f | f in s.flushes && s.flushes[f] != Done
  }

  /** What is under way and nothing new: no call enters, commits or gives up. */
  predicate WindsDown(step: Step) {
    step.Schedule? || step.Leave? || step.Fire? || step.Clear? || step.Generate?
  }

  lemma TwoStepsExtend(states: seq<State>, steps: seq<Step>, a: Step, b: Step)
    requires IsRun(states, steps) && Enabled(states[|steps|], a) && Enabled(Apply(states[|steps|], a), b)
    ensures var s := states[|steps|];
            var more := [Apply(s, a), Apply(Apply(s, a), b)];
            Extends(states, steps, more, [a, b]) && LastState(states, more) == Apply(Apply(s, a), b)
  {
    var s := states[|steps|];
    StepExtends(states, steps, a);
    assert (states + [Apply(s, a)])[|steps| + 1] == Apply(s, a);
    StepExtends(states + [Apply(s, a)], steps + [a], b);
    ExtendsTwice(states, steps, [Apply(s, a)], [a], [Apply(Apply(s, a), b)], [b]);
    assert [Apply(s, a)] + [Apply(Apply(s, a), b)] == [Apply(s, a), Apply(Apply(s, a), b)] && [a] + [b] == [a, b];
  }

  /** A fired timer can finish its flush. */
  lemma FlushFinishes(states: seq<State>, steps: seq<Step>, f: Flush) returns (more: seq<State>, path: seq<Step>)
    requires IsRun(states, steps) && states[|steps|].mutator == Nobody && f in Unfinished(states[|steps|])
    ensures Extends(states, steps, more, path) && forall p | p in path :: WindsDown(p)
    ensures var s, t := states[|steps|], LastState(states, more);
            && t.mutator == Nobody && t.version == s.version && t.armed == s.armed
            && t.flushes == s.flushes[f := Done]
  {
    var s := states[|steps|];
    if s.flushes[f] == Fired && s.pending {
      var t := Apply(s, Clear(f));
      more, path := [t, Apply(t, Generate(f))], [Clear(f), Generate(f)];
      TwoStepsExtend(states, steps, Clear(f), Generate(f));
    } else {
      var step := if s.flushes[f] == Fired then Clear(f) else Generate(f);
      more, path := [Apply(s, step)], [step];
      StepExtends(states, steps, step);
    }
  }

  lemma {:induction false} FlushesFinish(states: seq<State>, steps: seq<Step>) returns (more: seq<State>, path: seq<Step>)
    requires IsRun(states, steps) && states[|steps|].mutator == Nobody && !states[|steps|].armed
    ensures Extends(states, steps, more, path) && forall p | p in path :: WindsDown(p)
    ensures Quiet(LastState(states, more)) && LastState(states, more).version == states[|steps|].version
    decreases |Unfinished(states[|steps|])|
  {
    var s := states[|steps|];
    if Unfinished(s) == {} {
      more, path := [], [];
      assert states + more == states && steps + path == steps;
      assert forall f | f in s.flushes :: f !in Unfinished(s);
      return;
    }
    var f :| f in Unfinished(s);
    var first, own := FlushFinishes(states, steps, f);
    assert Unfinished(LastState(states, first)) == Unfinished(s) - {f};
    var rest, others := FlushesFinish(states + first, steps + own);
    ExtendsTwice(states, steps, first, own, rest, others);
    more, path := first + rest, own + others;
  }

  /** A call that has the lock can give it back, having scheduled what it has committed. */
  lemma MutatorLeaves(states: seq<State>, steps: seq<Step>) returns (more: seq<State>, path: seq<Step>)
    requires IsRun(states, steps)
    ensures Extends(states, steps, more, path) && forall p | p in path :: WindsDown(p)
    ensures LastState(states, more).mutator == Nobody && LastState(states, more).version == states[|steps|].version
  {
    var s := states[|steps|];
    if s.mutator == Nobody {
      more, path := [], [];
      assert states + more == states && steps + path == steps;
    } else if s.mutator == Committed {
      more, path := [Apply(s, Schedule), Apply(Apply(s, Schedule), Leave)], [Schedule, Leave];
      TwoStepsExtend(states, steps, Schedule, Leave);
    } else {
      more, path := [Apply(s, Leave)], [Leave];
      StepExtends(states, steps, Leave);
    }
  }

  lemma TimerFires(states: seq<State>, steps: seq<Step>) returns (more: seq<State>, path: seq<Step>)
    requires IsRun(states, steps) && states[|steps|].mutator == Nobody
    ensures Extends(states, steps, more, path) && forall p | p in path :: WindsDown(p)
    ensures var t := LastState(states, more); t.mutator == Nobody && !t.armed && t.version == states[|steps|].version
  {
    if states[|steps|].armed {
      more, path := [Apply(states[|steps|], Fire)], [Fire];
      StepExtends(states, steps, Fire);
    } else {
      more, path := [], [];
      assert states + more == states && steps + path == steps;
    }
  }

  /**
   From every state of every run, what is under way can come to its end, and if no commit has been abandoned since
   the last generation, the newest state has then been generated.
   */
  lemma EverythingCanSettle(states: seq<State>, steps: seq<Step>) returns (more: seq<State>, path: seq<Step>)
    requires IsRun(states, steps)
    ensures Extends(states, steps, more, path) && forall p | p in path :: WindsDown(p)
    ensures var t := LastState(states, more);
            && Quiet(t) && t.version == states[|steps|].version
            && (!Lost(steps, |steps|) ==> t.generated == t.version)
  {
    var more0, path0 := MutatorLeaves(states, steps);
    var more1, path1 := TimerFires(states + more0, steps + path0);
    ExtendsTwice(states, steps, more0, path0, more1, path1);
    var more2, path2 := FlushesFinish(states + (more0 + more1), steps + (path0 + path1));
    ExtendsTwice(states, steps, more0 + more1, path0 + path1, more2, path2);
    more, path := more0 + more1 + more2, path0 + path1 + path2;
    QuietMeansCovered(states + more, steps + path, |steps| + |path|);
    if !Lost(steps, |steps|) {
      NothingLost(steps, path, |path|);
    }
  }

  lemma {:induction false} NothingLost(steps: seq<Step>, path: seq<Step>, k: nat)
    requires k <= |path| && (forall p | p in path :: WindsDown(p)) && !Lost(steps, |steps|)
    ensures !Lost(steps + path, |steps| + k)
  {
    if k == 0 {
      LostLooksBack(steps, path, |steps|);
    } else {
      NothingLost(steps, path, k - 1);
      assert (steps + path)[|steps| + k - 1] == path[k - 1] && path[k - 1] in path;
    }
  }

  lemma {:induction false} LostLooksBack(steps: seq<Step>, path: seq<Step>, i: nat)
    requires i <= |steps|
    ensures Lost(steps + path, i) == Lost(steps, i)
  {
    if i > 0 {
      LostLooksBack(steps, path, i - 1);
      assert (steps + path)[i - 1] == steps[i - 1];
    }
  }

  /**
   Nobody waits for more than the lock of the mutators: a second call enters while the flag is set, its timer fires
   and is cleared while it holds the lock, and a third enters between that and the generation.
   */
  lemma CallsAndTimersOverlap(states: seq<State>, steps: seq<Step>) returns (more: seq<State>, path: seq<Step>)
    requires IsRun(states, steps) && states[|steps|].mutator == Nobody
    ensures path == [Enter, Commit, Schedule, Leave] + [Enter, Commit, Fire, Clear(states[|steps|].next)] + [Schedule, Leave, Enter, Leave]
    ensures Extends(states, steps, more, path) && LastState(states, more).version == states[|steps|].version + 2
  {
    var s := states[|steps|];
    RunInv(states, steps, |steps|);
    var first, second, third := [Enter, Commit, Schedule, Leave], [Enter, Commit, Fire, Clear(s.next)], [Schedule, Leave, Enter, Leave];
    var m1 := FourSteps(states, steps, Enter, Commit, Schedule, Leave);
    var m2 := FourSteps(states + m1, steps + first, Enter, Commit, Fire, Clear(s.next));
    ExtendsTwice(states, steps, m1, first, m2, second);
    var m3 := FourSteps(states + (m1 + m2), steps + (first + second), Schedule, Leave, Enter, Leave);
    ExtendsTwice(states, steps, m1 + m2, first + second, m3, third);
    more, path := m1 + m2 + m3, first + second + third;
  }

  lemma FourSteps(states: seq<State>, steps: seq<Step>, a: Step, b: Step, c: Step, d: Step) returns (more: seq<State>)
    requires IsRun(states, steps)
    requires var s := states[|steps|];
             && Enabled(s, a) && Enabled(Apply(s, a), b) && Enabled(Apply(Apply(s, a), b), c)
             && Enabled(Apply(Apply(Apply(s, a), b), c), d)
    ensures Extends(states, steps, more, [a, b, c, d])
    ensures LastState(states, more) == Apply(Apply(Apply(Apply(states[|steps|], a), b), c), d)
  {
    var s := states[|steps|];
    TwoStepsExtend(states, steps, a, b);
    var first := [Apply(s, a), Apply(Apply(s, a), b)];
    assert (states + first)[|steps| + 2] == Apply(Apply(s, a), b);
    TwoStepsExtend(states + first, steps + [a, b], c, d);
    var t := Apply(Apply(s, a), b);
    var second := [Apply(t, c), Apply(Apply(t, c), d)];
    ExtendsTwice(states, steps, first, [a, b], second, [c, d]);
    assert [a, b] + [c, d] == [a, b, c, d];
    more := first + second;
  }
}
