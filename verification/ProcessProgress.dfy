/**
What the process manager gets done (mihomo/process.go): from every state of every run in which nobody holds the
lock, each call, and the delayed restart of a core that died, reaches its end when it is left undisturbed. The
steps and states are those of ProcessLifecycle; what a call is to achieve is said about the end state only.
*/
module ProcessProgress {
  import opened Wrappers
  import opened ProcessLifecycle

  /** These steps can be taken one after the other. */
  predicate Runnable(s: State, path: seq<Step>)
    decreases |path|
  {
    path == [] || (Enabled(s, path[0]) && Runnable(Apply(s, path[0]), path[1..]))
  }

  /** The states they lead through. */
  function Trace(s: State, path: seq<Step>): (states: seq<State>)
    requires Runnable(s, path)
    ensures |states| == |path|
    decreases |path|
  {
    if path == [] then [] else [Apply(s, path[0])] + Trace(Apply(s, path[0]), path[1..])
  }

  function End(s: State, path: seq<Step>): State
    requires Runnable(s, path)
    decreases |path|
  {
    if path == [] then s else End(Apply(s, path[0]), path[1..])
  }

  /** A run goes on with them. */
  lemma {:induction false} Continue(states: seq<State>, steps: seq<Step>, path: seq<Step>)
    requires IsRun(states, steps) && Runnable(states[|steps|], path)
    ensures IsRun(states + Trace(states[|steps|], path), steps + path)
    ensures (states + Trace(states[|steps|], path))[|steps| + |path|] == End(states[|steps|], path)
    decreases |path|
  {
    if path == [] {
      assert states + [] == states && steps + [] == steps;
    } else {
      var s := states[|steps|];
      var t := Apply(s, path[0]);
      var longer, more := states + [t], steps + [path[0]];
      assert forall i | 0 <= i < |more| :: Enabled(longer[i], more[i]) && longer[i + 1] == Apply(longer[i], more[i]);
      Continue(longer, more, path[1..]);
      assert longer + Trace(t, path[1..]) == states + Trace(s, path) && more + path[1..] == steps + path;
    }
  }

  lemma {:induction false} PathsJoin(s: State, first: seq<Step>, second: seq<Step>)
    requires Runnable(s, first) && Runnable(End(s, first), second)
    ensures Runnable(s, first + second) && End(s, first + second) == End(End(s, first), second)
    decreases |first|
  {
    if first == [] {
      assert first + second == second;
    } else {
      assert (first + second)[0] == first[0] && (first + second)[1..] == first[1..] + second;
      PathsJoin(Apply(s, first[0]), first[1..], second);
    }
  }

  lemma OneStep(s: State, step: Step)
    requires Enabled(s, step)
    ensures Runnable(s, [step]) && End(s, [step]) == Apply(s, step)
  {
    assert [step][1..] == [];
  }

  lemma TwoSteps(s: State, a: Step, b: Step)
    requires Enabled(s, a) && Enabled(Apply(s, a), b)
    ensures Runnable(s, [a, b]) && End(s, [a, b]) == Apply(Apply(s, a), b)
  {
    assert [a, b][1..] == [b];
    OneStep(Apply(s, a), b);
  }

  lemma ThreeSteps(s: State, a: Step, b: Step, c: Step)
    requires Enabled(s, a) && Enabled(Apply(s, a), b) && Enabled(Apply(Apply(s, a), b), c)
    ensures Runnable(s, [a, b, c]) && End(s, [a, b, c]) == Apply(Apply(Apply(s, a), b), c)
  {
    assert [a, b, c][1..] == [b, c];
    TwoSteps(Apply(s, a), b, c);
  }

  /** The newest child is the one that is recorded, wanted and alive, and nobody holds the lock. */
  ghost predicate Up(s: State, c: Child) {
    && s.holder == Free && s.cmd == Some(c) && s.desired && s.alive == {c} && s.next == c + 1
    && c in s.waiters && s.waiters[c] == Waiting
  }

  /** Nothing is recorded, wanted or alive, and nobody holds the lock. */
  ghost predicate Down(s: State) {
    s.holder == Free && s.cmd == None && !s.desired && s.alive == {}
  }

  /** The path leads the run on to this state. */
  ghost predicate LeadsTo(states: seq<State>, steps: seq<Step>, path: seq<Step>, more: seq<State>, t: State) {
    |more| == |path| > 0 && IsRun(states + more, steps + path) && more[|path| - 1] == t
  }

  /** One call with nothing in between but the exit of the old child. */
  predicate OneCall(path: seq<Step>, entry: Step) {
    path != [] && path[0] == entry && forall k | 1 <= k < |path| :: path[k].Advance? || path[k].Exit? || path[k].Reap?
  }

  lemma Leads(states: seq<State>, steps: seq<Step>, path: seq<Step>) returns (more: seq<State>)
    requires IsRun(states, steps) && path != [] && Runnable(states[|steps|], path)
    ensures LeadsTo(states, steps, path, more, End(states[|steps|], path))
  {
    more := Trace(states[|steps|], path);
    Continue(states, steps, path);
    assert (states + more)[|steps| + |path|] == more[|path| - 1];
  }

  // ---------------------------------------------------------------- start

  const SPAWN := [Advance(false), Advance(false), Advance(false), Advance(false)]

  ghost predicate StartsFrom(s: State, o: Origin) {
    Inv(s) && s.holder == StartEntry(o) && MayObserveRunning(s, false)
  }

  /** start(): both looks at the old child, the spawn, its record. */
  lemma SpawnsAndRecords(s: State, o: Origin)
    requires StartsFrom(s, o)
    ensures Runnable(s, SPAWN)
    ensures End(s, SPAWN) == s.(alive := {s.next}, next := s.next + 1, cmd := Some(s.next), desired := true,
                                waiters := s.waiters[s.next := Waiting], holder := StartWatch(o, s.next))
  {
    var checked := s.(holder := StartSpawn(o));
    TwoSteps(s, Advance(false), Advance(false));
    StepKeepsInv(s, Advance(false));
    StepKeepsInv(Apply(s, Advance(false)), Advance(false));
    assert End(s, [Advance(false), Advance(false)]) == checked && checked.alive == {};
    TwoSteps(checked, Advance(false), Advance(false));
    PathsJoin(s, [Advance(false), Advance(false)], [Advance(false), Advance(false)]);
    assert SPAWN == [Advance(false), Advance(false)] + [Advance(false), Advance(false)];
  }

  /** ... and the window passes. */
  lemma StartSucceeds(s: State, o: Origin)
    requires StartsFrom(s, o)
    ensures Runnable(s, SPAWN + [Advance(false)]) && Up(End(s, SPAWN + [Advance(false)]), s.next)
  {
    SpawnsAndRecords(s, o);
    OneStep(End(s, SPAWN), Advance(false));
    PathsJoin(s, SPAWN, [Advance(false)]);
  }

  /** Start brings up a new child unless the recorded one is seen running. */
  lemma StartBringsUp(states: seq<State>, steps: seq<Step>) returns (more: seq<State>, path: seq<Step>)
    requires IsRun(states, steps) && states[|steps|].holder == Free && MayObserveRunning(states[|steps|], false)
    ensures path == [EnterStart] + SPAWN + [Advance(false)]
    ensures exists t :: LeadsTo(states, steps, path, more, t) && Up(t, states[|steps|].next)
  {
    var s := states[|steps|];
    RunInv(states, steps, |steps|);
    StepKeepsInv(s, EnterStart);
    OneStep(s, EnterStart);
    StartSucceeds(Apply(s, EnterStart), Explicit);
    path := [EnterStart] + (SPAWN + [Advance(false)]);
    PathsJoin(s, [EnterStart], SPAWN + [Advance(false)]);
    more := Leads(states, steps, path);
  }

  /** A child that exits inside the window: start() gives up, and the core is down and no longer wanted. */
  lemma EarlyExitTakesDown(states: seq<State>, steps: seq<Step>) returns (more: seq<State>, path: seq<Step>)
    requires IsRun(states, steps) && states[|steps|].holder == Free && MayObserveRunning(states[|steps|], false)
    ensures var c := states[|steps|].next;
            path == [EnterStart] + SPAWN + [Exit(c), Reap(c)] + [Advance(true), Advance(true)]
    ensures exists t :: LeadsTo(states, steps, path, more, t) && Down(t)
  {
    var s := states[|steps|];
    var c := s.next;
    RunInv(states, steps, |steps|);
    StepKeepsInv(s, EnterStart);
    OneStep(s, EnterStart);
    SpawnsAndRecords(Apply(s, EnterStart), Explicit);
    PathsJoin(s, [EnterStart], SPAWN);
    var watching := End(s, [EnterStart] + SPAWN);
    TwoSteps(watching, Exit(c), Reap(c));
    PathsJoin(s, [EnterStart] + SPAWN, [Exit(c), Reap(c)]);
    var seen := End(watching, [Exit(c), Reap(c)]);
    TwoSteps(seen, Advance(true), Advance(true));
    path := [EnterStart] + SPAWN + [Exit(c), Reap(c)] + [Advance(true), Advance(true)];
    PathsJoin(s, [EnterStart] + SPAWN + [Exit(c), Reap(c)], [Advance(true), Advance(true)]);
    more := Leads(states, steps, path);
  }

  /** Starting a core that runs is refused at the first look and changes nothing. */
  lemma StartOfRunningIsRefused(states: seq<State>, steps: seq<Step>, observed: bool)
    requires IsRun(states, steps) && states[|steps|].holder == Free && states[|steps|].alive != {}
    requires Runnable(states[|steps|], [EnterStart, Advance(observed)])
    ensures observed && End(states[|steps|], [EnterStart, Advance(observed)]) == states[|steps|]
  {
    RunInv(states, steps, |steps|);
    var s := states[|steps|];
    var c :| c in s.alive;
    assert [EnterStart, Advance(observed)][1..] == [Advance(observed)];
    TwoSteps(s, EnterStart, Advance(observed));
  }

  /** A start whose files are missing, or a restart whose configuration is refused, gives the lock back and changes nothing. */
  lemma FailedTestsChangeNothing(states: seq<State>, steps: seq<Step>)
    requires IsRun(states, steps) && states[|steps|].holder == Free && MayObserveRunning(states[|steps|], false)
    ensures var s := states[|steps|];
            && Runnable(s, [EnterStart, Advance(false), Abort]) && End(s, [EnterStart, Advance(false), Abort]) == s
            && Runnable(s, [EnterRestart, Advance(false), Abort]) && End(s, [EnterRestart, Advance(false), Abort]) == s
  {
    ThreeSteps(states[|steps|], EnterStart, Advance(false), Abort);
    ThreeSteps(states[|steps|], EnterRestart, Advance(false), Abort);
  }

  /** A child that has exited may look alive until it is reaped, and need not. */
  lemma ExitedMayLookEitherWay(states: seq<State>, steps: seq<Step>, c: Child)
    requires IsRun(states, steps) && states[|steps|].cmd == Some(c) && c !in states[|steps|].alive
    ensures MayObserveRunning(states[|steps|], false)
    ensures c in states[|steps|].waiters && (MayObserveRunning(states[|steps|], true) <==> states[|steps|].waiters[c] == Waiting)
  {
    RunInv(states, steps, |steps|);
  }

  // ---------------------------------------------------------------- stop

  /** stop() of a running core: signal, wait until it is gone, forget it. */
  function Kill(c: Child): seq<Step> {
    [Advance(true), Exit(c), Reap(c)] + [Advance(true), Advance(true)]
  }

  lemma KillSucceeds(s: State, c: Child, after: AfterStop)
    requires Inv(s) && s.holder == StopEntry(after) && c in s.alive
    ensures Runnable(s, Kill(c))
    ensures var t := End(s, Kill(c));
            && t.cmd == None && !t.desired && t.alive == {} && t.next == s.next && Inv(t)
            && t.holder == if after == Return then Free else RestartValidate
  {
    assert s.alive == {c};
    ThreeSteps(s, Advance(true), Exit(c), Reap(c));
    StepKeepsInv(s, Advance(true));
    StepKeepsInv(Apply(s, Advance(true)), Exit(c));
    StepKeepsInv(Apply(Apply(s, Advance(true)), Exit(c)), Reap(c));
    var dead := End(s, [Advance(true), Exit(c), Reap(c)]);
    TwoSteps(dead, Advance(true), Advance(true));
    StepKeepsInv(dead, Advance(true));
    StepKeepsInv(Apply(dead, Advance(true)), Advance(true));
    PathsJoin(s, [Advance(true), Exit(c), Reap(c)], [Advance(true), Advance(true)]);
  }

  /** Stop of a running core takes it down; stop of one that is not makes sure that nobody wants it. */
  lemma StopTakesDown(states: seq<State>, steps: seq<Step>) returns (more: seq<State>, path: seq<Step>)
    requires IsRun(states, steps) && states[|steps|].holder == Free
    ensures OneCall(path, EnterStop)
    ensures exists t :: LeadsTo(states, steps, path, more, t) && t.holder == Free && t.alive == {} && !t.desired
                        && (states[|steps|].alive != {} ==> Down(t))
  {
    var s := states[|steps|];
    RunInv(states, steps, |steps|);
    StepKeepsInv(s, EnterStop);
    OneStep(s, EnterStop);
    if c :| c in s.alive {
      KillSucceeds(Apply(s, EnterStop), c, Return);
      path := [EnterStop] + Kill(c);
      PathsJoin(s, [EnterStop], Kill(c));
    } else {
      NobodySeen(s);
      TwoSteps(s, EnterStop, Advance(false));
      path := [EnterStop, Advance(false)];
    }
    more := Leads(states, steps, path);
  }

  lemma NobodySeen(s: State)
    requires Inv(s) && s.alive == {}
    ensures MayObserveRunning(s, false)
  {
  }

  /** The same for quiesce. */
  lemma QuiesceTakesDown(states: seq<State>, steps: seq<Step>) returns (more: seq<State>, path: seq<Step>)
    requires IsRun(states, steps) && states[|steps|].holder == Free
    ensures OneCall(path, EnterQuiesce)
    ensures exists t :: LeadsTo(states, steps, path, more, t) && t.holder == Free && t.alive == {} && !t.desired
                        && (states[|steps|].alive != {} ==> Down(t))
  {
    var s := states[|steps|];
    RunInv(states, steps, |steps|);
    StepKeepsInv(s, EnterQuiesce);
    if c :| c in s.alive {
      TwoSteps(s, EnterQuiesce, Advance(true));
      StepKeepsInv(Apply(s, EnterQuiesce), Advance(true));
      KillSucceeds(End(s, [EnterQuiesce, Advance(true)]), c, Return);
      path := [EnterQuiesce, Advance(true)] + Kill(c);
      PathsJoin(s, [EnterQuiesce, Advance(true)], Kill(c));
    } else {
      NobodySeen(s);
      ThreeSteps(s, EnterQuiesce, Advance(false), Advance(true));
      path := [EnterQuiesce, Advance(false), Advance(true)];
    }
    more := Leads(states, steps, path);
  }

  // ---------------------------------------------------------------- restart

  /** Restart brings up a new child whether or not one was running. */
  lemma RestartBringsUp(states: seq<State>, steps: seq<Step>) returns (more: seq<State>, path: seq<Step>)
    requires IsRun(states, steps) && states[|steps|].holder == Free
    ensures OneCall(path, EnterRestart)
    ensures exists t :: LeadsTo(states, steps, path, more, t) && Up(t, states[|steps|].next)
  {
    var s := states[|steps|];
    RunInv(states, steps, |steps|);
    var stopped := RestartStops(s);
    ValidatesAndStarts(End(s, stopped));
    path := stopped + START;
    PathsJoin(s, stopped, START);
    more := Leads(states, steps, path);
  }

  lemma RestartStops(s: State) returns (stopped: seq<Step>)
    requires Inv(s) && s.holder == Free
    ensures OneCall(stopped, EnterRestart) && Runnable(s, stopped)
    ensures var t := End(s, stopped); Inv(t) && t.holder == RestartValidate && t.alive == {} && t.next == s.next
  {
    StepKeepsInv(s, EnterRestart);
    if c :| c in s.alive {
      TwoSteps(s, EnterRestart, Advance(true));
      StepKeepsInv(Apply(s, EnterRestart), Advance(true));
      KillSucceeds(End(s, [EnterRestart, Advance(true)]), c, ThenStart);
      stopped := [EnterRestart, Advance(true)] + Kill(c);
      PathsJoin(s, [EnterRestart, Advance(true)], Kill(c));
    } else {
      NobodySeen(s);
      TwoSteps(s, EnterRestart, Advance(false));
      StepKeepsInv(Apply(s, EnterRestart), Advance(false));
      stopped := [EnterRestart, Advance(false)];
    }
  }

  const START := [Advance(true)] + (SPAWN + [Advance(false)])

  lemma ValidatesAndStarts(s: State)
    requires Inv(s) && s.holder == RestartValidate && s.alive == {}
    ensures Runnable(s, START) && Up(End(s, START), s.next)
  {
    OneStep(s, Advance(true));
    StepKeepsInv(s, Advance(true));
    NobodySeen(s);
    StartSucceeds(Apply(s, Advance(true)), Explicit);
    PathsJoin(s, [Advance(true)], SPAWN + [Advance(false)]);
  }

  // ---------------------------------------------------------------- the delayed restart

  /** What c's own goroutine does before its delayed restart, from where it is. */
  function Wake(w: Waiter, c: Child): seq<Step> {
    match w
    case Waiting => [Reap(c), Verdict(c), EnterRevive(c)]
    case Closed => [Verdict(c), EnterRevive(c)]
    case Sleeping => [EnterRevive(c)]
    case Finished => []
  }

  lemma WakesUp(s: State, c: Child)
    requires Inv(s) && s.holder == Free && s.desired && s.cmd == Some(c) && c !in s.alive && s.waiters[c] != Finished
    ensures var path := Wake(s.waiters[c], c);
            && Runnable(s, path)
            && End(s, path) == s.(waiters := s.waiters[c := Finished], holder := ReviveCheck(c))
            && Inv(End(s, path))
  {
    match s.waiters[c]
    case Waiting => ThreeSteps(s, Reap(c), Verdict(c), EnterRevive(c));
    case Closed => TwoSteps(s, Verdict(c), EnterRevive(c));
    case Sleeping => OneStep(s, EnterRevive(c));
  }

  const TESTS := [Advance(true), Advance(false), Advance(true)]

  /** It finds its child still wanted, not running, and the configuration valid, and starts. */
  lemma RevivalStarts(s: State, c: Child)
    requires Inv(s) && s.holder == ReviveCheck(c) && s.desired && s.cmd == Some(c) && s.alive == {}
    ensures var path := TESTS + (SPAWN + [Advance(false)]);
            Runnable(s, path) && Up(End(s, path), s.next)
  {
    NobodySeen(s);
    ThreeSteps(s, Advance(true), Advance(false), Advance(true));
    StepKeepsInv(s, Advance(true));
    StepKeepsInv(Apply(s, Advance(true)), Advance(false));
    StepKeepsInv(Apply(Apply(s, Advance(true)), Advance(false)), Advance(true));
    StartSucceeds(End(s, TESTS), Revive(c));
    PathsJoin(s, TESTS, SPAWN + [Advance(false)]);
  }

  /**
   A core that is wanted and has died comes back: from every state of every run in which nobody holds the lock and
   the recorded child is dead, wanted and has not been restarted yet, its own goroutine, undisturbed and with no
   test failing, brings up a new child that is recorded and wanted.
   */
  lemma CrashedCoreComesBack(states: seq<State>, steps: seq<Step>, c: Child) returns (more: seq<State>, path: seq<Step>)
    requires IsRun(states, steps)
    requires var s := states[|steps|];
             s.holder == Free && s.desired && s.cmd == Some(c) && c !in s.alive && c in s.waiters && s.waiters[c] != Finished
    ensures forall p | p in path :: p in {Reap(c), Verdict(c), EnterRevive(c)} || p.Advance?
    ensures exists t :: LeadsTo(states, steps, path, more, t) && Up(t, states[|steps|].next) && states[|steps|].next != c
  {
    var s := states[|steps|];
    RunInv(states, steps, |steps|);
    WakesUp(s, c);
    var wake := Wake(s.waiters[c], c);
    RevivalStarts(End(s, wake), c);
    path := wake + (TESTS + (SPAWN + [Advance(false)]));
    PathsJoin(s, wake, TESTS + (SPAWN + [Advance(false)]));
    more := Leads(states, steps, path);
  }
}
