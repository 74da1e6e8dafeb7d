/** Every run of the benchmark harness: permits, order of storage, outcome, and the absence of deadlock. */
module HarnessRuns {
  import opened Wrappers
  import opened Harness

  function RunningTasks(tasks: seq<Task>): nat {
    if tasks == [] then 0 else (if tasks[0].Running? then 1 else 0) + RunningTasks(tasks[1..])
  }

  ghost predicate TasksOk(env: Environment, s: State) {
    && |s.tasks| <= env.cases
    && (forall i :: 0 <= i < |s.tasks| ==> s.tasks[i].case_ == i)
    && (forall i :: 0 <= i < |s.tasks| && s.tasks[i].Ended? ==> s.tasks[i].end == env.runCase(i))
    && (s.holding ==> s.phase.Spawning? && |s.tasks| < env.cases)
    && (!s.phase.Spawning? ==> AllEnded(s.tasks) && |s.tasks| == env.cases)
  }

  ghost predicate PermitsConserved(env: Environment, s: State) {
    s.permits + (if s.holding then 1 else 0) + RunningTasks(s.tasks) == Permits(env)
  }

  // A case has finished once if its task has ended and not at all otherwise.
  ghost predicate FinishedOnce(s: State) {
    forall c: nat :: multiset(s.finished)[c] == if c < |s.tasks| && s.tasks[c].Ended? then 1 else 0
  }

  ghost predicate PhaseOk(env: Environment, s: State) {
    match s.phase
    case Spawning => env.cases > 0 && s.log == []
    case Scoring(scored) => ScoringOk(env, scored) && s.log == []
    case Storing(results) =>
      StoringOk(env, results) && 1 <= |s.log| <= FirstUnstored(env, 0) + 1 && s.log == FullLog(env)[..|s.log|]
    case Done(outcome) => outcome == Sequential(env) && s.log == FullLog(env)[..Logged(env)]
  }

  ghost predicate ScoringOk(env: Environment, scored: seq<CaseResult>) {
    && env.cases > 0 && Panicked !in CaseEnds(env) && |scored| <= env.cases
    && forall i :: 0 <= i < |scored| ==> Scored(env, i, env.runCase(i)) == Ok(scored[i])
  }

  ghost predicate StoringOk(env: Environment, results: seq<CaseResult>) {
    env.cases > 0 && Panicked !in CaseEnds(env) && ScoreFrom(env, 0) == Ok(results) && env.storesRun
  }

  ghost predicate Inv(env: Environment, s: State) {
    TasksOk(env, s) && PermitsConserved(env, s) && FinishedOnce(s) && PhaseOk(env, s)
  }

  lemma {:induction false} RunningAppend(tasks: seq<Task>, t: Task)
    ensures RunningTasks(tasks + [t]) == RunningTasks(tasks) + if t.Running? then 1 else 0
  {
    if tasks != [] {
      assert (tasks + [t])[1..] == tasks[1..] + [t];
      RunningAppend(tasks[1..], t);
    }
  }

  lemma {:induction false} RunningUpdate(tasks: seq<Task>, i: nat, t: Task)
    requires i < |tasks| && tasks[i].Running? && t.Ended?
    ensures RunningTasks(tasks[i := t]) == RunningTasks(tasks) - 1
  {
    if i > 0 {
      assert tasks[i := t][1..] == tasks[1..][i - 1 := t];
      RunningUpdate(tasks[1..], i - 1, t);
    } else {
      assert tasks[i := t][1..] == tasks[1..];
    }
  }

  lemma {:induction false} SomeRunning(tasks: seq<Task>)
    ensures RunningTasks(tasks) > 0 <==> !AllEnded(tasks)
    ensures !AllEnded(tasks) ==> exists i :: 0 <= i < |tasks| && tasks[i].Running?
  {
    if tasks != [] {
      SomeRunning(tasks[1..]);
      assert tasks[0] in tasks;
      assert forall t :: t in tasks[1..] ==> t in tasks;
      assert forall t :: t in tasks ==> t == tasks[0] || t in tasks[1..];
    }
  }

  lemma SpawnKeeps(env: Environment, s: State)
    requires Inv(env, s) && (Enabled(env, s, Acquire) || Enabled(env, s, Spawn))
    ensures Enabled(env, s, Acquire) ==> Inv(env, Next(env, s, Acquire))
    ensures Enabled(env, s, Spawn) ==> Inv(env, Next(env, s, Spawn))
  {
    RunningAppend(s.tasks, Running(|s.tasks|));
  }

  lemma FinishKeeps(env: Environment, s: State, i: nat)
    requires Inv(env, s) && Enabled(env, s, Finish(i))
    ensures Inv(env, Next(env, s, Finish(i)))
  {
    RunningUpdate(s.tasks, i, Ended(i, env.runCase(i)));
    assert s.tasks[i] in s.tasks;
    assert s.phase.Spawning?;
  }

  lemma JoinKeeps(env: Environment, s: State)
    requires Inv(env, s) && Enabled(env, s, Join)
    ensures Inv(env, Next(env, s, Join))
  {
    assert Ends(s.tasks) == CaseEnds(env) by {
      assert forall i :: 0 <= i < |s.tasks| ==> s.tasks[i] in s.tasks;
    }
  }

  lemma ScoreKeeps(env: Environment, s: State)
    requires Inv(env, s) && Enabled(env, s, ScoreNext)
    ensures Inv(env, Next(env, s, ScoreNext))
  {
    var k := |s.phase.scored|;
    assert s.tasks[k] in s.tasks;
    if Scored(env, k, env.runCase(k)).Err? {
      FirstScoringError(env, 0, k);
    }
  }

  lemma StoreRunKeeps(env: Environment, s: State)
    requires Inv(env, s) && Enabled(env, s, StoreRun)
    ensures Inv(env, Next(env, s, StoreRun))
  {
    var scored := s.phase.scored;
    assert ScoreFrom(env, 0).Ok?;
    assert ScoreFrom(env, 0).value == scored by {
      assert forall i :: 0 <= i < |scored| ==> Scored(env, 0 + i, env.runCase(0 + i)) == Ok(scored[i]);
    }
    assert FullLog(env)[..1] == [RunStored];
  }

  lemma StoresInTurn(env: Environment, results: seq<CaseResult>, k: nat)
    requires StoringOk(env, results) && k < |results|
    ensures results[k].case_ == k
    ensures FullLog(env)[..k + 2] == FullLog(env)[..k + 1] + [ResultStored(k)]
  {
    assert Scored(env, 0 + k, env.runCase(0 + k)) == Ok(results[k]);
  }

  lemma StoreNextInPhase(env: Environment, s: State)
    requires Inv(env, s) && Enabled(env, s, StoreNext)
    ensures PhaseOk(env, Next(env, s, StoreNext))
  {
    var k, results := |s.log| - 1, s.phase.results;
    assert |results| == env.cases && StoringOk(env, results) && k <= FirstUnstored(env, 0);
    StoresInTurn(env, results, k);
    if !env.storesResult(k) {
      assert FirstUnstored(env, 0) == k;
      assert Sequential(env) == Err(ResultNotStored(k));
    } else {
      assert FirstUnstored(env, 0) != k;
    }
    hide FullLog, Sequential, FirstUnstored, StoringOk, TasksOk, PermitsConserved, FinishedOnce;
  }

  lemma StoreNextKeeps(env: Environment, s: State)
    requires Inv(env, s) && Enabled(env, s, StoreNext)
    ensures Inv(env, Next(env, s, StoreNext))
  {
    StoreNextInPhase(env, s);
    hide PhaseOk;
  }

  lemma PublishKeeps(env: Environment, s: State)
    requires Inv(env, s) && Enabled(env, s, Publish)
    ensures Inv(env, Next(env, s, Publish))
  {
    assert FullLog(env) == FullLog(env)[..env.cases + 1] + [Published];
    assert FullLog(env)[..env.cases + 2] == FullLog(env);
  }

  lemma StepKeeps(env: Environment, s: State, step: Step)
    requires Inv(env, s) && Enabled(env, s, step)
    ensures Inv(env, Next(env, s, step))
  {
    hide Inv, Next;
    match step
    case Acquire => SpawnKeeps(env, s);
    case Spawn => SpawnKeeps(env, s);
    case Finish(i) => FinishKeeps(env, s, i);
    case Join => JoinKeeps(env, s);
    case ScoreNext => ScoreKeeps(env, s);
    case StoreRun => StoreRunKeeps(env, s);
    case StoreNext => StoreNextKeeps(env, s);
    case Publish => PublishKeeps(env, s);
  }

  // The state after some steps, if each was enabled.
  ghost predicate Reaches(env: Environment, steps: seq<Step>, s: State) {
    if steps == [] then s == Init(env)
    else
      var last := steps[|steps| - 1];
      exists before :: Reaches(env, steps[..|steps| - 1], before) && Enabled(env, before, last) && s == Next(env, before, last)
  }

  lemma {:induction false} ReachableOk(env: Environment, steps: seq<Step>, s: State)
    requires Reaches(env, steps, s)
    ensures Inv(env, s)
  {
    if steps == [] {
      assert FullLog(env)[..0] == [];
    } else {
      var last := steps[|steps| - 1];
      var before :| Reaches(env, steps[..|steps| - 1], before) && Enabled(env, before, last) && s == Next(env, before, last);
      ReachableOk(env, steps[..|steps| - 1], before);
      StepKeeps(env, before, last);
    }
  }

  // --- what every run keeps ---

  // At no time do more cases run than the configured number, or than one if that number is zero. The permits that are
  // not in use are the rest.
  lemma BoundedConcurrency(env: Environment, steps: seq<Step>, s: State)
    requires Reaches(env, steps, s)
    ensures env.maxConcurrency >= 1 ==> RunningTasks(s.tasks) <= env.maxConcurrency
    ensures env.maxConcurrency == 0 ==> RunningTasks(s.tasks) <= 1
    ensures s.permits + (if s.holding then 1 else 0) + RunningTasks(s.tasks) ==
            if env.maxConcurrency >= 1 then env.maxConcurrency else 1
  {
    ReachableOk(env, steps, s);
  }

  // The bound is not too strict either: any number of cases up to it can be running at once.
  lemma BoundReached(env: Environment, k: nat)
    requires k <= env.cases
    requires k <= if env.maxConcurrency >= 1 then env.maxConcurrency else 1
    ensures exists steps, s :: Reaches(env, steps, s) && RunningTasks(s.tasks) == k && s.finished == []
  {
    if env.cases == 0 {
      assert Reaches(env, [], Init(env));
    } else {
      var steps, s := StartCases(env, k);
    }
  }

  lemma {:induction false} StartCases(env: Environment, k: nat) returns (steps: seq<Step>, s: State)
    requires 0 < env.cases && k <= env.cases && k <= Permits(env)
    ensures Reaches(env, steps, s) && s.phase.Spawning? && !s.holding && s.finished == []
    ensures |s.tasks| == k && RunningTasks(s.tasks) == k && s.permits == Permits(env) - k
  {
    if k == 0 {
      return [], Init(env);
    }
    var before, t := StartCases(env, k - 1);
    var held := Next(env, t, Acquire);
    StepReaches(env, before, t, Acquire);
    StepReaches(env, before + [Acquire], held, Spawn);
    steps, s := before + [Acquire] + [Spawn], Next(env, held, Spawn);
    RunningAppend(t.tasks, Running(|t.tasks|));
  }

  lemma StepReaches(env: Environment, steps: seq<Step>, s: State, step: Step)
    requires Reaches(env, steps, s) && Enabled(env, s, step)
    ensures Reaches(env, steps + [step], Next(env, s, step))
  {
    var longer := steps + [step];
    assert longer[..|longer| - 1] == steps;
    assert Reaches(env, longer[..|longer| - 1], s) && longer[|longer| - 1] == step;
  }

  // What is stored and published is at any time a prefix of: the run, each result in order, the event.
  lemma StoredInOrder(env: Environment, steps: seq<Step>, s: State)
    requires Reaches(env, steps, s)
    ensures s.log <= FullLog(env)
    ensures s.log != [] ==> |s.tasks| == env.cases && AllEnded(s.tasks)
  {
    ReachableOk(env, steps, s);
  }

  // Whatever the order in which cases finished, each finished once, and the outcome and everything stored are those of
  // running the cases one after another.
  lemma OutcomeIsSequential(env: Environment, steps: seq<Step>, s: State)
    requires Reaches(env, steps, s) && s.phase.Done?
    ensures s.phase.outcome == Sequential(env) && s.log == FullLog(env)[..Logged(env)]
    ensures s.phase.outcome.Ok? ==> s.log == FullLog(env)
    ensures s.phase.outcome.Err? && s.phase.outcome.error.ResultNotStored? ==>
              s.phase.outcome.error.case_ < env.cases && s.log == FullLog(env)[..s.phase.outcome.error.case_ + 1]
    ensures s.phase.outcome.Err? && !s.phase.outcome.error.ResultNotStored? ==> s.log == []
    ensures forall c: nat :: multiset(s.finished)[c] == if c < env.cases then 1 else 0
  {
    ReachableOk(env, steps, s);
    forall c: nat
      ensures multiset(s.finished)[c] == if c < env.cases then 1 else 0
    {
      if c < |s.tasks| {
        assert s.tasks[c] in s.tasks;
      }
    }
  }

  // Until it is done some step can be taken,
  lemma NoDeadlock(env: Environment, steps: seq<Step>, s: State)
    requires Reaches(env, steps, s)
    ensures s.phase.Done? <==> !exists step :: Enabled(env, s, step)
  {
    ReachableOk(env, steps, s);
    SomeRunning(s.tasks);
    match s.phase
    case Spawning =>
      if s.holding {
        assert Enabled(env, s, Spawn);
      } else if !AllEnded(s.tasks) {
        var i :| 0 <= i < |s.tasks| && s.tasks[i].Running?;
        assert Enabled(env, s, Finish(i));
      } else if |s.tasks| < env.cases {
        assert Enabled(env, s, Acquire);
      } else {
        assert Enabled(env, s, Join);
      }
    case Scoring(scored) =>
      assert Enabled(env, s, if |scored| < env.cases then ScoreNext else StoreRun);
    case Storing(results) =>
      assert Enabled(env, s, if |s.log| <= |results| then StoreNext else Publish);
    case Done(_) =>
      assert forall i :: 0 <= i < |s.tasks| ==> s.tasks[i] in s.tasks;
  }

  // and every step uses up some of a fixed allowance, so every run is done after at most that many steps.
  function Remaining(env: Environment, s: State): int {
    match s.phase
    case Spawning =>
      3 * (env.cases - |s.tasks|) - (if s.holding then 1 else 0) + RunningTasks(s.tasks) + 2 * env.cases + 4
    case Scoring(scored) => 2 * env.cases + 3 - |scored|
    case Storing(results) => env.cases + 3 - |s.log|
    case Done(_) => 0
  }

  lemma RemainingDrops(env: Environment, s: State, step: Step)
    requires Inv(env, s) && Enabled(env, s, step)
    ensures Remaining(env, s) > Remaining(env, Next(env, s, step)) >= 0
  {
    hide FullLog, FinishedOnce, Sequential, Scored, Ends, ScoreFrom;
    StepKeeps(env, s, step);
    RunningAppend(s.tasks, Running(|s.tasks|));
    if step.Finish? {
      RunningUpdate(s.tasks, step.task, Ended(step.task, env.runCase(step.task)));
      assert s.tasks[step.task] in s.tasks;
    }
  }

  lemma {:induction false} RunsEnd(env: Environment, steps: seq<Step>, s: State)
    requires Reaches(env, steps, s)
    ensures |steps| + Remaining(env, s) <= 5 * env.cases + 4 && Remaining(env, s) >= 0
  {
    if steps != [] {
      var last := steps[|steps| - 1];
      var before :| Reaches(env, steps[..|steps| - 1], before) && Enabled(env, before, last) && s == Next(env, before, last);
      RunsEnd(env, steps[..|steps| - 1], before);
      ReachableOk(env, steps[..|steps| - 1], before);
      RemainingDrops(env, before, last);
    }
  }
}
