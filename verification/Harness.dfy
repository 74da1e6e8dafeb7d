/** `DefaultBenchmarkHarness::run` of crates/crytex-bench/src/harness.rs as a system of steps. Cases run concurrently
    under a semaphore and may finish in any order; what the runner, the scorer and the repository answer is fixed by
    the environment. */
module Harness {
  import opened Wrappers

  datatype Usage = NoUsage | Usage(tokens: nat)

  datatype Output = Output(text: string, latency: nat, usage: Usage)

  datatype Score = Score(passed: bool, value: real)

  datatype Error = NoCases | JoinFailed(case_: nat) | CaseFailed(reason: string) | ScoreFailed(reason: string)
    | RunNotStored | ResultNotStored(case_: nat)

  // What a spawned task ends with: the runner panicked, or returned.
  datatype TaskEnd = Panicked | Failed(reason: string) | Finished(output: Output)

  datatype CaseResult = CaseResult(case_: nat, output: Output, score: Score)

  datatype Environment = Environment(cases: nat, maxConcurrency: nat, runCase: nat -> TaskEnd,
    score: (nat, Output) -> Result<Score, string>, storesRun: bool, storesResult: nat -> bool)

  datatype Effect = RunStored | ResultStored(case_: nat) | Published

  datatype Task = Running(case_: nat) | Ended(case_: nat, end: TaskEnd)

  datatype Phase =
    | Spawning
    | Scoring(scored: seq<CaseResult>)
    | Storing(results: seq<CaseResult>)
    | Done(outcome: Result<seq<CaseResult>, Error>)

  // `holding` says that the loop has a permit it has not yet handed to a task; `finished` is the order in which cases
  // finished, and `log` what was stored and published.
  datatype State = State(permits: nat, holding: bool, tasks: seq<Task>, finished: seq<nat>, phase: Phase,
    log: seq<Effect>)

  datatype Step = Acquire | Spawn | Finish(task: nat) | Join | ScoreNext | StoreRun | StoreNext | Publish

  function Permits(env: Environment): nat {
    if env.maxConcurrency == 0 then 1 else env.maxConcurrency
  }

  function Init(env: Environment): State {
    State(Permits(env), false, [], [], if env.cases == 0 then Done(Err(NoCases)) else Spawning, [])
  }

  predicate AllEnded(tasks: seq<Task>) {
    forall t :: t in tasks ==> t.Ended?
  }

  predicate Enabled(env: Environment, s: State, step: Step) {
    match step
    case Acquire => s.phase.Spawning? && !s.holding && |s.tasks| < env.cases && s.permits > 0
    case Spawn => s.holding
    case Finish(i) => i < |s.tasks| && s.tasks[i].Running?
    case Join => s.phase.Spawning? && |s.tasks| == env.cases && AllEnded(s.tasks)
    case ScoreNext => s.phase.Scoring? && |s.phase.scored| < |s.tasks| && AllEnded(s.tasks)
    case StoreRun => s.phase.Scoring? && |s.phase.scored| == env.cases
    case StoreNext => s.phase.Storing? && 1 <= |s.log| <= |s.phase.results|
    case Publish => s.phase.Storing? && |s.log| == |s.phase.results| + 1
  }

  function Next(env: Environment, s: State, step: Step): State
    requires Enabled(env, s, step)
  {
    match step
    case Acquire => s.(permits := s.permits - 1, holding := true)
    // The permit moves into the task, which drops it when it ends.
    case Spawn => s.(holding := false, tasks := s.tasks + [Running(|s.tasks|)])
    case Finish(i) =>
      var c := s.tasks[i].case_;
      s.(permits := s.permits + 1, tasks := s.tasks[i := Ended(c, env.runCase(c))], finished := s.finished + [c])
    case Join =>
      var ends := Ends(s.tasks);
      if Panicked in ends then s.(phase := Done(Err(JoinFailed(FirstPanic(ends))))) else s.(phase := Scoring([]))
    case ScoreNext =>
      var k := |s.phase.scored|;
      var scored := Scored(env, k, s.tasks[k].end);
      s.(phase := if scored.Err? then Done(Err(scored.error)) else Scoring(s.phase.scored + [scored.value]))
    case StoreRun =>
      if env.storesRun then s.(phase := Storing(s.phase.scored), log := s.log + [RunStored])
      else s.(phase := Done(Err(RunNotStored)))
    case StoreNext =>
      var c := s.phase.results[|s.log| - 1].case_;
      if env.storesResult(c) then s.(log := s.log + [ResultStored(c)]) else s.(phase := Done(Err(ResultNotStored(c))))
    case Publish => s.(phase := Done(Ok(s.phase.results)), log := s.log + [Published])
  }

  function Ends(tasks: seq<Task>): (r: seq<TaskEnd>)
    requires AllEnded(tasks)
    ensures |r| == |tasks| && forall i :: 0 <= i < |r| ==> r[i] == tasks[i].end
  {
    if tasks == [] then [] else [tasks[0].end] + Ends(tasks[1..])
  }

  function FirstPanic(ends: seq<TaskEnd>): (i: nat)
    requires Panicked in ends
    ensures i < |ends| && ends[i] == Panicked && forall j :: 0 <= j < i ==> ends[j] != Panicked
  {
    if ends[0] == Panicked then 0 else 1 + FirstPanic(ends[1..])
  }

  // The end of the task at position `k` of the join is paired with case `k`.
  function Scored(env: Environment, k: nat, end: TaskEnd): Result<CaseResult, Error> {
    match end
    case Finished(output) =>
      var score := env.score(k, output);
      if score.Err? then Err(ScoreFailed(score.error)) else Ok(CaseResult(k, output, score.value))
    case Failed(reason) => Err(CaseFailed(reason))
    case Panicked => Err(JoinFailed(k)) // no panic gets past the join
  }

  // --- one case after another ---

  function CaseEnds(env: Environment): (r: seq<TaskEnd>)
    ensures |r| == env.cases && forall i :: 0 <= i < |r| ==> r[i] == env.runCase(i)
  {
    seq(env.cases, i requires 0 <= i < env.cases => env.runCase(i))
  }

  function ScoreFrom(env: Environment, k: nat): (r: Result<seq<CaseResult>, Error>)
    requires k <= env.cases
    ensures r.Ok? <==> forall i :: k <= i < env.cases ==> Scored(env, i, env.runCase(i)).Ok?
    ensures r.Err? ==> !r.error.ResultNotStored?
    ensures r.Ok? ==> |r.value| == env.cases - k
    ensures r.Ok? ==> forall i :: 0 <= i < |r.value| ==> Scored(env, k + i, env.runCase(k + i)) == Ok(r.value[i])
    decreases env.cases - k
  {
    if k == env.cases then Ok([])
    else
      var first := Scored(env, k, env.runCase(k));
      if first.Err? then Err(first.error)
      else
        var rest := ScoreFrom(env, k + 1);
        if rest.Err? then rest else Ok([first.value] + rest.value)
  }

  // The first result from `k` on that is not stored, or the number of cases.
  function FirstUnstored(env: Environment, k: nat): (r: nat)
    requires k <= env.cases
    ensures k <= r <= env.cases && (r < env.cases ==> !env.storesResult(r))
    ensures forall i :: k <= i < r ==> env.storesResult(i)
    decreases env.cases - k
  {
    if k == env.cases || !env.storesResult(k) then k else FirstUnstored(env, k + 1)
  }

  // What a run in which cases are run one by one, in order, would return. It succeeds if and only if every case ends
  // and is scored and everything is stored; result i is then that of case i.
  function Sequential(env: Environment): (r: Result<seq<CaseResult>, Error>)
    ensures r.Ok? <==> env.cases > 0 && env.storesRun && forall i :: 0 <= i < env.cases ==> CaseSucceeds(env, i)
    ensures r.Ok? ==> |r.value| == env.cases
    ensures r.Ok? ==> forall i :: 0 <= i < env.cases ==>
      CaseSucceeds(env, i) && r.value[i] == ResultOf(env, i)
  {
    if env.cases == 0 then Err(NoCases)
    else if Panicked in CaseEnds(env) then
      assert !CaseSucceeds(env, FirstPanic(CaseEnds(env)));
      Err(JoinFailed(FirstPanic(CaseEnds(env))))
    else
      var scored := ScoreFrom(env, 0);
      assert forall i: nat :: Scored(env, i, env.runCase(i)).Err? ==> !CaseSucceeds(env, i);
      if scored.Err? then scored
      else if !env.storesRun then Err(RunNotStored)
      else
        var k := FirstUnstored(env, 0);
        assert k < env.cases ==> !CaseSucceeds(env, k);
        if k < env.cases then Err(ResultNotStored(k)) else scored
  }

  predicate CaseSucceeds(env: Environment, i: nat) {
    env.runCase(i).Finished? && env.score(i, env.runCase(i).output).Ok? && env.storesResult(i)
  }

  function ResultOf(env: Environment, i: nat): CaseResult
    requires CaseSucceeds(env, i)
  {
    var output := env.runCase(i).output;
    CaseResult(i, output, env.score(i, output).value)
  }

  function FullLog(env: Environment): (r: seq<Effect>)
    ensures |r| == env.cases + 2 && r[0] == RunStored && r[env.cases + 1] == Published
    ensures forall i :: 0 <= i < env.cases ==> r[i + 1] == ResultStored(i)
  {
    [RunStored] + seq(env.cases, i requires 0 <= i < env.cases => ResultStored(i)) + [Published]
  }

  // How much of the full log a run leaves behind.
  function Logged(env: Environment): (r: nat)
    ensures r <= env.cases + 2
  {
    var outcome := Sequential(env);
    if outcome.Ok? then env.cases + 2
    else if outcome.error.ResultNotStored? then outcome.error.case_ + 1
    else 0
  }

  // Scoring stops at the first case that cannot be scored.
  lemma {:induction false} FirstScoringError(env: Environment, from: nat, k: nat)
    requires from <= k < env.cases && Scored(env, k, env.runCase(k)).Err?
    requires forall i :: from <= i < k ==> Scored(env, i, env.runCase(i)).Ok?
    ensures ScoreFrom(env, from) == Err(Scored(env, k, env.runCase(k)).error)
    decreases k - from
  {
    if from < k {
      FirstScoringError(env, from + 1, k);
    }
  }

  // Which error a run returns: a panic comes before anything that scoring finds, scoring before storage, and within each
  // the first case is named.
  lemma WhichError(env: Environment, k: nat)
    requires k < env.cases
    ensures env.runCase(k) == Panicked && (forall i :: 0 <= i < k ==> env.runCase(i) != Panicked) ==>
              Sequential(env) == Err(JoinFailed(k))
    ensures NoPanic(env) && ScoredBefore(env, k) && env.runCase(k).Failed? ==>
              Sequential(env) == Err(CaseFailed(env.runCase(k).reason))
    ensures NoPanic(env) && ScoredBefore(env, k) && env.runCase(k).Finished? && env.score(k, env.runCase(k).output).Err? ==>
              Sequential(env) == Err(ScoreFailed(env.score(k, env.runCase(k).output).error))
    ensures NoPanic(env) && ScoredBefore(env, env.cases) && !env.storesRun ==> Sequential(env) == Err(RunNotStored)
    ensures NoPanic(env) && ScoredBefore(env, env.cases) && env.storesRun && FailsToStoreFirst(env, k) ==>
              Sequential(env) == Err(ResultNotStored(k))
  {
    var ends := CaseEnds(env);
    assert ends[k] == env.runCase(k);
    assert NoPanic(env) <==> Panicked !in ends;
    assert forall i :: 0 <= i < k ==> ends[i] == env.runCase(i);
    if NoPanic(env) && ScoredBefore(env, k) && Scored(env, k, env.runCase(k)).Err? {
      FirstScoringError(env, 0, k);
    }
  }

  ghost predicate NoPanic(env: Environment) {
    forall i :: 0 <= i < env.cases ==> env.runCase(i) != Panicked
  }

  ghost predicate FailsToStoreFirst(env: Environment, k: nat) {
    !env.storesResult(k) && forall i :: 0 <= i < k ==> env.storesResult(i)
  }

  ghost predicate ScoredBefore(env: Environment, k: nat) {
    forall i :: 0 <= i < k ==> env.runCase(i).Finished? && env.score(i, env.runCase(i).output).Ok?
  }
}
