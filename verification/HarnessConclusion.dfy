/** The end of `DefaultBenchmarkHarness::run`, once all tasks are joined: scoring and totals, then storage and the event,
    as loops proved against the sequential outcome of Harness. */
module HarnessConclusion {
  import opened Wrappers
  import opened Harness

  // Rates are exact.
  datatype Summary = Summary(passCount: nat, failCount: nat, totalCases: nat, passRate: real, meanLatency: real,
    totalTokens: nat)

  datatype BenchmarkRun = BenchmarkRun(summary: Summary, results: seq<CaseResult>)

  function Passed(results: seq<CaseResult>): (r: nat)
    ensures r <= |results|
    ensures r == |results| <==> forall x :: x in results ==> x.score.passed
  {
    if results == [] then 0
    else
      var last := results[|results| - 1];
      assert results == results[..|results| - 1] + [last];
      Passed(results[..|results| - 1]) + if last.score.passed then 1 else 0
  }

  function Latency(results: seq<CaseResult>): nat {
    if results == [] then 0
    else Latency(results[..|results| - 1]) + results[|results| - 1].output.latency
  }

  function Tokens(results: seq<CaseResult>): nat {
    if results == [] then 0
    else Tokens(results[..|results| - 1]) + TokensOf(results[|results| - 1].output.usage)
  }

  function TokensOf(usage: Usage): nat {
    match usage
    case NoUsage => 0
    case Usage(tokens) => tokens
  }

  function Summarize(results: seq<CaseResult>): (r: Summary)
    requires results != []
    ensures r.passCount + r.failCount == r.totalCases
    ensures 0.0 <= r.passRate <= 1.0
    ensures r.passRate == 1.0 <==> forall x :: x in results ==> x.score.passed
  {
    var passed, total := Passed(results), |results|;
    RateInRange(passed, total);
    Figures(passed, total, Latency(results), Tokens(results))
  }

  function Figures(passed: nat, total: nat, latency: nat, tokens: nat): Summary
    requires passed <= total && total > 0
  {
    Summary(passed, total - passed, total, passed as real / total as real, latency as real / total as real, tokens)
  }

  lemma RateInRange(part: nat, whole: nat)
    requires part <= whole && whole > 0
    ensures 0.0 <= part as real / whole as real <= 1.0
    ensures part as real / whole as real == 1.0 <==> part == whole
  {
    var rate := part as real / whole as real;
    assert rate * whole as real == part as real;
    assert rate < 0.0 ==> rate * whole as real < 0.0;
    assert rate > 1.0 ==> rate * whole as real > whole as real;
  }

  // --- what the figures mean: those of one case, added up over the cases in any order ---

  lemma SummaryOfOne(x: CaseResult)
    ensures var r := Summarize([x]);
            && r.totalCases == 1 && (r.passCount == 1 <==> x.score.passed) && (r.failCount == 1 <==> !x.score.passed)
            && r.meanLatency == x.output.latency as real
            && r.totalTokens == match x.output.usage { case NoUsage => 0 case Usage(tokens) => tokens }
  {
    TotalsOfOne(x);
  }

  lemma TotalsOfOne(x: CaseResult)
    ensures Passed([x]) == if x.score.passed then 1 else 0
    ensures Latency([x]) == x.output.latency
    ensures Tokens([x]) == match x.output.usage { case NoUsage => 0 case Usage(tokens) => tokens }
  {
    assert [x][..0] == [];
    assert Passed([x][..0]) == 0 && Latency([x][..0]) == 0 && Tokens([x][..0]) == 0;
    assert x in [x];
  }

  lemma {:induction false} TotalsAdd(a: seq<CaseResult>, b: seq<CaseResult>)
    ensures Passed(a + b) == Passed(a) + Passed(b)
    ensures Latency(a + b) == Latency(a) + Latency(b)
    ensures Tokens(a + b) == Tokens(a) + Tokens(b)
  {
    if b == [] {
      assert a + b == a;
    } else {
      TotalsAdd(a, b[..|b| - 1]);
      assert (a + b)[..|a + b| - 1] == a + b[..|b| - 1];
    }
  }

  lemma TotalsOneMore(a: seq<CaseResult>, x: CaseResult)
    ensures Passed(a + [x]) == Passed(a) + if x.score.passed then 1 else 0
    ensures Latency(a + [x]) == Latency(a) + x.output.latency
    ensures Tokens(a + [x]) == Tokens(a) + if x.output.usage.Usage? then x.output.usage.tokens else 0
  {
    TotalsAdd(a, [x]);
    TotalsOfOne(x);
  }

  lemma SummariesAdd(a: seq<CaseResult>, b: seq<CaseResult>)
    requires a != [] && b != []
    ensures var r, s, t := Summarize(a), Summarize(b), Summarize(a + b);
            && t.totalCases == r.totalCases + s.totalCases && t.passCount == r.passCount + s.passCount
            && Times(t.passRate, t.totalCases) == t.passCount as real
            && Times(t.meanLatency, t.totalCases) == Times(r.meanLatency, r.totalCases) + Times(s.meanLatency, s.totalCases)
            && t.totalTokens == r.totalTokens + s.totalTokens
  {
    TotalsAdd(a, b);
    Totals(a);
    Totals(b);
    Totals(a + b);
    hide Passed, Latency, Tokens, Summarize, Times;
  }

  function Times(mean: real, count: nat): real {
    mean * count as real
  }

  lemma Totals(a: seq<CaseResult>)
    requires a != []
    ensures var r := Summarize(a);
            && r.totalCases == |a| && r.passCount == Passed(a) && r.totalTokens == Tokens(a)
            && Times(r.meanLatency, |a|) == Latency(a) as real && Times(r.passRate, |a|) == Passed(a) as real
  {
    TimesQuotient(Latency(a) as real, |a|);
    TimesQuotient(Passed(a) as real, |a|);
    hide Passed, Latency, Tokens, Times;
  }

  lemma TimesQuotient(sum: real, count: nat)
    requires count > 0
    ensures Times(sum / count as real, count) == sum
  {
  }

  function Rest(s: seq<CaseResult>, i: nat): seq<CaseResult>
    requires i < |s|
  {
    s[..i] + s[i + 1..]
  }

  lemma TotalsWithout(s: seq<CaseResult>, i: nat)
    requires i < |s|
    ensures |Rest(s, i)| == |s| - 1 && multiset(Rest(s, i)) == multiset(s) - multiset{s[i]}
    ensures Passed(s) == Passed([s[i]]) + Passed(Rest(s, i)) && Latency(s) == Latency([s[i]]) + Latency(Rest(s, i))
    ensures Tokens(s) == Tokens([s[i]]) + Tokens(Rest(s, i))
  {
    assert s == s[..i] + [s[i]] + s[i + 1..];
    TotalsAdd(s[..i] + [s[i]], s[i + 1..]);
    TotalsAdd(s[..i], [s[i]]);
    TotalsAdd(s[..i], s[i + 1..]);
    hide Passed, Latency, Tokens;
  }

  lemma PlaceOf(x: CaseResult, s: seq<CaseResult>) returns (i: nat)
    requires x in multiset(s)
    ensures i < |s| && s[i] == x
  {
    i :| 0 <= i < |s| && s[i] == x;
  }

  lemma {:induction false} TotalsIgnoreOrder(a: seq<CaseResult>, b: seq<CaseResult>)
    requires multiset(a) == multiset(b)
    ensures |a| == |b| && Passed(a) == Passed(b) && Latency(a) == Latency(b) && Tokens(a) == Tokens(b)
    decreases |a|
  {
    assert |multiset(a)| == |a| && |multiset(b)| == |b|;
    hide Passed, Latency, Tokens, Rest;
    if a != [] {
      assert a[0] in multiset(a);
      var i := PlaceOf(a[0], b);
      TotalsWithout(a, 0);
      TotalsWithout(b, i);
      TotalsIgnoreOrder(Rest(a, 0), Rest(b, i));
    }
  }

  lemma SummaryIgnoresOrder(a: seq<CaseResult>, b: seq<CaseResult>)
    requires a != [] && multiset(a) == multiset(b)
    ensures b != [] && Summarize(a) == Summarize(b)
  {
    TotalsIgnoreOrder(a, b);
  }

  class DefaultBenchmarkHarness {
    // What the repository stored and the event service published.
    var log: seq<Effect>

    constructor ()
      ensures log == []
    {
      log := [];
    }

    static method ScoreOne(env: Environment, k: nat, end: TaskEnd) returns (r: Result<CaseResult, Error>)
      requires end != Panicked
      ensures r == Scored(env, k, end)
    {
      if end.Failed? {
        return Err(CaseFailed(end.reason));
      }
      var score := env.score(k, end.output);
      if score.Err? {
        return Err(ScoreFailed(score.error));
      }
      r := Ok(CaseResult(k, end.output, score.value));
    }

    static method ScoreAll(env: Environment, ends: seq<TaskEnd>) returns (r: Result<BenchmarkRun, Error>)
      requires env.cases > 0 && ends == CaseEnds(env) && Panicked !in ends
      ensures r.Err? ==> ScoreFrom(env, 0) == Err(r.error)
      ensures r.Ok? ==> ScoreFrom(env, 0) == Ok(r.value.results) && r.value.results != []
      ensures r.Ok? ==> r.value.summary == Summarize(r.value.results)
    {
      assert Passed([]) == 0 && Latency([]) == 0 && Tokens([]) == 0;
      hide Scored, ScoreFrom, Passed, Latency, Tokens;
      var results: seq<CaseResult> := [];
      var passCount, totalLatency, totalTokens := 0, 0, 0;
      for k := 0 to |ends|
        invariant |results| == k
        invariant forall i :: 0 <= i < k ==> Scored(env, i, env.runCase(i)) == Ok(results[i])
        invariant passCount == Passed(results)
        invariant totalLatency == Latency(results) && totalTokens == Tokens(results)
      {
        assert ends[k] == env.runCase(k) && ends[k] != Panicked;
        var scored := ScoreOne(env, k, ends[k]);
        if scored.Err? {
          FirstScoringError(env, 0, k);
          return Err(scored.error);
        }
        var result := scored.value;
        if result.score.passed {
          passCount := passCount + 1;
        }
        totalLatency := totalLatency + result.output.latency;
        if result.output.usage.Usage? {
          totalTokens := totalTokens + result.output.usage.tokens;
        }
        TotalsOneMore(results, result);
        results := results + [result];
      }
      assert forall i :: 0 <= i < |ends| ==> Scored(env, 0 + i, env.runCase(0 + i)) == Ok(results[i]);
      assert ScoreFrom(env, 0).value == results;
      assert Summarize(results) == Figures(Passed(results), env.cases, Latency(results), Tokens(results));
      hide Figures, Summarize;
      r := Ok(BenchmarkRun(Figures(passCount, env.cases, totalLatency, totalTokens), results));
    }

    // The repository takes the results one by one and stops at the first it cannot store.
    method StoreResults(env: Environment, results: seq<CaseResult>) returns (r: Result<(), Error>)
      requires ScoreFrom(env, 0) == Ok(results) && log == FullLog(env)[..1]
      modifies this
      ensures r.Ok? <==> FirstUnstored(env, 0) == env.cases
      ensures r.Ok? ==> log == FullLog(env)[..env.cases + 1]
      ensures r.Err? ==> r.error == ResultNotStored(FirstUnstored(env, 0))
      ensures r.Err? ==> log == FullLog(env)[..FirstUnstored(env, 0) + 1]
    {
      for k := 0 to |results|
        invariant log == FullLog(env)[..k + 1]
        invariant FirstUnstored(env, 0) == FirstUnstored(env, k)
      {
        assert results[k].case_ == k by {
          assert Scored(env, 0 + k, env.runCase(0 + k)) == Ok(results[k]);
        }
        if !env.storesResult(results[k].case_) {
          return Err(ResultNotStored(k));
        }
        log := log + [ResultStored(k)];
      }
      r := Ok(());
    }

    method Conclude(env: Environment, ends: seq<TaskEnd>) returns (r: Result<BenchmarkRun, Error>)
      requires env.cases > 0 && ends == CaseEnds(env) && log == []
      modifies this
      ensures Sequential(env) == if r.Ok? then Ok(r.value.results) else Err(r.error)
      ensures r.Ok? ==> r.value.results != [] && r.value.summary == Summarize(r.value.results)
      ensures log == FullLog(env)[..Logged(env)]
    {
      if Panicked in ends {
        return Err(JoinFailed(FirstPanic(ends)));
      }
      var scored := ScoreAll(env, ends);
      if scored.Err? {
        return scored;
      }
      if !env.storesRun {
        return Err(RunNotStored);
      }
      log := log + [RunStored];
      hide ScoreFrom, FirstUnstored, Summarize, CaseEnds;
      var stored := StoreResults(env, scored.value.results);
      if stored.Err? {
        return Err(stored.error);
      }
      log := log + [Published];
      return scored;
    }
  }
}
