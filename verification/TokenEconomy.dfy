/** `TokenEconomyEngine::optimize` and `TokenBudgetPlanner::plan` of
    crates/crytex-compress/src/token_economy.rs. */
module TokenEconomy {
  import opened Wrappers
  import opened Numbers
  import opened Compression
  import opened Offload
  import opened CcrStores
  import ContextCache
  import opened SharedContexts

  datatype Message = Message(role: string, content: string)

  datatype Request = Request(messages: seq<Message>, artifacts: seq<(ArtifactKind, string)>, requiredFacts: seq<string>)

  // Ratios are exact here.
  datatype Quality = Quality(missing: seq<string>, loss: real, passed: bool)

  datatype Report = Report(messages: seq<Message>, artifacts: seq<OffloadReport>, promptTokens: nat, savedTokens: nat,
                           compressionRatio: real, quality: Quality)

  // ----- estimates -----

  function Sum(a: Option<nat>, b: Option<nat>): Option<nat> {
    if a.Some? && b.Some? then Some(a.value + b.value) else None
  }

  function EstimateMessage(estimate: Estimator, m: Message): Option<nat> {
    Sum(Sum(estimate(m.role), estimate(m.content)), Some(4))
  }

  function EstimateMessages(estimate: Estimator, messages: seq<Message>): Option<nat> {
    if messages == [] then Some(0)
    else Sum(EstimateMessages(estimate, messages[..|messages| - 1]), EstimateMessage(estimate, messages[|messages| - 1]))
  }

  function EstimateArtifacts(estimate: Estimator, artifacts: seq<(ArtifactKind, string)>): Option<nat> {
    if artifacts == [] then Some(0)
    else Sum(EstimateArtifacts(estimate, artifacts[..|artifacts| - 1]), estimate(artifacts[|artifacts| - 1].1))
  }

  function InputTokens(estimate: Estimator, q: Request): Option<nat> {
    Sum(EstimateMessages(estimate, q.messages), EstimateArtifacts(estimate, q.artifacts))
  }

  // ----- compression of one message -----

  const MESSAGE_LIMIT: nat := 256
  const MESSAGE_BUDGET: nat := 128

  function Shortened(m: Message, facts: seq<string>): Message {
    Message(m.role, Compress(m.content, facts, MESSAGE_BUDGET))
  }

  predicate IsLong(estimate: Estimator, m: Message) {
    var tokens := EstimateMessage(estimate, m);
    tokens.Some? && tokens.value > MESSAGE_LIMIT
  }

  function Optimized(estimate: Estimator, m: Message, facts: seq<string>): Message {
    if IsLong(estimate, m) then Shortened(m, facts) else m
  }

  // A message estimated at no more than 256 tokens stays as it is; a longer one keeps its role and is cut to its facts and
  // as much of its front as 512 bytes leave room for.
  ghost predicate IsHandled(estimate: Estimator, m: Message, facts: seq<string>, r: Message) {
    && estimate(m.role).Some? && estimate(m.content).Some?
    && var tokens := estimate(m.role).value + estimate(m.content).value + 4;
       && (tokens <= 256 ==> r == m)
       && (tokens > 256 ==> r.role == m.role && IsCut(m.content, facts, 512, r.content))
  }

  lemma OptimizedIsHandled(estimate: Estimator, m: Message, facts: seq<string>)
    requires EstimateMessage(estimate, m).Some?
    ensures IsHandled(estimate, m, facts, Optimized(estimate, m, facts))
  {
    CompressIsCut(m.content, facts, MESSAGE_BUDGET);
    hide IsCut;
  }

  function OptimizedAll(estimate: Estimator, messages: seq<Message>, facts: seq<string>): (r: seq<Message>)
    ensures |r| == |messages| && forall i :: 0 <= i < |r| ==> r[i] == Optimized(estimate, messages[i], facts)
  {
    if messages == [] then []
    else OptimizedAll(estimate, messages[..|messages| - 1], facts) + [Optimized(estimate, messages[|messages| - 1], facts)]
  }

  function Contents(messages: seq<Message>): (r: seq<string>)
    ensures |r| == |messages| && forall i :: 0 <= i < |r| ==> r[i] == messages[i].content
  {
    if messages == [] then [] else [messages[0].content] + Contents(messages[1..])
  }

  // The text the facts are looked for in.
  function ReportText(messages: seq<Message>): string {
    Join(Contents(messages), "\n")
  }

  function MissingFacts(text: string, facts: seq<string>): (r: seq<string>)
    ensures forall f :: f in r <==> f in facts && !Contains(text, f)
    ensures |r| <= |facts|
  {
    if facts == [] then []
    else if !Contains(text, facts[0]) then [facts[0]] + MissingFacts(text, facts[1..])
    else MissingFacts(text, facts[1..])
  }

  function Ratio(part: nat, whole: nat): real {
    if whole == 0 then 1.0 else part as real / whole as real
  }

  function QualityLoss(text: string, facts: seq<string>): real {
    if facts == [] then 0.0 else |MissingFacts(text, facts)| as real / |facts| as real
  }

  function QualityOf(text: string, facts: seq<string>, tokens: nat, originalTokens: nat): Quality {
    Quality(MissingFacts(text, facts), QualityLoss(text, facts), MissingFacts(text, facts) == [] && tokens <= originalTokens)
  }

  // ----- the engine -----

  // The store after offloading the first `k` artifacts.
  function StoreOffloaded(env: Env, store: map<string, string>, artifacts: seq<(ArtifactKind, string)>, k: nat): map<string, string>
    requires k <= |artifacts|
  {
    if k == 0 then store else StoreWith(env, StoreOffloaded(env, store, artifacts, k - 1), artifacts[k - 1].1)
  }

  // What message `k` does to the shared context: a long one is put there.
  ghost function ContextStep(s: ContextCache.Settings, c: ContextCache.Context, estimate: Estimator, m: Message, k: nat, now: nat)
    : (c': ContextCache.Context)
    requires s.maxEntries >= 1 && ContextCache.Healthy(s, c, now)
    ensures ContextCache.Healthy(s, c', now)
  {
    if IsLong(estimate, m) then
      ContextCache.PutRefinesQueue(s, c, MessageKey(k), m.content, None, now);
      ContextCache.Put(s, c, MessageKey(k), m.content, None, now)
    else c
  }

  // The shared context after the first `k` messages.
  ghost function ContextAfter(s: ContextCache.Settings, c: ContextCache.Context, estimate: Estimator, messages: seq<Message>, k: nat, now: nat)
    : (c': ContextCache.Context)
    requires k <= |messages| && s.maxEntries >= 1 && ContextCache.Healthy(s, c, now)
    ensures ContextCache.Healthy(s, c', now)
  {
    if k == 0 then c
    else ContextStep(s, ContextAfter(s, c, estimate, messages, k - 1, now), estimate, messages[k - 1], k - 1, now)
  }

  lemma NoneInContext(s: ContextCache.Settings, c: ContextCache.Context, estimate: Estimator, messages: seq<Message>, now: nat)
    requires s.maxEntries >= 1 && ContextCache.Healthy(s, c, now)
    ensures ContextAfter(s, c, estimate, messages, 0, now) == c
  {
  }

  lemma NextInContext(s: ContextCache.Settings, c: ContextCache.Context, estimate: Estimator, messages: seq<Message>, i: nat, now: nat)
    requires i < |messages| && s.maxEntries >= 1 && ContextCache.Healthy(s, c, now)
    ensures ContextAfter(s, c, estimate, messages, i + 1, now) ==
            ContextStep(s, ContextAfter(s, c, estimate, messages, i, now), estimate, messages[i], i, now)
  {
  }

  lemma NoneOptimized(estimate: Estimator, facts: seq<string>)
    ensures OptimizedAll(estimate, [], facts) == []
  {
  }

  lemma NextOptimized(estimate: Estimator, messages: seq<Message>, facts: seq<string>, i: nat)
    requires i < |messages|
    ensures OptimizedAll(estimate, messages[..i + 1], facts) ==
            OptimizedAll(estimate, messages[..i], facts) + [Optimized(estimate, messages[i], facts)]
  {
    assert messages[..i + 1][..i] == messages[..i];
  }

  function MessageKey(index: nat): string {
    "message-" + Decimal(index)
  }

  // What `optimize` reports: the messages, the long ones shortened, then one user message per artifact.
  ghost predicate IsReport(env: Env, q: Request, r: Report) {
    var input := InputTokens(env.estimate, q);
    && |r.artifacts| == |q.artifacts|
    && (forall i :: 0 <= i < |q.artifacts| ==> ReportOn(env, q.artifacts[i].0, q.artifacts[i].1) == Some(r.artifacts[i]))
    && |r.messages| == |q.messages| + |q.artifacts|
    && (forall i :: 0 <= i < |q.messages| ==> r.messages[i] == Optimized(env.estimate, q.messages[i], q.requiredFacts))
    && (forall i :: 0 <= i < |q.artifacts| ==> r.messages[|q.messages| + i] == Message("user", r.artifacts[i].marker))
    && EstimateMessages(env.estimate, r.messages) == Some(r.promptTokens) && input.Some?
    && r.savedTokens == SaturatingSub(input.value, r.promptTokens)
    && r.compressionRatio == Ratio(r.promptTokens, input.value)
    && r.quality == QualityOf(ReportText(r.messages), q.requiredFacts, r.promptTokens, input.value)
  }

  // The reported messages are determined by the request.
  lemma MessagesAre(env: Env, q: Request, r: Report, all: seq<Message>)
    requires IsReport(env, q, r) && |all| == |q.messages| + |q.artifacts|
    requires forall i :: 0 <= i < |q.messages| ==> all[i] == Optimized(env.estimate, q.messages[i], q.requiredFacts)
    requires forall i :: 0 <= i < |q.artifacts| ==> MarkerIs(env, q.artifacts[i], all[|q.messages| + i])
    ensures r.messages == all
  {
    hide ReportOn, Optimized;
    forall i | 0 <= i < |all|
      ensures r.messages[i] == all[i]
    {
      if i >= |q.messages| {
        assert MarkerIs(env, q.artifacts[i - |q.messages|], all[|q.messages| + (i - |q.messages|)]);
      }
    }
  }

  predicate MarkerIs(env: Env, artifact: (ArtifactKind, string), m: Message) {
    var report := ReportOn(env, artifact.0, artifact.1);
    report.Some? && m == Message("user", report.value.marker)
  }

  predicate AllEstimated(estimate: Estimator, messages: seq<Message>) {
    forall i :: 0 <= i < |messages| ==> EstimateMessage(estimate, messages[i]).Some?
  }

  lemma {:induction false} AllAreEstimated(estimate: Estimator, messages: seq<Message>)
    ensures EstimateMessages(estimate, messages).Some? <==> AllEstimated(estimate, messages)
  {
    if messages != [] {
      AllAreEstimated(estimate, messages[..|messages| - 1]);
      hide EstimateMessage;
    }
  }

  class TokenEconomyEngine {
    const offload: ArtifactOffload
    const context: SharedContext?

    // `new` gives the offloader a threshold of 256 tokens.
    constructor (store: InMemoryCcrStore, estimate: Estimator, computeKey: string -> string, context: SharedContext?)
      ensures offload.store == store && offload.env == Env(estimate, 256, computeKey) && this.context == context
    {
      this.context := context;
      offload := new ArtifactOffload(store, Env(estimate, 256, computeKey));
    }

    ghost predicate Ready(now: nat)
      reads this, context
    {
      context != null ==> context.settings.maxEntries >= 1 && ContextCache.Healthy(context.settings, context.State(), now)
    }

    // The shared context can estimate a long message.
    predicate AcceptsMessage(m: Message) {
      context != null && IsLong(offload.env.estimate, m) ==>
        ContextCache.NewPayload(context.settings, m.content, None).Some?
    }

    predicate ContextAccepts(q: Request) {
      forall i :: 0 <= i < |q.messages| ==> AcceptsMessage(q.messages[i])
    }

    // How many messages are handled from `k` on: all of them, or up to the first that fails, which may still change the
    // shared context.
    function HandledTo(q: Request, k: nat): (n: nat)
      requires k <= |q.messages|
      ensures k <= n <= |q.messages|
      ensures (forall i :: k <= i < |q.messages| ==> Succeeds(q.messages[i])) ==> n == |q.messages|
      decreases |q.messages| - k
    {
      if k == |q.messages| then k else if Succeeds(q.messages[k]) then HandledTo(q, k + 1) else k + 1
    }

    predicate Succeeds(m: Message) {
      EstimateMessage(offload.env.estimate, m).Some? && AcceptsMessage(m)
    }

    method CompressMessage(index: nat, m: Message, facts: seq<string>, now: nat) returns (r: Option<Message>)
      requires Ready(now)
      modifies context
      ensures Ready(now)
      ensures r.Some? <==> Succeeds(m)
      ensures r.Some? ==> r.value == Optimized(offload.env.estimate, m, facts)
      ensures r.Some? ==> IsHandled(offload.env.estimate, m, facts, r.value)
      ensures context != null ==>
                context.State() == ContextStep(context.settings, old(context.State()), offload.env.estimate, m, index, now)
    {
      var tokens := EstimateMessage(offload.env.estimate, m);
      if tokens.None? {
        return None;
      }
      OptimizedIsHandled(offload.env.estimate, m, facts);
      if tokens.value <= MESSAGE_LIMIT {
        return Some(m);
      }
      var compressed := Compress(m.content, facts, MESSAGE_BUDGET);
      if context != null {
        ContextCache.PutRefinesQueue(context.settings, context.State(), MessageKey(index), m.content, None, now);
        var put := context.Put(MessageKey(index), m.content, None, now);
        if put.EstimateFailed? {
          return None;
        }
      }
      r := Some(Message(m.role, compressed));
    }

    lemma AllSucceedIff(q: Request)
      ensures (forall i :: 0 <= i < |q.messages| ==> Succeeds(q.messages[i])) <==>
              ContextAccepts(q) && AllEstimated(offload.env.estimate, q.messages)
    {
    }

    method CompressMessages(q: Request, now: nat) returns (r: Option<seq<Message>>)
      requires Ready(now)
      modifies context
      ensures Ready(now)
      ensures r.Some? <==> ContextAccepts(q) && AllEstimated(offload.env.estimate, q.messages)
      ensures r.Some? ==> r.value == OptimizedAll(offload.env.estimate, q.messages, q.requiredFacts)
      ensures context != null ==>
                context.State() == ContextAfter(context.settings, old(context.State()), offload.env.estimate, q.messages, HandledTo(q, 0), now)
    {
      AllSucceedIff(q);
      hide EstimateMessage, Optimized, ContextStep, AcceptsMessage, Succeeds, ContextAccepts, AllEstimated;
      hide ContextAfter, OptimizedAll;
      var estimate := offload.env.estimate;
      var done: seq<Message> := [];
      NoneOptimized(estimate, q.requiredFacts);
      if context != null {
        NoneInContext(context.settings, context.State(), estimate, q.messages, now);
      }
      for i := 0 to |q.messages|
        invariant Ready(now) && done == OptimizedAll(estimate, q.messages[..i], q.requiredFacts)
        invariant (forall j :: 0 <= j < i ==> Succeeds(q.messages[j])) && HandledTo(q, 0) == HandledTo(q, i)
        invariant context != null ==>
                    context.State() == ContextAfter(context.settings, old(context.State()), estimate, q.messages, i, now)
      {
        NextOptimized(estimate, q.messages, q.requiredFacts, i);
        if context != null {
          NextInContext(context.settings, old(context.State()), estimate, q.messages, i, now);
        }
        var compressed := CompressMessage(i, q.messages[i], q.requiredFacts, now);
        if compressed.None? {
          return None;
        }
        done := done + [compressed.value];
      }
      assert q.messages[..|q.messages|] == q.messages;
      r := Some(done);
    }

    // How many artifacts are offloaded from `k` on: all of them, or up to the first that fails, which may be stored.
    function OffloadedTo(q: Request, k: nat): (n: nat)
      requires k <= |q.artifacts|
      ensures k <= n <= |q.artifacts|
      ensures (forall i :: k <= i < |q.artifacts| ==> ReportOn(offload.env, q.artifacts[i].0, q.artifacts[i].1).Some?) ==>
                n == |q.artifacts|
      decreases |q.artifacts| - k
    {
      if k == |q.artifacts| then k
      else if ReportOn(offload.env, q.artifacts[k].0, q.artifacts[k].1).Some? then OffloadedTo(q, k + 1)
      else k + 1
    }

    method OffloadArtifacts(q: Request) returns (r: Option<seq<OffloadReport>>)
      modifies offload.store
      ensures r.Some? <==> forall i :: 0 <= i < |q.artifacts| ==> ReportOn(offload.env, q.artifacts[i].0, q.artifacts[i].1).Some?
      ensures r.Some? ==> |r.value| == |q.artifacts|
      ensures r.Some? ==>
                forall i :: 0 <= i < |q.artifacts| ==> ReportOn(offload.env, q.artifacts[i].0, q.artifacts[i].1) == Some(r.value[i])
      ensures offload.store.data == StoreOffloaded(offload.env, old(offload.store.data), q.artifacts, OffloadedTo(q, 0))
    {
      hide ReportOn, StoreWith;
      var reports: seq<OffloadReport> := [];
      for i := 0 to |q.artifacts|
        invariant |reports| == i
        invariant forall j :: 0 <= j < i ==> ReportOn(offload.env, q.artifacts[j].0, q.artifacts[j].1) == Some(reports[j])
        invariant offload.store.data == StoreOffloaded(offload.env, old(offload.store.data), q.artifacts, i)
        invariant OffloadedTo(q, 0) == OffloadedTo(q, i)
      {
        var (kind, content) := q.artifacts[i];
        var report := offload.Offload(kind, content);
        if report.None? {
          return None;
        }
        reports := reports + [report.value];
      }
      r := Some(reports);
    }

    method Optimize(q: Request, now: nat) returns (r: Option<Report>)
      requires Ready(now)
      modifies context, offload.store
      ensures Ready(now)
      ensures r.Some? <==> ContextAccepts(q) && exists report :: IsReport(offload.env, q, report)
      ensures r.Some? ==> IsReport(offload.env, q, r.value)
      // however the call ends: nothing is touched unless the input can be estimated, and nothing is stored unless all
      // messages are handled
      ensures context != null ==>
                context.State() == ContextAfter(context.settings, old(context.State()), offload.env.estimate, q.messages,
                  if InputTokens(offload.env.estimate, q).Some? then HandledTo(q, 0) else 0, now)
      ensures offload.store.data == StoreOffloaded(offload.env, old(offload.store.data), q.artifacts,
                if InputTokens(offload.env.estimate, q).Some? && ContextAccepts(q) then OffloadedTo(q, 0) else 0)
    {
      var estimate := offload.env.estimate;
      var input := InputTokens(estimate, q);
      if input.None? {
        return None;
      }
      AllAreEstimated(estimate, q.messages);
      var messages := CompressMessages(q, now);
      if messages.None? {
        return None;
      }
      var reports := OffloadArtifacts(q);
      if reports.None? {
        return None;
      }
      r := Assemble(q, messages.value, reports.value, input.value);
    }

    // The messages, one more for each artifact, and the report on them.
    method Assemble(q: Request, messages: seq<Message>, reports: seq<OffloadReport>, input: nat) returns (r: Option<Report>)
      requires InputTokens(offload.env.estimate, q) == Some(input)
      requires messages == OptimizedAll(offload.env.estimate, q.messages, q.requiredFacts) && |reports| == |q.artifacts|
      requires forall i :: 0 <= i < |q.artifacts| ==> ReportOn(offload.env, q.artifacts[i].0, q.artifacts[i].1) == Some(reports[i])
      ensures r.Some? ==> IsReport(offload.env, q, r.value)
      ensures r.None? ==> !exists report :: IsReport(offload.env, q, report)
    {
      hide ReportOn, EstimateMessages, EstimateArtifacts, Optimized, MissingFacts, QualityOf, ReportText;
      var all := messages;
      for i := 0 to |reports|
        invariant |all| == |messages| + i
        invariant forall j :: 0 <= j < |messages| ==> all[j] == messages[j]
        invariant forall j :: 0 <= j < i ==> all[|messages| + j] == Message("user", reports[j].marker)
      {
        all := all + [Message("user", reports[i].marker)];
      }
      var output := EstimateMessages(offload.env.estimate, all);
      if output.None? {
        forall report | IsReport(offload.env, q, report)
          ensures report.messages == all
        {
          MessagesAre(offload.env, q, report, all);
        }
        return None;
      }
      var quality := QualityOf(ReportText(all), q.requiredFacts, output.value, input);
      r := Some(Report.Report(all, reports, output.value, SaturatingSub(input, output.value), Ratio(output.value, input), quality));
    }
  }

  // ----- required facts survive -----

  // The fact occurs in a message, or in an artifact too small to be offloaded, or among the previewed facts
  // of a large one.
  ghost predicate IsPresent(env: Env, q: Request, fact: string) {
    || (exists i :: 0 <= i < |q.messages| && Contains(q.messages[i].content, fact))
    || (exists i :: 0 <= i < |q.artifacts| && ArtifactShows(env, q.artifacts[i].1, fact))
  }

  ghost predicate ArtifactShows(env: Env, content: string, fact: string) {
    if IsLarge(env, content) then fact in PreviewFacts(content) else Contains(content, fact)
  }

  lemma OptimizedKeeps(env: Env, m: Message, facts: seq<string>, fact: string)
    requires fact in facts && Contains(m.content, fact)
    ensures Contains(Optimized(env.estimate, m, facts).content, fact)
  {
    CompressKeepsFacts(m.content, facts, MESSAGE_BUDGET, fact);
  }

  lemma MarkerShows(env: Env, kind: ArtifactKind, content: string, report: OffloadReport, fact: string)
    requires ReportOn(env, kind, content) == Some(report) && ArtifactShows(env, content, fact)
    ensures Contains(report.marker, fact)
  {
    if IsLarge(env, content) {
      MarkerKeepsPreview(kind, env.estimate(content).value, content, env.computeKey(content), fact);
    }
  }

  lemma MessageInText(messages: seq<Message>, k: nat, fact: string)
    requires k < |messages| && Contains(messages[k].content, fact)
    ensures Contains(ReportText(messages), fact)
  {
    JoinContains(Contents(messages), "\n", k, fact);
  }

  // Every required fact that is present is found in the text that is reported on, so it is not listed missing.
  lemma PresentFactSurvives(env: Env, q: Request, r: Report, fact: string)
    requires IsReport(env, q, r) && fact in q.requiredFacts && IsPresent(env, q, fact)
    ensures Contains(ReportText(r.messages), fact) && fact !in r.quality.missing
  {
    hide Contains, QualityOf, Ratio, EstimateMessages, EstimateArtifacts, Optimized, ArtifactShows, ReportText;
    if i :| 0 <= i < |q.messages| && Contains(q.messages[i].content, fact) {
      OptimizedKeeps(env, q.messages[i], q.requiredFacts, fact);
      MessageInText(r.messages, i, fact);
    } else {
      var j :| 0 <= j < |q.artifacts| && ArtifactShows(env, q.artifacts[j].1, fact);
      MarkerShows(env, q.artifacts[j].0, q.artifacts[j].1, r.artifacts[j], fact);
      MessageInText(r.messages, |q.messages| + j, fact);
    }
    MissingIsAbsent(env, q, r, fact);
  }

  lemma MissingIsAbsent(env: Env, q: Request, r: Report, fact: string)
    requires IsReport(env, q, r)
    ensures fact in r.quality.missing <==> fact in q.requiredFacts && !Contains(ReportText(r.messages), fact)
  {
  }

  lemma SomethingIn(s: seq<string>)
    ensures s == [] || exists x :: x in s
  {
    if s != [] {
      assert s[0] in s;
    }
  }

  // When every required fact is present, nothing is missing.
  lemma AllPresentNoneMissing(env: Env, q: Request, r: Report)
    requires IsReport(env, q, r) && forall fact :: fact in q.requiredFacts ==> IsPresent(env, q, fact)
    ensures r.quality.missing == [] && r.quality.loss == 0.0
  {
    hide IsReport, IsPresent, Contains;
    forall fact
      ensures fact !in r.quality.missing
    {
      MissingIsAbsent(env, q, r, fact);
      if fact in q.requiredFacts {
        PresentFactSurvives(env, q, r, fact);
      }
    }
    SomethingIn(r.quality.missing);
    LossIsShareMissing(env, q, r);
  }

  // The loss is 0 exactly when nothing is missing, and never more than 1.
  lemma LossIsShareMissing(env: Env, q: Request, r: Report)
    requires IsReport(env, q, r)
    ensures r.quality.loss == 0.0 <==> r.quality.missing == []
    ensures 0.0 <= r.quality.loss <= 1.0
  {
    QualityIs(env, q, r);
    hide IsReport, MissingFacts, ReportText;
    if q.requiredFacts != [] {
      Share(|r.quality.missing|, |q.requiredFacts|);
    }
  }

  lemma QualityIs(env: Env, q: Request, r: Report)
    requires IsReport(env, q, r)
    ensures r.quality.missing == MissingFacts(ReportText(r.messages), q.requiredFacts)
    ensures r.quality.loss == if q.requiredFacts == [] then 0.0 else |r.quality.missing| as real / |q.requiredFacts| as real
  {
  }

  lemma Share(part: nat, whole: nat)
    requires 0 < whole && part <= whole
    ensures 0.0 <= part as real / whole as real <= 1.0
    ensures part as real / whole as real == 0.0 <==> part == 0
  {
  }

  // ----- the budget planner -----

  datatype Profile = Profile(contextWindow: nat, safetyMargin: nat)

  datatype Allocation = Allocation(total: nat, prompt: nat, completion: nat, safety: nat, rag: nat, artifact: nat, shared: nat)

  datatype PlanResult = Planned(allocation: Allocation) | MissingProfile | ExhaustedContext

  function Plan(profiles: map<(string, string), Profile>, backend: string, model: string, prompt: nat, completion: nat): PlanResult {
    if (backend, model) !in profiles then MissingProfile
    else
      var p := profiles[(backend, model)];
      var fixed := SaturatingAdd(SaturatingAdd(prompt, completion), p.safetyMargin);
      if p.contextWindow < fixed then ExhaustedContext
      else
        var remaining := p.contextWindow - fixed;
        Planned(Allocation(p.contextWindow, prompt, completion, p.safetyMargin, remaining / 2, remaining / 3,
                           SaturatingSub(remaining, remaining / 2 + remaining / 3)))
  }

  // A plan shares out the whole window, unless the fixed parts overflow and the window is as large as can be.
  lemma PlanSharesWindow(profiles: map<(string, string), Profile>, backend: string, model: string, prompt: nat, completion: nat)
    requires (backend, model) in profiles && profiles[(backend, model)].contextWindow <= USIZE_MAX
    ensures var p, r := profiles[(backend, model)], Plan(profiles, backend, model, prompt, completion);
            var overflow := prompt + completion + p.safetyMargin > USIZE_MAX && p.contextWindow == USIZE_MAX;
            && (r.Planned? <==> prompt + completion + p.safetyMargin <= p.contextWindow || overflow)
            && (r.Planned? ==> var a := r.allocation;
                  a.prompt + a.completion + a.safety + a.rag + a.artifact + a.shared == a.total <==> !overflow)
    ensures var p, r := profiles[(backend, model)], Plan(profiles, backend, model, prompt, completion);
            r.Planned? ==>
              var a, used := r.allocation, prompt + completion + p.safetyMargin;
              && a.total == p.contextWindow && a.prompt == prompt && a.completion == completion && a.safety == p.safetyMargin
              && (used <= a.total ==> a.rag == (a.total - used) / 2 && a.artifact == (a.total - used) / 3)
              && (used > a.total ==> a.rag == a.artifact == a.shared == 0)
  {
  }

  // A window of the largest size with a prompt that fills it: one more token of completion is let through.
  lemma OverfullPlan()
    ensures var r := Plan(map[("b", "m") := Profile(USIZE_MAX, 0)], "b", "m", USIZE_MAX, 1);
            r.Planned? && r.allocation.prompt + r.allocation.completion > r.allocation.total
  {
  }
}
