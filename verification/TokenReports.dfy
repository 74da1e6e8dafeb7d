/** What a report of `optimize` says, in terms of the estimates and texts of the request: its messages, its figures and the
    artifacts it lists. */
module TokenReports {
  import opened Wrappers
  import opened Numbers
  import opened Compression
  import opened Offload
  import opened CcrStores
  import opened TokenEconomy

  // Message by message: a short one is reported as it is, of a long one its role, its facts and as much of its front as
  // 512 bytes leave room for.
  lemma ReportedMessage(env: Env, q: Request, r: Report, i: nat)
    requires IsReport(env, q, r) && i < |q.messages|
    ensures var m := q.messages[i];
            && env.estimate(m.role).Some? && env.estimate(m.content).Some?
            && var tokens := env.estimate(m.role).value + env.estimate(m.content).value + 4;
               && (tokens <= 256 ==> r.messages[i] == m)
               && (tokens > 256 ==>
                     r.messages[i].role == m.role && IsCut(m.content, q.requiredFacts, 512, r.messages[i].content))
  {
    AllAreEstimated(env.estimate, q.messages);
    assert AllEstimated(env.estimate, q.messages);
    OptimizedIsHandled(env.estimate, q.messages[i], q.requiredFacts);
  }

  // A long message in which no required fact occurs is cut to its first 512 characters.
  lemma LongMessageIsCut(env: Env, q: Request, r: Report, i: nat)
    requires IsReport(env, q, r) && i < |q.messages|
    requires forall f :: f in q.requiredFacts ==> !Contains(q.messages[i].content, f)
    ensures var m := q.messages[i];
            && env.estimate(m.role).Some? && env.estimate(m.content).Some?
            && (env.estimate(m.role).value + env.estimate(m.content).value + 4 > 256 && |m.content| > 512 ==>
                  r.messages[i] == Message(m.role, m.content[..512]))
  {
    ReportedMessage(env, q, r, i);
    var m := q.messages[i];
    if IsCut(m.content, q.requiredFacts, 512, r.messages[i].content) {
      CutWithoutFacts(m.content, q.requiredFacts, 512, r.messages[i].content);
    }
    hide IsReport, IsCut, Contains;
  }

  // --- the figures ---

  // A list of messages is estimated by the sum of its messages, each by its role, its content and 4 more.
  lemma {:induction false} EstimatesAdd(estimate: Estimator, a: seq<Message>, b: seq<Message>)
    ensures EstimateMessages(estimate, a + b) == match (EstimateMessages(estimate, a), EstimateMessages(estimate, b)) {
              case (Some(m), Some(n)) => Some(m + n)
              case _ => None
            }
  {
    if b == [] {
      assert a + b == a;
    } else {
      var before, last := b[..|b| - 1], b[|b| - 1];
      EstimatesAdd(estimate, a, before);
      assert b == before + [last] && a + b == a + before + [last];
      EstimateOneMore(estimate, a + before, last);
      EstimateOneMore(estimate, before, last);
      hide EstimateMessage, EstimateMessages;
    }
  }

  lemma EstimateOneMore(estimate: Estimator, a: seq<Message>, m: Message)
    ensures EstimateMessages(estimate, a + [m]) == Sum(EstimateMessages(estimate, a), EstimateMessage(estimate, m))
  {
    assert (a + [m])[..|a|] == a;
    hide EstimateMessage;
  }

  lemma EstimateOfOne(estimate: Estimator, m: Message)
    ensures EstimateMessages(estimate, []) == Some(0)
    ensures EstimateMessages(estimate, [m]) == match (estimate(m.role), estimate(m.content)) {
              case (Some(role), Some(content)) => Some(role + content + 4)
              case _ => None
            }
  {
    assert [m][..0] == [];
    assert EstimateMessages(estimate, [m][..0]) == Some(0);
  }

  lemma {:induction false} ArtifactEstimatesAdd(estimate: Estimator, a: seq<(ArtifactKind, string)>, b: seq<(ArtifactKind, string)>)
    ensures EstimateArtifacts(estimate, a + b) == match (EstimateArtifacts(estimate, a), EstimateArtifacts(estimate, b)) {
              case (Some(m), Some(n)) => Some(m + n)
              case _ => None
            }
  {
    if b == [] {
      assert a + b == a;
    } else {
      var before, last := b[..|b| - 1], b[|b| - 1];
      ArtifactEstimatesAdd(estimate, a, before);
      assert b == before + [last] && a + b == a + before + [last];
      ArtifactOneMore(estimate, a + before, last);
      ArtifactOneMore(estimate, before, last);
      hide EstimateArtifacts;
    }
  }

  lemma ArtifactOneMore(estimate: Estimator, a: seq<(ArtifactKind, string)>, artifact: (ArtifactKind, string))
    ensures EstimateArtifacts(estimate, a + [artifact]) == Sum(EstimateArtifacts(estimate, a), estimate(artifact.1))
  {
    assert (a + [artifact])[..|a|] == a;
  }

  lemma ArtifactEstimateOfOne(estimate: Estimator, artifact: (ArtifactKind, string))
    ensures EstimateArtifacts(estimate, []) == Some(0)
    ensures EstimateArtifacts(estimate, [artifact]) == estimate(artifact.1)
  {
    assert [artifact][..0] == [];
    assert EstimateArtifacts(estimate, [artifact][..0]) == Some(0);
  }

  // The report compares what was asked for, messages and artifacts, with the messages it lists.
  lemma ReportFigures(env: Env, q: Request, r: Report)
    requires IsReport(env, q, r)
    ensures EstimateMessages(env.estimate, r.messages) == Some(r.promptTokens)
    ensures var messages, artifacts := EstimateMessages(env.estimate, q.messages), EstimateArtifacts(env.estimate, q.artifacts);
            messages.Some? && artifacts.Some? && Figures(r, messages.value + artifacts.value)
  {
    hide EstimateMessages, EstimateArtifacts, Ratio, ReportText, QualityOf, SaturatingSub, Figures, ReportOn, Optimized;
    FiguresHold(r, InputTokens(env.estimate, q).value, ReportText(r.messages), q.requiredFacts);
  }

  lemma FiguresHold(r: Report, input: nat, text: string, facts: seq<string>)
    requires r.savedTokens == SaturatingSub(input, r.promptTokens) && r.compressionRatio == Ratio(r.promptTokens, input)
    requires r.quality == QualityOf(text, facts, r.promptTokens, input)
    ensures Figures(r, input)
  {
    RatioTimes(r.promptTokens, input);
    hide Ratio, MissingFacts, QualityLoss;
  }

  // `input` tokens were asked for.
  ghost predicate Figures(r: Report, input: nat) {
    && (r.promptTokens <= input ==> r.savedTokens + r.promptTokens == input)
    && (r.promptTokens > input ==> r.savedTokens == 0)
    && (input == 0 ==> r.compressionRatio == 1.0)
    && (input > 0 ==> r.compressionRatio * input as real == r.promptTokens as real)
    && (r.quality.passed <==> r.quality.missing == [] && r.promptTokens <= input)
  }

  lemma RatioTimes(part: nat, whole: nat)
    ensures whole == 0 ==> Ratio(part, whole) == 1.0
    ensures whole > 0 ==> Ratio(part, whole) * whole as real == part as real
  {
  }

  // The text searched for facts is the contents of the messages, one to a line.
  lemma ReportTextAdds(a: seq<Message>, b: seq<Message>)
    requires a != [] && b != []
    ensures ReportText(a + b) == ReportText(a) + ("\n" + ReportText(b))
    ensures ReportText([a[0]]) == a[0].content
  {
    assert Contents(a + b) == Contents(a) + Contents(b);
    assert Contents([a[0]]) == [Contents(a)[0]];
    JoinFirst([a[0].content], "\n");
    hide Contents, Join;
    JoinAdds(Contents(a), Contents(b), "\n");
  }

  // Each required fact is missing for itself, in order, if it does not occur in the text.
  lemma {:induction false} MissingAdds(text: string, a: seq<string>, b: seq<string>)
    ensures MissingFacts(text, a + b) == MissingFacts(text, a) + MissingFacts(text, b)
    ensures a != [] ==> MissingFacts(text, [a[0]]) == if Contains(text, a[0]) then [] else [a[0]]
  {
    if a == [] {
      assert a + b == b;
    } else {
      assert (a + b)[1..] == a[1..] + b && [a[0]][1..] == [];
      assert MissingFacts(text, [a[0]][1..]) == [];
      MissingAdds(text, a[1..], b);
      hide Contains;
    }
  }

  // --- the artifacts ---

  // A small artifact is listed whole and not stored. A large one is stored under its key, and its marker, which is what is
  // estimated, gets its content back.
  ghost predicate Lists(env: Env, kind: ArtifactKind, content: string, report: OffloadReport, store: map<string, string>) {
    var after := StoreWith(env, store, content);
    && report.kind == kind && env.estimate(content) == Some(report.originalTokens)
    && env.estimate(report.marker) == Some(report.compressedTokens)
    && (report.originalTokens <= env.threshold ==> report.marker == content && report.key == None && after == store)
    && (report.originalTokens > env.threshold ==>
          && report.key == Some(env.computeKey(content)) && after == store[env.computeKey(content) := content]
          && Retrieve(after, report.marker) == Some(content))
  }

  lemma ReportLists(env: Env, kind: ArtifactKind, content: string, report: OffloadReport, store: map<string, string>)
    requires HexKeys(env) && ReportOn(env, kind, content) == Some(report)
    ensures Lists(env, kind, content, report, store)
  {
    if IsLarge(env, content) {
      HexIsKey(env, content);
      MarkerParses(kind, env.estimate(content).value, content, env.computeKey(content));
    }
    hide HexKeys, ParseMarker, Marker;
  }

  lemma ReportedArtifact(env: Env, q: Request, r: Report, i: nat, store: map<string, string>)
    requires IsReport(env, q, r) && i < |q.artifacts| && HexKeys(env)
    ensures r.messages[|q.messages| + i] == Message("user", r.artifacts[i].marker)
    ensures Lists(env, q.artifacts[i].0, q.artifacts[i].1, r.artifacts[i], store)
  {
    hide Lists, ReportOn, EstimateMessages, InputTokens, QualityOf, ReportText, Optimized, HexKeys, Ratio, SaturatingSub;
    ReportLists(env, q.artifacts[i].0, q.artifacts[i].1, r.artifacts[i], store);
  }
}
