/** Words that touch: two word tokens with nothing between them print as one, and the text then reads as tokens with a
    longer label, which no repair pass shortens. */
module JsonLabels {
  import opened Collections
  import opened JsonText
  import opened JsonRepair
  import opened JsonTokenPasses
  import opened JsonValues
  import opened JsonRecovery

  ghost predicate AllValid(toks: seq<Token>) {
    forall i :: 0 <= i < |toks| ==> toks[i].Valid()
  }

  lemma {:induction false} LexableIsValid(toks: seq<Token>)
    requires Lexable(toks)
    ensures AllValid(toks)
  {
    if toks != [] {
      LexableIsValid(toks[1..]);
      assert forall i :: 1 <= i < |toks| ==> toks[i] == toks[1..][i - 1];
    }
  }

  // The tokens that a text reads as: touching words are one.
  function Merged(toks: seq<Token>): seq<Token>
    decreases |toks|
  {
    if |toks| > 1 && toks[0].Word? && toks[1].Word? then Merged([Word(toks[0].name + toks[1].name)] + toks[2..])
    else if toks == [] then []
    else [toks[0]] + Merged(toks[1..])
  }

  // String literals, and words that stand before a colon.
  function OwnLabel(t: Token, more: seq<Token>): nat {
    if t.Text? then |t.body| else if t.Word? && ColonNext(more) then |t.name| else 0
  }

  function LabelLength(toks: seq<Token>): nat {
    if toks == [] then 0 else OwnLabel(toks[0], toks[1..]) + LabelLength(toks[1..])
  }

  // ----- merging -----

  lemma MergeOne(toks: seq<Token>)
    requires |toks| > 1 && toks[0].Word? && toks[1].Word?
    ensures var merged := [Word(toks[0].name + toks[1].name)] + toks[2..];
            Print(merged) == Print(toks) && (AllValid(toks) ==> AllValid(merged))
  {
    var merged := [Word(toks[0].name + toks[1].name)] + toks[2..];
    assert merged[1..] == toks[2..] && toks[1..][1..] == toks[2..];
    assert AllValid(toks) ==> AllValid(merged) by {
      hide Print;
      assert forall i :: 1 <= i < |merged| ==> merged[i] == toks[i + 1];
    }
    hide AllValid;
    Regroup(toks[0].name, toks[1].name, Print(toks[2..]));
    assert Print(toks) == toks[0].name + Print(toks[1..]);
    assert Print(toks[1..]) == toks[1].name + Print(toks[2..]);
  }

  lemma MergeOneNests(toks: seq<Token>, awaited: seq<bool>)
    requires |toks| > 1 && toks[0].Word? && toks[1].Word?
    ensures Nest([Word(toks[0].name + toks[1].name)] + toks[2..], awaited) == Nest(toks, awaited)
  {
    var merged := [Word(toks[0].name + toks[1].name)] + toks[2..];
    assert merged[1..] == toks[2..] && toks[1..][1..] == toks[2..];
  }

  lemma {:induction false} MergedReads(toks: seq<Token>)
    requires AllValid(toks)
    ensures Lexable(Merged(toks)) && Print(Merged(toks)) == Print(toks)
    ensures toks != [] && !toks[0].Word? ==> Merged(toks) != [] && !Merged(toks)[0].Word?
    decreases |toks|
  {
    if |toks| > 1 && toks[0].Word? && toks[1].Word? {
      MergeOne(toks);
      MergedReads([Word(toks[0].name + toks[1].name)] + toks[2..]);
    } else if toks != [] {
      assert AllValid(toks[1..]) by {
        assert forall i :: 0 <= i < |toks| - 1 ==> toks[1..][i] == toks[i + 1];
      }
      MergedReads(toks[1..]);
      ConsTail(toks[0], Merged(toks[1..]));
      assert |toks| > 1 ==> toks[1..][0] == toks[1];
    }
  }

  lemma {:induction false} MergedNest(toks: seq<Token>, awaited: seq<bool>)
    ensures Nest(Merged(toks), awaited) == Nest(toks, awaited)
    decreases |toks|
  {
    if |toks| > 1 && toks[0].Word? && toks[1].Word? {
      MergeOneNests(toks, awaited);
      MergedNest([Word(toks[0].name + toks[1].name)] + toks[2..], awaited);
    } else if toks != [] {
      ConsTail(toks[0], Merged(toks[1..]));
      match toks[0]
      case Open(brace) => MergedNest(toks[1..], awaited + [brace]);
      case Close(brace) =>
        if awaited != [] && awaited[|awaited| - 1] == brace {
          MergedNest(toks[1..], awaited[..|awaited| - 1]);
        }
      case _ => MergedNest(toks[1..], awaited);
    }
  }

  lemma {:induction false} MergedColonNext(toks: seq<Token>)
    ensures ColonNext(Merged(toks)) == ColonNext(toks)
    decreases |toks|
  {
    if |toks| > 1 && toks[0].Word? && toks[1].Word? {
      MergedColonNext([Word(toks[0].name + toks[1].name)] + toks[2..]);
    } else if toks != [] {
      MergedColonNext(toks[1..]);
      ConsTail(toks[0], Merged(toks[1..]));
    }
  }

  // A word that touches the word before it stands before a colon.
  predicate TouchingAreKeys(toks: seq<Token>) {
    toks == [] ||
    ((|toks| > 1 && toks[0].Word? && toks[1].Word? ==> ColonNext(toks[2..])) && TouchingAreKeys(toks[1..]))
  }

  // Merging lengthens a label, unless nothing touches.
  lemma {:induction false} MergedLabels(toks: seq<Token>)
    requires AllValid(toks) && TouchingAreKeys(toks)
    ensures LabelLength(Merged(toks)) >= LabelLength(toks)
    ensures !Lexable(toks) ==> LabelLength(Merged(toks)) > LabelLength(toks)
    decreases |toks|
  {
    if |toks| > 1 && toks[0].Word? && toks[1].Word? {
      var merged := [Word(toks[0].name + toks[1].name)] + toks[2..];
      MergeOne(toks);
      assert merged[1..] == toks[2..] && toks[1..][1..] == toks[2..];
      assert ColonNext(toks[2..]) && !ColonNext(toks[1..]);
      assert |merged| > 1 ==> merged[1] == toks[2] && !toks[2].Word?;
      assert TouchingAreKeys(toks[1..]) && TouchingAreKeys(toks[2..]);
      assert |toks[0].name| > 0;
      MergedLabels(merged);
    } else if toks != [] {
      assert AllValid(toks[1..]) by {
        assert forall i :: 0 <= i < |toks| - 1 ==> toks[1..][i] == toks[i + 1];
      }
      MergedLabels(toks[1..]);
      MergedColonNext(toks[1..]);
      ConsTail(toks[0], Merged(toks[1..]));
      assert |toks| > 1 ==> toks[1..][0] == toks[1];
    }
  }

  // ----- the passes keep labels -----

  lemma {:induction false} StripLabels(toks: seq<Token>)
    ensures LabelLength(Strip(toks)) == LabelLength(toks)
  {
    if toks != [] {
      StripLabels(toks[1..]);
      AheadOfStrip(toks[1..]);
      ConsTail(toks[0], Strip(toks[1..]));
    }
  }

  lemma {:induction false} DropTrailingLabels(toks: seq<Token>)
    ensures ColonNext(DropTrailing(toks)) == ColonNext(toks) && LabelLength(DropTrailing(toks)) == LabelLength(toks)
    ensures ClosesNext(toks) ==> ClosesNext(DropTrailing(toks))
  {
    if toks != [] {
      DropTrailingLabels(toks[1..]);
      ConsTail(toks[0], DropTrailing(toks[1..]));
    }
  }

  lemma {:induction false} QuoteKeysLabels(toks: seq<Token>, separated: bool)
    ensures ColonNext(QuoteKeys(toks, separated)) == ColonNext(toks)
    ensures LabelLength(QuoteKeys(toks, separated)) == LabelLength(toks)
  {
    if toks != [] {
      var t, more := toks[0], toks[1..];
      var quoted := t.Word? && separated && IsKeyName(t.name) && ColonNext(more);
      var separated' := if t.Space? then separated else if quoted then false else IsSeparator(t);
      QuoteKeysLabels(more, separated');
      ConsTail(if quoted then Text(t.name) else t, QuoteKeys(more, separated'));
    }
  }

  lemma {:induction false} AddCommasLabels(toks: seq<Token>, ended: bool)
    ensures ColonNext(AddCommas(toks, ended)) == ColonNext(toks)
    ensures LabelLength(AddCommas(toks, ended)) == LabelLength(toks)
  {
    if toks != [] {
      var ended' := if toks[0].Space? then ended else EndsValue(toks[0]);
      AddCommasLabels(toks[1..], ended');
      ConsTail(toks[0], AddCommas(toks[1..], ended'));
      ConsTail(Comma, [toks[0]] + AddCommas(toks[1..], ended'));
    }
  }

  // Nor do closing tokens and commas at the end make one.
  lemma {:induction false} LabelsBefore(toks: seq<Token>, ending: seq<Token>)
    requires forall i :: 0 <= i < |ending| ==> ending[i].Close? || ending[i].Comma?
    ensures ColonNext(toks + ending) == ColonNext(toks) && LabelLength(toks + ending) == LabelLength(toks)
    decreases |toks| + |ending|
  {
    if toks != [] {
      assert (toks + ending)[1..] == toks[1..] + ending;
      LabelsBefore(toks[1..], ending);
    } else if ending != [] {
      assert toks + ending == ending && [] + ending[1..] == ending[1..];
      LabelsBefore([], ending[1..]);
    } else {
      assert toks + ending == toks;
    }
  }
}
