/** Key quoting and container closing on tokens. */
module JsonKeyPass {
  import opened Collections
  import opened Characters
  import opened JsonText
  import opened JsonRepair
  import opened JsonTokenPasses

  // ----- key quoting -----

  function Lead(toks: seq<Token>): (n: nat)
    ensures n <= |toks| && (n < |toks| ==> !toks[n].Space?)
    ensures forall i :: 0 <= i < n ==> toks[i].Space?
  {
    if toks != [] && toks[0].Space? then 1 + Lead(toks[1..]) else 0
  }

  predicate KeyFirst(toks: seq<Token>) {
    toks != [] && toks[0].Word? && IsKeyName(toks[0].name) && ColonNext(toks[1..])
  }

  lemma FirstChar(t: Token)
    requires t.Valid()
    ensures t.Print() != [] && (t.Space? ==> t.Print() == [t.c])
    ensures IsWhitespace(t.Print()[0]) <==> t.Space?
    ensures t.Print()[0] == ':' <==> t.Colon?
    ensures !t.Word? ==> !IsKeyStart(t.Print()[0]) && !IsKeyContinue(t.Print()[0])
  {
  }

  lemma {:induction false} SpaceRunIsLead(toks: seq<Token>)
    requires Lexable(toks)
    ensures SpaceRun(Print(toks)) == Lead(toks)
  {
    if toks != [] {
      FirstChar(toks[0]);
      hide IsWhitespace;
      if toks[0].Space? {
        assert Print(toks)[1..] == Print(toks[1..]);
        SpaceRunIsLead(toks[1..]);
      }
    }
  }

  lemma {:induction false} SpacesPrint(spaces: seq<Token>)
    requires forall i :: 0 <= i < |spaces| ==> spaces[i].Space?
    ensures |Print(spaces)| == |spaces|
  {
    if spaces != [] {
      SpacesPrint(spaces[1..]);
    }
  }

  lemma {:induction false} LexableSuffix(toks: seq<Token>, n: nat)
    requires Lexable(toks) && n <= |toks|
    ensures Lexable(toks[n..])
  {
    if n > 0 {
      LexableSuffix(toks[1..], n - 1);
      assert toks[1..][n - 1..] == toks[n..];
    }
  }

  lemma SpaceRunOnText(toks: seq<Token>)
    requires Lexable(toks)
    ensures SpaceRun(Print(toks)) == Lead(toks)
    ensures Print(toks)[..Lead(toks)] == Print(toks[..Lead(toks)])
    ensures Print(toks)[Lead(toks)..] == Print(toks[Lead(toks)..])
    ensures Lexable(toks[Lead(toks)..])
  {
    SpaceRunIsLead(toks);
    var n := Lead(toks);
    LexableSuffix(toks, n);
    SpacesPrint(toks[..n]);
    PrintConcat(toks[..n], toks[n..]);
    assert toks == toks[..n] + toks[n..];
  }

  lemma {:induction false} KeyRunOnWord(w: string, rest: string)
    requires rest != [] ==> !IsKeyContinue(rest[0])
    ensures KeyRun(w + rest) <= |w|
    ensures KeyRun(w + rest) == |w| <==> forall i :: 0 <= i < |w| ==> IsKeyContinue(w[i])
  {
    if w == [] {
      assert w + rest == rest;
    } else {
      assert (w + rest)[1..] == w[1..] + rest;
      KeyRunOnWord(w[1..], rest);
      assert forall i :: 1 <= i < |w| ==> w[i] == w[1..][i - 1];
    }
  }

  lemma WordEnds(toks: seq<Token>)
    requires Lexable(toks) && (toks != [] ==> !toks[0].Word?)
    ensures Print(toks) != [] ==> !IsKeyContinue(Print(toks)[0])
  {
    if toks != [] {
      FirstChar(toks[0]);
    }
  }

  lemma ColonOnText(toks: seq<Token>)
    requires Lexable(toks)
    ensures var gap := SpaceRun(Print(toks));
            (gap < |Print(toks)| && Print(toks)[gap] == ':') == ColonNext(toks)
  {
    SpaceRunOnText(toks);
    var n := Lead(toks);
    AheadIsLead(toks);
    hide SpaceRun, IsWhitespace, Ahead;
    if n < |toks| {
      var tail := toks[n..];
      assert tail[0] == toks[n];
      FirstChar(tail[0]);
      assert Print(toks)[n] == Print(toks)[n..][0];
    }
  }

  lemma {:induction false} AheadIsLead(toks: seq<Token>)
    ensures Ahead(toks) == if Lead(toks) < |toks| then [toks[Lead(toks)]] else []
  {
    if toks != [] && toks[0].Space? {
      AheadIsLead(toks[1..]);
    }
  }

  lemma BareKeyOnWord(w: string, toks: seq<Token>)
    requires w != [] && (forall i :: 0 <= i < |w| ==> IsWordChar(w[i]))
    requires Lexable(toks) && (toks != [] ==> !toks[0].Word?)
    ensures BareKey(w + Print(toks)) == if IsKeyName(w) && ColonNext(toks) then |w| else 0
  {
    var s, rest := w + Print(toks), Print(toks);
    WordEnds(toks);
    ColonOnText(toks);
    hide Print, SpaceRun, Lexable, Ahead, IsKeyStart, IsKeyContinue;
    ConcatTails(w, rest);
    KeyRunOnWord(w[1..], rest);
    assert forall i :: 1 <= i < |w| ==> w[i] == w[1..][i - 1];
    assert forall i :: 0 <= i < |w| ==> !IsWhitespace(w[i]) && w[i] != ':';
    hide KeyRun, ColonNext, IsWordChar, IsWhitespace;
    var n := 1 + KeyRun(s[1..]);
    if n < |w| {
      assert s[n..][0] == s[n] == w[n];
      NoGap(s[n..]);
      assert BareKey(s) == 0;
    } else {
      assert s[n..] == rest;
    }
  }

  lemma ConcatTails(w: string, rest: string)
    requires w != []
    ensures (w + rest)[0] == w[0] && (w + rest)[1..] == w[1..] + rest && (w + rest)[|w|..] == rest
  {
  }

  lemma NoGap(s: string)
    requires s != [] && !IsWhitespace(s[0])
    ensures SpaceRun(s) == 0
  {
  }

  lemma BareKeyOnText(toks: seq<Token>)
    requires Lexable(toks) && (toks != [] ==> !toks[0].Space?)
    ensures BareKey(Print(toks)) == if KeyFirst(toks) then |toks[0].name| else 0
  {
    if toks != [] {
      if toks[0].Word? {
        BareKeyOnWord(toks[0].name, toks[1..]);
      } else {
        FirstChar(toks[0]);
      }
    }
  }

  lemma {:induction false} QuoteLead(toks: seq<Token>, separated: bool)
    ensures QuoteKeys(toks, separated) == toks[..Lead(toks)] + QuoteKeys(toks[Lead(toks)..], separated)
  {
    if toks != [] && toks[0].Space? {
      QuoteLead(toks[1..], separated);
      var n := Lead(toks[1..]);
      assert toks[n + 1..] == toks[1..][n..];
      assert toks[..n + 1] == [toks[0]] + toks[1..][..n];
    } else {
      assert toks[..0] == [] && toks[0..] == toks;
    }
  }

  lemma QuoteKeysToken(t: Token, rest: string)
    requires t.Valid() && !IsSeparator(t)
    ensures WithQuotedKeys(t.Print() + rest, Outside) == t.Print() + WithQuotedKeys(rest, Outside)
  {
    hide SpaceRun, BareKey, Quoted, WithQuotedKeys;
    if t.Text? {
      ScanBody(t.body, Inside, rest, NOTHING, []);
      TextParts(t.body, rest);
      TextParts(t.body, WithQuotedKeys(rest, Outside));
      FirstQuote(t.body + (['"'] + rest), NOTHING, []);
    } else if t.Word? {
      ScanWord(t.name, rest, NOTHING, []);
    } else {
      var s := t.Print() + rest;
      assert |t.Print()| == 1 && s[0] == t.Print()[0] && s[1..] == rest;
      QuotingUnfolds(s, Outside);
    }
  }

  lemma {:induction false} QuoteKeysOnText(toks: seq<Token>)
    requires Lexable(toks)
    ensures WithQuotedKeys(Print(toks), Outside) == Print(QuoteKeys(toks, false))
    decreases |toks|, 0
  {
    if toks != [] {
      var t, more := toks[0], toks[1..];
      if IsSeparator(t) {
        QuoteKeysAfterSeparator(t, more);
        PrintCons(t, QuoteKeys(more, true));
      } else {
        QuoteKeysOnText(more);
        QuoteKeysToken(t, Print(more));
        PrintCons(t, QuoteKeys(more, false));
      }
    }
  }

  // The first token that is not white space decides whether a key is quoted.
  lemma QuoteKeysSplit(toks: seq<Token>)
    ensures var spaces, tail := toks[..Lead(toks)], toks[Lead(toks)..];
            && (KeyFirst(tail) ==>
                  QuoteKeys(toks, true) == spaces + ([Text(tail[0].name)] + QuoteKeys(tail[1..], false)))
            && (!KeyFirst(tail) ==> QuoteKeys(toks, true) == QuoteKeys(toks, false))
  {
    QuoteLead(toks, true);
    QuoteLead(toks, false);
  }

  lemma {:induction false} QuoteKeysAfterSeparator(t: Token, toks: seq<Token>)
    requires Lexable(toks) && IsSeparator(t)
    ensures WithQuotedKeys(t.Print() + Print(toks), Outside) == t.Print() + Print(QuoteKeys(toks, true))
    decreases |toks|, 1
  {
    hide WithQuotedKeys, SpaceRun, BareKey, QuoteKeys, Quoted, ColonNext, IsKeyName, IsWhitespace;
    var s, text := t.Print() + Print(toks), Print(toks);
    assert |t.Print()| == 1 && s[0] == t.Print()[0] && s[1..] == text;
    QuotingUnfolds(s, Outside);
    SpaceRunOnText(toks);
    var n := Lead(toks);
    var tail := toks[n..];
    BareKeyOnText(tail);
    QuoteKeysSplit(toks);
    if KeyFirst(tail) {
      var name, more := tail[0].name, tail[1..];
      QuoteKeysOnText(more);
      assert Print(tail) == name + Print(more);
      hide Print;
      assert Print(tail)[..|name|] == name && Print(tail)[|name|..] == Print(more);
      var rest := Print(QuoteKeys(more, false));
      PrintConcat(toks[..n], [Text(name)] + QuoteKeys(more, false));
      PrintCons(Text(name), QuoteKeys(more, false));
      QuotedParts(Print(toks[..n]), name, rest);
      Regroup(t.Print(), Quoted(Print(toks[..n]), name), rest);
    } else {
      QuoteKeysOnText(toks);
    }
  }

  lemma QuotedParts(spaces: string, name: string, rest: string)
    ensures Quoted(spaces, name) + rest == spaces + (Text(name).Print() + rest)
  {
  }

  // ----- container closing -----

  function ClosersFor(awaited: seq<bool>): seq<Token> {
    if awaited == [] then []
    else [Close(awaited[|awaited| - 1])] + ClosersFor(awaited[..|awaited| - 1])
  }

  function Mark(brace: bool): char {
    if brace then '}' else ']'
  }

  function Marks(awaited: seq<bool>): (r: string)
    ensures |r| == |awaited| && forall i :: 0 <= i < |r| ==> r[i] == Mark(awaited[i])
  {
    if awaited == [] then [] else Marks(awaited[..|awaited| - 1]) + [Mark(awaited[|awaited| - 1])]
  }

  lemma StackToken(t: Token, rest: string, stack: string)
    requires t.Valid()
    ensures ModeAfter(t.Print() + rest, Outside) == ModeAfter(rest, Outside)
    ensures StackAfter(t.Print() + rest, Outside, stack) ==
            StackAfter(rest, Outside, if t.Open? || t.Close? then StackStep(stack, t.Print()[0]) else stack)
  {
    match t
    case Text(body) =>
      ScanBody(body, Inside, rest, NOTHING, stack);
      TextParts(body, rest);
      FirstQuote(body + (['"'] + rest), NOTHING, stack);
    case Word(name) =>
      ScanWord(name, rest, NOTHING, stack);
    case _ =>
      var s := t.Print() + rest;
      assert |t.Print()| == 1 && s[0] == t.Print()[0] && s[1..] == rest;
  }

  lemma {:induction false} NestOnText(toks: seq<Token>, awaited: seq<bool>)
    requires Lexable(toks) && Nest(toks, awaited).Some?
    ensures ModeAfter(Print(toks), Outside) == Outside
    ensures StackAfter(Print(toks), Outside, Marks(awaited)) == Marks(Nest(toks, awaited).value)
  {
    if toks != [] {
      var t, more := toks[0], toks[1..];
      StackToken(t, Print(more), Marks(awaited));
      hide ModeAfter, StackAfter, IsWhitespace, IsBody;
      var awaited' := if t.Open? then awaited + [t.brace] else if t.Close? then awaited[..|awaited| - 1] else awaited;
      NestOnText(more, awaited');
      assert Marks(awaited') == if t.Open? || t.Close? then StackStep(Marks(awaited), t.Print()[0]) else Marks(awaited);
    }
  }

  lemma {:induction false} MarksReversed(awaited: seq<bool>)
    ensures Reversed(Marks(awaited)) == Print(ClosersFor(awaited))
  {
    if awaited != [] {
      var n := |awaited| - 1;
      MarksReversed(awaited[..n]);
      ReversedSnoc(Marks(awaited[..n]), Mark(awaited[n]));
      assert Marks(awaited) == Marks(awaited[..n]) + [Mark(awaited[n])];
    }
  }

  lemma {:induction false} ReversedSnoc(s: string, c: char)
    ensures Reversed(s + [c]) == [c] + Reversed(s)
  {
    if s != [] {
      assert (s + [c])[1..] == s[1..] + [c];
      ReversedSnoc(s[1..], c);
    }
  }

  // On a text whose containers nest, the pass appends exactly the awaited closing tokens.
  lemma ClosersOnText(toks: seq<Token>)
    requires Lexable(toks) && Nest(toks, []).Some?
    ensures Closers(Print(toks)) == Print(ClosersFor(Nest(toks, []).value))
  {
    NestOnText(toks, []);
    MarksReversed(Nest(toks, []).value);
  }
}
