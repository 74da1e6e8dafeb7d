/** The repair passes on tokens. On the print of any token sequence, each character pass does what its
    token pass does. */
module JsonTokenPasses {
  import opened Wrappers
  import opened Collections
  import opened Characters
  import opened JsonText
  import opened JsonRepair

  // ----- the passes on tokens -----

  predicate ClosesNext(toks: seq<Token>) {
    Ahead(toks) != [] && Ahead(toks)[0].Close?
  }

  predicate ColonNext(toks: seq<Token>) {
    Ahead(toks) == [Colon]
  }

  function DropTrailing(toks: seq<Token>): seq<Token> {
    if toks == [] then []
    else if toks[0].Comma? && ClosesNext(toks[1..]) then DropTrailing(toks[1..])
    else [toks[0]] + DropTrailing(toks[1..])
  }

  predicate IsSeparator(t: Token) {
    t == Open(true) || t.Comma?
  }

  predicate IsKeyName(name: string) {
    name != [] && IsKeyStart(name[0]) && forall i :: 1 <= i < |name| ==> IsKeyContinue(name[i])
  }

  // `separated`: the last token that is not white space was `{` or a comma.
  function QuoteKeys(toks: seq<Token>, separated: bool): seq<Token> {
    if toks == [] then []
    else if toks[0].Space? then [toks[0]] + QuoteKeys(toks[1..], separated)
    else if toks[0].Word? && separated && IsKeyName(toks[0].name) && ColonNext(toks[1..]) then
      [Text(toks[0].name)] + QuoteKeys(toks[1..], false)
    else [toks[0]] + QuoteKeys(toks[1..], IsSeparator(toks[0]))
  }

  predicate EndsValue(t: Token) {
    t.Close? || t.Text? || (t.Word? && t.name != [] && CanPrecedeMissingComma(t.name[|t.name| - 1]))
  }

  // `ended`: the last token that is not white space can end a value.
  function AddCommas(toks: seq<Token>, ended: bool): seq<Token> {
    if toks == [] then []
    else if toks[0].Space? then [toks[0]] + AddCommas(toks[1..], ended)
    else if toks[0].Text? && ended then [Comma] + ([toks[0]] + AddCommas(toks[1..], true))
    else [toks[0]] + AddCommas(toks[1..], EndsValue(toks[0]))
  }

  // The awaited closing tokens, outermost first; None when a closing token closes nothing.
  function Nest(toks: seq<Token>, awaited: seq<bool>): Option<seq<bool>> {
    if toks == [] then Some(awaited)
    else
      match toks[0]
      case Open(brace) => Nest(toks[1..], awaited + [brace])
      case Close(brace) =>
        if awaited != [] && awaited[|awaited| - 1] == brace then Nest(toks[1..], awaited[..|awaited| - 1]) else None
      case _ => Nest(toks[1..], awaited)
  }

  // ----- scanning one token -----

  // One character that starts nothing a pass looks for.
  lemma ScanChar(c: char, rest: string, mode: Mode, previous: char, stack: string)
    requires mode != Outside || (c != ',' && c != '{' && c != '"' && c != '[' && !IsClosing(c))
    ensures var s := [c] + rest;
            && WithoutTrailingCommas(s, mode) == [c] + WithoutTrailingCommas(rest, Step(mode, c))
            && WithQuotedKeys(s, mode) == [c] + WithQuotedKeys(rest, Step(mode, c))
            && WithMissingCommas(s, mode, previous) == [c] + WithMissingCommas(rest, Step(mode, c), Significant(mode, previous, c))
            && ModeAfter(s, mode) == ModeAfter(rest, Step(mode, c))
            && StackAfter(s, mode, stack) == StackAfter(rest, Step(mode, c), stack)
  {
    hide NextIsClosing, BareKey, SpaceRun, IsWhitespace, Quoted;
    var s := [c] + rest;
    assert s[0] == c && s[1..] == rest;
  }

  // Inside a string literal, no pass changes anything.
  lemma {:induction false} ScanBody(body: string, mode: Mode, rest: string, previous: char, stack: string)
    requires mode != Outside && IsBody(body, mode)
    ensures var s := body + (['"'] + rest);
            && WithoutTrailingCommas(s, mode) == body + (['"'] + WithoutTrailingCommas(rest, Outside))
            && WithQuotedKeys(s, mode) == body + (['"'] + WithQuotedKeys(rest, Outside))
            && WithMissingCommas(s, mode, previous) == body + (['"'] + WithMissingCommas(rest, Outside, '"'))
            && ModeAfter(s, mode) == ModeAfter(rest, Outside)
            && StackAfter(s, mode, stack) == StackAfter(rest, Outside, stack)
  {
    hide WithoutTrailingCommas, WithQuotedKeys, WithMissingCommas, ModeAfter, StackAfter;
    if body == [] {
      assert forall t: string :: body + t == t;
      ScanChar('"', rest, mode, previous, stack);
    } else {
      var c, w := body[0], body[1..];
      assert body == [c] + w;
      ScanBody(w, StringStep(mode, c), rest, previous, stack);
      ScanChar(c, w + (['"'] + rest), mode, previous, stack);
      Regroup([c], w, ['"'] + rest);
      Regroup([c], w, ['"'] + WithoutTrailingCommas(rest, Outside));
      Regroup([c], w, ['"'] + WithQuotedKeys(rest, Outside));
      Regroup([c], w, ['"'] + WithMissingCommas(rest, Outside, '"'));
    }
  }

  // Nor in a run of word characters.
  lemma {:induction false} ScanWord(w: string, rest: string, previous: char, stack: string)
    requires forall i :: 0 <= i < |w| ==> IsWordChar(w[i])
    ensures var s := w + rest;
            && WithoutTrailingCommas(s, Outside) == w + WithoutTrailingCommas(rest, Outside)
            && WithQuotedKeys(s, Outside) == w + WithQuotedKeys(rest, Outside)
            && WithMissingCommas(s, Outside, previous) ==
               w + WithMissingCommas(rest, Outside, if w == [] then previous else w[|w| - 1])
            && ModeAfter(s, Outside) == ModeAfter(rest, Outside)
            && StackAfter(s, Outside, stack) == StackAfter(rest, Outside, stack)
  {
    hide WithoutTrailingCommas, WithQuotedKeys, WithMissingCommas, ModeAfter, StackAfter;
    if w == [] {
      assert forall t: string :: w + t == t;
    } else {
      var c, v := w[0], w[1..];
      assert w == [c] + v && IsWordChar(c);
      ScanWord(v, rest, c, stack);
      ScanChar(c, v + rest, Outside, previous, stack);
      Regroup([c], v, rest);
      Regroup([c], v, WithoutTrailingCommas(rest, Outside));
      Regroup([c], v, WithQuotedKeys(rest, Outside));
      Regroup([c], v, WithMissingCommas(rest, Outside, w[|w| - 1]));
    }
  }

  lemma {:induction false} NextIsClosingOnTokens(toks: seq<Token>)
    requires Lexable(toks)
    ensures NextIsClosing(Print(toks)) == ClosesNext(toks)
  {
    if toks != [] {
      var s, rest := Print(toks), Print(toks[1..]);
      assert toks[0].Print() != [] && s[0] == toks[0].Print()[0];
      if toks[0].Space? {
        assert s[1..] == rest;
        NextIsClosingOnTokens(toks[1..]);
      }
    }
  }

  // ----- one token at a time -----

  lemma TextParts(body: string, rest: string)
    ensures Text(body).Print() + rest == ['"'] + (body + (['"'] + rest))
  {
  }

  lemma DropTrailingToken(t: Token, rest: string)
    requires t.Valid()
    ensures WithoutTrailingCommas(t.Print() + rest, Outside) ==
            if t.Comma? && NextIsClosing(rest) then WithoutTrailingCommas(rest, Outside)
            else t.Print() + WithoutTrailingCommas(rest, Outside)
  {
    match t
    case Text(body) =>
      ScanBody(body, Inside, rest, NOTHING, []);
      TextParts(body, rest);
      TextParts(body, WithoutTrailingCommas(rest, Outside));
      FirstQuote(body + (['"'] + rest), NOTHING, []);
    case Word(name) =>
      ScanWord(name, rest, NOTHING, []);
    case _ =>
      var s := t.Print() + rest;
      assert |t.Print()| == 1 && s[0] == t.Print()[0] && s[1..] == rest;
  }

  lemma FirstQuote(s: string, previous: char, stack: string)
    ensures WithoutTrailingCommas(['"'] + s, Outside) == ['"'] + WithoutTrailingCommas(s, Inside)
    ensures WithQuotedKeys(['"'] + s, Outside) == ['"'] + WithQuotedKeys(s, Inside)
    ensures WithMissingCommas(['"'] + s, Outside, previous) ==
            CommaBefore(CanPrecedeMissingComma(previous), ['"'] + WithMissingCommas(s, Inside, previous))
    ensures ModeAfter(['"'] + s, Outside) == ModeAfter(s, Inside)
    ensures StackAfter(['"'] + s, Outside, stack) == StackAfter(s, Inside, stack)
  {
    hide IsWhitespace, NextIsClosing, BareKey, SpaceRun, CanPrecedeMissingComma;
    var t := ['"'] + s;
    assert t[0] == '"' && t[1..] == s;
  }

  // The last significant character once `t` has been read.
  function LastSignificant(t: Token, previous: char): char {
    match t
    case Text(_) => '"'
    case Space(_) => previous
    case Word(name) => if name == [] then previous else name[|name| - 1]
    case _ => t.Print()[0]
  }

  lemma AddCommasToken(t: Token, rest: string, previous: char)
    requires t.Valid()
    ensures WithMissingCommas(t.Print() + rest, Outside, previous) ==
            CommaBefore(t.Text? && CanPrecedeMissingComma(previous),
                        t.Print() + WithMissingCommas(rest, Outside, LastSignificant(t, previous)))
  {
    match t
    case Text(body) =>
      ScanBody(body, Inside, rest, previous, []);
      TextParts(body, rest);
      TextParts(body, WithMissingCommas(rest, Outside, '"'));
      FirstQuote(body + (['"'] + rest), previous, []);
    case Word(name) =>
      ScanWord(name, rest, previous, []);
    case _ =>
      var s := t.Print() + rest;
      assert |t.Print()| == 1 && s[0] == t.Print()[0] && s[1..] == rest;
  }

  // ----- each pass on a printed token sequence -----

  lemma PrintCons(t: Token, toks: seq<Token>)
    ensures Print([t] + toks) == t.Print() + Print(toks)
  {
    assert ([t] + toks)[1..] == toks;
  }

  lemma {:induction false} DropTrailingOnText(toks: seq<Token>)
    requires Lexable(toks)
    ensures WithoutTrailingCommas(Print(toks), Outside) == Print(DropTrailing(toks))
  {
    if toks != [] {
      var t, more := toks[0], toks[1..];
      DropTrailingOnText(more);
      NextIsClosingOnTokens(more);
      DropTrailingToken(t, Print(more));
      PrintCons(t, DropTrailing(more));
    }
  }

  lemma {:induction false} AddCommasOnText(toks: seq<Token>, previous: char)
    requires Lexable(toks)
    ensures WithMissingCommas(Print(toks), Outside, previous) == Print(AddCommas(toks, CanPrecedeMissingComma(previous)))
  {
    if toks != [] {
      var t, more := toks[0], toks[1..];
      var previous' := LastSignificant(t, previous);
      AddCommasOnText(more, previous');
      AddCommasToken(t, Print(more), previous);
      hide WithMissingCommas;
      var added := AddCommas(more, CanPrecedeMissingComma(previous'));
      PrintCons(t, added);
      PrintCons(Comma, [t] + added);
    }
  }
}
