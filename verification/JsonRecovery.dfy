/** The repair passes undo the damage they are for, on every JSON value and every layout, and leave
    undamaged JSON alone. */
module JsonRecovery {
  import opened Wrappers
  import opened JsonText
  import opened JsonRepair
  import opened JsonTokenPasses
  import opened JsonKeyPass
  import opened JsonValues

  // ----- token passes and white space -----

  // The white space of a layout, in order.
  function Spaces(toks: seq<Token>): seq<Token> {
    if toks == [] then []
    else if toks[0].Space? then [toks[0]] + Spaces(toks[1..])
    else Spaces(toks[1..])
  }

  lemma {:induction false} AheadOfStrip(toks: seq<Token>)
    ensures Ahead(Strip(toks)) == Ahead(toks)
  {
    if toks != [] && toks[0].Space? {
      AheadOfStrip(toks[1..]);
    }
  }

  lemma ConsTail(t: Token, toks: seq<Token>)
    ensures ([t] + toks)[0] == t && ([t] + toks)[1..] == toks
  {
  }

  // Each pass acts on the tokens as if there were no white space, and keeps the white space.
  lemma {:induction false} DropTrailingStrips(toks: seq<Token>)
    ensures Strip(DropTrailing(toks)) == DropTrailing(Strip(toks))
    ensures Spaces(DropTrailing(toks)) == Spaces(toks)
  {
    if toks != [] {
      var t, more := toks[0], toks[1..];
      DropTrailingStrips(more);
      AheadOfStrip(more);
      ConsTail(t, DropTrailing(more));
      ConsTail(t, Strip(more));
    }
  }

  lemma {:induction false} QuoteKeysStrips(toks: seq<Token>, separated: bool)
    ensures Strip(QuoteKeys(toks, separated)) == QuoteKeys(Strip(toks), separated)
    ensures Spaces(QuoteKeys(toks, separated)) == Spaces(toks)
  {
    if toks != [] {
      var t, more := toks[0], toks[1..];
      AheadOfStrip(more);
      var quoted := t.Word? && separated && IsKeyName(t.name) && ColonNext(more);
      var separated' := if t.Space? then separated else if quoted then false else IsSeparator(t);
      var t' := if quoted then Text(t.name) else t;
      QuoteKeysStrips(more, separated');
      ConsTail(t', QuoteKeys(more, separated'));
      ConsTail(t, Strip(more));
    }
  }

  lemma {:induction false} AddCommasStrips(toks: seq<Token>, ended: bool)
    ensures Strip(AddCommas(toks, ended)) == AddCommas(Strip(toks), ended)
    ensures Spaces(AddCommas(toks, ended)) == Spaces(toks)
  {
    if toks != [] {
      var t, more := toks[0], toks[1..];
      var ended' := if t.Space? then ended else EndsValue(t);
      AddCommasStrips(more, ended');
      ConsTail(t, AddCommas(more, ended'));
      ConsTail(Comma, [t] + AddCommas(more, ended'));
      ConsTail(t, Strip(more));
    }
  }

  lemma {:induction false} NestStrips(toks: seq<Token>, awaited: seq<bool>)
    ensures Nest(Strip(toks), awaited) == Nest(toks, awaited)
  {
    if toks != [] {
      var t, more := toks[0], toks[1..];
      ConsTail(t, Strip(more));
      if t.Open? {
        NestStrips(more, awaited + [t.brace]);
      } else if !t.Close? {
        NestStrips(more, awaited);
      } else if awaited != [] && awaited[|awaited| - 1] == t.brace {
        NestStrips(more, awaited[..|awaited| - 1]);
      }
    }
  }

  lemma {:induction false} DropTrailingLexable(toks: seq<Token>)
    requires Lexable(toks)
    ensures Lexable(DropTrailing(toks))
    ensures toks != [] && !toks[0].Word? && DropTrailing(toks) != [] ==> !DropTrailing(toks)[0].Word?
  {
    if toks != [] {
      DropTrailingLexable(toks[1..]);
      ConsTail(toks[0], DropTrailing(toks[1..]));
    }
  }

  lemma {:induction false} QuoteKeysLexable(toks: seq<Token>, separated: bool)
    requires Lexable(toks)
    ensures Lexable(QuoteKeys(toks, separated))
    ensures toks != [] && !toks[0].Word? ==> !QuoteKeys(toks, separated)[0].Word?
  {
    if toks != [] {
      var t, more := toks[0], toks[1..];
      var quoted := t.Word? && separated && IsKeyName(t.name) && ColonNext(more);
      var separated' := if t.Space? then separated else if quoted then false else IsSeparator(t);
      var t' := if quoted then Text(t.name) else t;
      if quoted {
        PlainBody(t.name);
      }
      QuoteKeysLexable(more, separated');
      ConsTail(t', QuoteKeys(more, separated'));
    }
  }

  lemma {:induction false} AddCommasLexable(toks: seq<Token>, ended: bool)
    requires Lexable(toks)
    ensures Lexable(AddCommas(toks, ended))
    ensures toks != [] && !toks[0].Word? ==> !AddCommas(toks, ended)[0].Word?
  {
    if toks != [] {
      var ended' := if toks[0].Space? then ended else EndsValue(toks[0]);
      AddCommasLexable(toks[1..], ended');
      ConsTail(toks[0], AddCommas(toks[1..], ended'));
      ConsTail(Comma, [toks[0]] + AddCommas(toks[1..], ended'));
    }
  }

  lemma {:induction false} PlainBody(s: string)
    requires forall i :: 0 <= i < |s| ==> s[i] != '"' && s[i] != '\\'
    ensures IsBody(s, Inside)
  {
    if s != [] {
      PlainBody(s[1..]);
    }
  }

  // ----- undamaged JSON -----

  lemma {:induction false} LinkedIsFixed(toks: seq<Token>, separated: bool, ended: bool)
    requires Linked(Strip(toks))
    requires Strip(toks) != [] && Strip(toks)[0].Text? ==> !ended
    ensures DropTrailing(toks) == toks && QuoteKeys(toks, separated) == toks && AddCommas(toks, ended) == toks
  {
    if toks != [] {
      var t, more := toks[0], toks[1..];
      assert toks == [t] + more;
      AheadIsStripped(more);
      if t.Space? {
        LinkedIsFixed(more, separated, ended);
      } else {
        ConsTail(t, Strip(more));
        LinkedIsFixed(more, IsSeparator(t), EndsValue(t));
      }
    }
  }

  // Every layout of a JSON value is a fixed point of the four passes.
  lemma JsonIsFixed(v: Json, toks: seq<Token>)
    requires IsJson(v) && Layout(toks, v)
    ensures WithoutTrailingCommas(Print(toks), Outside) == Print(toks)
    ensures WithQuotedKeys(Print(toks), Outside) == Print(toks)
    ensures WithMissingCommas(Print(toks), Outside, NOTHING) == Print(toks)
    ensures Closers(Print(toks)) == []
  {
    TokensShaped(v);
    LinkedIsFixed(toks, false, false);
    DropTrailingOnText(toks);
    QuoteKeysOnText(toks);
    AddCommasOnText(toks, NOTHING);
    TokensNest(v, []);
    NestStrips(toks, []);
    ClosersOnText(toks);
  }

  // ----- damage -----

  // `d` is `x` with a comma added before some closing tokens.
  predicate Trails(x: seq<Token>, d: seq<Token>) {
    if x == [] then d == []
    else
      || (d != [] && d[0] == x[0] && Trails(x[1..], d[1..]))
      || (x[0].Close? && |d| > 1 && d[0] == Comma && d[1] == x[0] && Trails(x[1..], d[2..]))
  }

  // `x` is `y` with some identifier-like keys left bare; a key follows `{` or a comma and precedes a colon.
  predicate Unquotes(y: seq<Token>, x: seq<Token>, separated: bool) {
    if y == [] then x == []
    else
      x != [] && Unquotes(y[1..], x[1..], IsSeparator(y[0])) &&
      (x[0] == y[0] ||
       (y[0].Text? && separated && IsKeyName(y[0].body) && |y| > 1 && y[1].Colon? && x[0] == Word(y[0].body)))
  }

  // `y` is `q` with some commas before string literals left out.
  predicate MissesCommas(q: seq<Token>, y: seq<Token>) {
    if q == [] then y == []
    else
      || (y != [] && y[0] == q[0] && MissesCommas(q[1..], y[1..]))
      || (q[0].Comma? && |q| > 1 && q[1].Text? && MissesCommas(q[1..], y))
  }

  // What the damaged sequences keep of a linked one.
  predicate Calm(toks: seq<Token>) {
    toks == [] ||
    (!toks[0].Space? && Calm(toks[1..]) &&
     (|toks| > 1 ==> !(toks[0].Comma? && toks[1].Close?) && !(toks[0].Word? && toks[1].Colon?)))
  }

  lemma {:induction false} LinkedIsCalm(q: seq<Token>, y: seq<Token>)
    requires Linked(q) && MissesCommas(q, y)
    ensures Calm(y)
    ensures q != [] && y != [] ==> y[0] == q[0] || (q[0].Comma? && y[0].Text?)
    decreases |q|
  {
    if q != [] {
      if y != [] && y[0] == q[0] && MissesCommas(q[1..], y[1..]) {
        LinkedIsCalm(q[1..], y[1..]);
      } else {
        LinkedIsCalm(q[1..], y);
      }
    }
  }

  // ----- recovery, white space aside -----

  // Removing trailing commas.
  lemma {:induction false} TrailingRecovered(x: seq<Token>, d: seq<Token>)
    requires Trails(x, d) && NoSpace(x) && forall i :: 0 <= i < |x| - 1 ==> !(x[i].Comma? && x[i + 1].Close?)
    ensures DropTrailing(d) == x
    ensures x != [] && !x[0].Close? ==> d != [] && d[0] == x[0]
    decreases |x|
  {
    if x != [] {
      if d != [] && d[0] == x[0] && Trails(x[1..], d[1..]) {
        TrailingRecovered(x[1..], d[1..]);
        assert x == [x[0]] + x[1..];
        assert x[0].Comma? && |x| > 1 ==> x[0 + 1] == x[1];
      } else {
        TrailingRecovered(x[1..], d[2..]);
        assert d[1..][1..] == d[2..];
        assert x == [x[0]] + x[1..];
      }
    }
  }

  // Quoting keys.
  lemma {:induction false} KeysRecovered(y: seq<Token>, x: seq<Token>, separated: bool)
    requires Unquotes(y, x, separated) && Calm(y)
    ensures QuoteKeys(x, separated) == y
    ensures y != [] && !y[0].Text? ==> x[0] == y[0]
  {
    if y != [] {
      KeysRecovered(y[1..], x[1..], IsSeparator(y[0]));
      assert y == [y[0]] + y[1..];
    }
  }

  // Unquoting keeps what removing trailing commas needs.
  lemma {:induction false} UnquotedStaysCalm(y: seq<Token>, x: seq<Token>, separated: bool)
    requires Unquotes(y, x, separated) && Calm(y)
    ensures NoSpace(x) && |x| == |y| && forall i :: 0 <= i < |x| - 1 ==> !(x[i].Comma? && x[i + 1].Close?)
    ensures forall i :: 0 <= i < |x| ==> x[i] == y[i] || (x[i].Word? && y[i].Text?)
  {
    if y != [] {
      UnquotedStaysCalm(y[1..], x[1..], IsSeparator(y[0]));
      forall i | 0 <= i < |x| - 1
        ensures !(x[i].Comma? && x[i + 1].Close?)
      {
        if i > 0 {
          assert x[i] == x[1..][i - 1] && x[i + 1] == x[1..][i];
        } else {
          assert x[1] == x[1..][0] && y[1] == y[1..][0];
        }
      }
    }
  }

  // Inserting commas.
  lemma {:induction false} CommasRecovered(q: seq<Token>, y: seq<Token>, ended: bool)
    requires Linked(q) && MissesCommas(q, y)
    requires q != [] ==> (q[0].Text? ==> !ended) && (q[0].Comma? ==> ended)
    ensures AddCommas(y, ended) == q
    decreases |q|
  {
    if q != [] {
      assert q == [q[0]] + q[1..];
      if y != [] && y[0] == q[0] && MissesCommas(q[1..], y[1..]) {
        CommasRecovered(q[1..], y[1..], EndsValue(q[0]));
      } else {
        // the dropped comma stood before the string literal that `y` goes on with
        assert MissesCommas(q[1..], y) && q[1..][0] == q[1] && y[0] == q[1] && MissesCommas(q[2..], y[1..]) by {
          assert q[1..][1..] == q[2..];
        }
        CommasRecovered(q[2..], y[1..], true);
        assert q[1..] == [q[1]] + q[2..];
      }
    }
  }

  // ----- closing -----

  ghost predicate AllClose(toks: seq<Token>) {
    forall i :: 0 <= i < |toks| ==> toks[i].Close?
  }

  // Closing tokens that leave nothing awaited are the awaited ones.
  lemma {:induction false} ClosersAreAwaited(closers: seq<Token>, awaited: seq<bool>)
    requires AllClose(closers) && Nest(closers, awaited) == Some([])
    ensures closers == ClosersFor(awaited)
  {
    if closers != [] {
      ClosersAreAwaited(closers[1..], awaited[..|awaited| - 1]);
      assert closers == [closers[0]] + closers[1..];
    }
  }

  lemma {:induction false} MissingCommasNest(q: seq<Token>, y: seq<Token>, awaited: seq<bool>)
    requires MissesCommas(q, y)
    ensures Nest(y, awaited) == Nest(q, awaited)
    decreases |q|
  {
    if q != [] {
      if y != [] && y[0] == q[0] && MissesCommas(q[1..], y[1..]) {
        match q[0]
        case Open(brace) => MissingCommasNest(q[1..], y[1..], awaited + [brace]);
        case Close(brace) =>
          if awaited != [] && awaited[|awaited| - 1] == brace {
            MissingCommasNest(q[1..], y[1..], awaited[..|awaited| - 1]);
          }
        case _ => MissingCommasNest(q[1..], y[1..], awaited);
      } else {
        MissingCommasNest(q[1..], y, awaited);
      }
    }
  }

  lemma {:induction false} AddCommasKeepsClosers(closers: seq<Token>, ended: bool)
    requires AllClose(closers)
    ensures AddCommas(closers, ended) == closers
  {
    if closers != [] {
      AddCommasKeepsClosers(closers[1..], true);
      assert closers == [closers[0]] + closers[1..];
    }
  }

  lemma {:induction false} AddCommasBeforeClosers(toks: seq<Token>, closers: seq<Token>, ended: bool)
    requires AllClose(closers)
    ensures AddCommas(toks + closers, ended) == AddCommas(toks, ended) + closers
  {
    if toks == [] {
      assert toks + closers == closers;
      AddCommasKeepsClosers(closers, ended);
    } else {
      hide EndsValue, AllClose;
      assert (toks + closers)[1..] == toks[1..] + closers;
      AddCommasBeforeClosers(toks[1..], closers, if toks[0].Space? then ended else EndsValue(toks[0]));
    }
  }

  lemma {:induction false} LexableBeforeClosers(toks: seq<Token>, closers: seq<Token>)
    requires Lexable(toks) && AllClose(closers)
    ensures Lexable(toks + closers)
  {
    if toks == [] {
      assert toks + closers == closers;
      if closers != [] {
        LexableBeforeClosers([], closers[1..]);
        assert [] + closers[1..] == closers[1..];
      }
    } else {
      assert (toks + closers)[1..] == toks[1..] + closers;
      LexableBeforeClosers(toks[1..], closers);
    }
  }

  lemma {:induction false} ClosersAddNoSpace(toks: seq<Token>, closers: seq<Token>)
    requires AllClose(closers)
    ensures Spaces(toks + closers) == Spaces(toks) && Strip(toks + closers) == Strip(toks) + closers
  {
    StripConcat(toks, closers);
    StripNoSpace(closers);
    if toks == [] {
      assert toks + closers == closers;
      if closers != [] {
        ClosersAddNoSpace([], closers[1..]);
        assert [] + closers[1..] == closers[1..];
      }
    } else {
      assert (toks + closers)[1..] == toks[1..] + closers;
      ClosersAddNoSpace(toks[1..], closers);
    }
  }

  // On a text that nests as a value does whose closing tokens are cut off, the pass appends those.
  lemma ClosersAppended(v: Json, body: seq<Token>, closers: seq<Token>, toks: seq<Token>)
    requires IsJson(v) && Tokens(v) == body + closers && AllClose(closers)
    requires Lexable(toks) && Nest(toks, []) == Nest(body, [])
    ensures Closers(Print(toks)) == Print(closers)
  {
    TokensNest(v, []);
    NestConcat(body, closers, []);
    ClosersAreAwaited(closers, Nest(body, []).value);
    ClosersOnText(toks);
  }

  // On the print of a truncated layout the pass appends the tokens that were cut off.
  lemma ClosersRecovered(v: Json, body: seq<Token>, closers: seq<Token>, y: seq<Token>, toks: seq<Token>)
    requires IsJson(v) && Tokens(v) == body + closers && AllClose(closers)
    requires MissesCommas(body, y) && Lexable(toks) && Strip(toks) == y
    ensures Closers(Print(toks)) == Print(closers)
  {
    MissingCommasNest(body, y, []);
    NestStrips(toks, []);
    ClosersAppended(v, body, closers, toks);
  }

  lemma {:induction false} NoSpaceIff(toks: seq<Token>)
    ensures Spaces(toks) == [] <==> NoSpace(toks)
  {
    if toks != [] {
      NoSpaceIff(toks[1..]);
      assert NoSpace(toks) <==> !toks[0].Space? && NoSpace(toks[1..]) by {
        assert forall i :: 1 <= i < |toks| ==> toks[i] == toks[1..][i - 1];
      }
    }
  }

  // Each pass alone undoes its own damage and nothing else, in every layout.
  lemma OnlyTrailingCommas(v: Json, d: seq<Token>)
    requires IsJson(v) && Trails(Tokens(v), Strip(d)) && Lexable(d)
    ensures var p := DropTrailing(d);
            WithoutTrailingCommas(Print(d), Outside) == Print(p) && Layout(p, v) && Spaces(p) == Spaces(d)
  {
    TokensShaped(v);
    NothingMissing(Tokens(v));
    LinkedIsCalm(Tokens(v), Tokens(v));
    NothingUnquoted(Tokens(v), false);
    UnquotedStaysCalm(Tokens(v), Tokens(v), false);
    DropTrailingOnText(d);
    DropTrailingStrips(d);
    DropTrailingLexable(d);
    TrailingRecovered(Tokens(v), Strip(d));
  }

  lemma OnlyBareKeys(v: Json, d: seq<Token>)
    requires IsJson(v) && Unquotes(Tokens(v), Strip(d), false) && Lexable(d)
    ensures var p := QuoteKeys(d, false);
            WithQuotedKeys(Print(d), Outside) == Print(p) && Layout(p, v) && Spaces(p) == Spaces(d)
  {
    TokensShaped(v);
    NothingMissing(Tokens(v));
    LinkedIsCalm(Tokens(v), Tokens(v));
    QuoteKeysOnText(d);
    QuoteKeysStrips(d, false);
    QuoteKeysLexable(d, false);
    KeysRecovered(Tokens(v), Strip(d), false);
  }

  lemma OnlyMissingCommas(v: Json, d: seq<Token>)
    requires IsJson(v) && MissesCommas(Tokens(v), Strip(d)) && Lexable(d)
    ensures var p := AddCommas(d, false);
            WithMissingCommas(Print(d), Outside, NOTHING) == Print(p) && Layout(p, v) && Spaces(p) == Spaces(d)
  {
    TokensShaped(v);
    AddCommasOnText(d, NOTHING);
    AddCommasStrips(d, false);
    AddCommasLexable(d, false);
    CommasRecovered(Tokens(v), Strip(d), false);
  }

  lemma {:induction false} NothingMissing(q: seq<Token>)
    ensures MissesCommas(q, q)
  {
    if q != [] {
      NothingMissing(q[1..]);
    }
  }

  lemma {:induction false} NothingUnquoted(q: seq<Token>, separated: bool)
    ensures Unquotes(q, q, separated)
  {
    if q != [] {
      NothingUnquoted(q[1..], IsSeparator(q[0]));
    }
  }
}
