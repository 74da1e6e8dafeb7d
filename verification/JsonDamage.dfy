/** What the whole chain of `parse_llm_json_value` in crates/crytex-agents/src/json.rs makes of a JSON text damaged in
    several ways at once, and exactly when it gives the value back. */
module JsonDamage {
  import opened Collections
  import opened JsonText
  import opened JsonLexing
  import opened JsonRepair
  import opened JsonTokenPasses
  import opened JsonKeyPass
  import opened JsonValues
  import opened JsonRecovery
  import opened JsonLabels

  // What `parse_llm_json_value` tries last.
  function Repaired(s: string): string {
    var keyed := WithQuotedKeys(WithoutTrailingCommas(s, Outside), Outside);
    WithMissingCommas(keyed + Closers(keyed), Outside, NOTHING)
  }

  // The tokens the chain ends with when it appends `closers`.
  function RepairedTokens(d: seq<Token>, closers: seq<Token>): seq<Token> {
    AddCommas(QuoteKeys(DropTrailing(d), false) + closers, false)
  }

  // `x` is `y` with some identifier-like keys left bare; a key precedes a colon.
  predicate BaresKeys(y: seq<Token>, x: seq<Token>) {
    if y == [] then x == []
    else
      x != [] && BaresKeys(y[1..], x[1..]) &&
      (x[0] == y[0] || (y[0].Text? && IsKeyName(y[0].body) && |y| > 1 && y[1].Colon? && x[0] == Word(y[0].body)))
  }

  // Every bare key comes after `{` or a comma.
  predicate KeysSeparated(x: seq<Token>, separated: bool) {
    x == [] ||
    ((x[0].Word? && |x| > 1 && x[1].Colon? ==> separated) && KeysSeparated(x[1..], IsSeparator(x[0])))
  }

  // `d` is a damaged layout of `v`: from the tokens, the closing tokens at the end are cut off, leaving `body`; then
  // commas before strings are dropped (`y`), keys are left bare (`x`), and commas are added before closing tokens (`t`),
  // one of which may stand before the first token that was cut off; white space lies anywhere between. Without a comma
  // and white space, a bare key touches the value before it.
  ghost predicate Damaged(v: Json, body: seq<Token>, closers: seq<Token>, y: seq<Token>, x: seq<Token>, t: seq<Token>,
                          d: seq<Token>) {
    && Tokens(v) == body + closers && AllClose(closers)
    && MissesCommas(body, y) && BaresKeys(y, x) && Trails(x, t)
    && (Strip(d) == t || (closers != [] && Strip(d) == t + [Comma]))
    && AllValid(d)
  }

  // The chain gives back a layout of `v`.
  ghost predicate GivesBack(v: Json, s: string) {
    exists p :: Layout(p, v) && Repaired(s) == Print(p)
  }

  // ----- nesting does not see commas and keys -----

  lemma {:induction false} DropTrailingNest(toks: seq<Token>, awaited: seq<bool>)
    ensures Nest(DropTrailing(toks), awaited) == Nest(toks, awaited)
  {
    if toks != [] {
      var rest := DropTrailing(toks[1..]);
      ConsTail(toks[0], rest);
      match toks[0]
      case Open(brace) => DropTrailingNest(toks[1..], awaited + [brace]);
      case Close(brace) =>
        if awaited != [] && awaited[|awaited| - 1] == brace {
          DropTrailingNest(toks[1..], awaited[..|awaited| - 1]);
        }
      case _ => DropTrailingNest(toks[1..], awaited);
    }
  }

  lemma {:induction false} QuoteKeysNest(toks: seq<Token>, separated: bool, awaited: seq<bool>)
    ensures Nest(QuoteKeys(toks, separated), awaited) == Nest(toks, awaited)
  {
    if toks != [] {
      var t, more := toks[0], toks[1..];
      var quoted := t.Word? && separated && IsKeyName(t.name) && ColonNext(more);
      var separated' := if t.Space? then separated else if quoted then false else IsSeparator(t);
      ConsTail(if quoted then Text(t.name) else t, QuoteKeys(more, separated'));
      match t
      case Open(brace) => QuoteKeysNest(more, separated', awaited + [brace]);
      case Close(brace) =>
        if awaited != [] && awaited[|awaited| - 1] == brace {
          QuoteKeysNest(more, separated', awaited[..|awaited| - 1]);
        }
      case _ => QuoteKeysNest(more, separated', awaited);
    }
  }

  lemma {:induction false} BaredKeysNest(y: seq<Token>, x: seq<Token>, awaited: seq<bool>)
    requires BaresKeys(y, x)
    ensures Nest(x, awaited) == Nest(y, awaited)
  {
    if y != [] {
      match y[0]
      case Open(brace) => BaredKeysNest(y[1..], x[1..], awaited + [brace]);
      case Close(brace) =>
        if awaited != [] && awaited[|awaited| - 1] == brace {
          BaredKeysNest(y[1..], x[1..], awaited[..|awaited| - 1]);
        }
      case _ => BaredKeysNest(y[1..], x[1..], awaited);
    }
  }

  // ----- the chain on tokens -----

  // Whatever the tokens, if they nest as `body` does the chain ends with RepairedTokens and keeps the white space.
  lemma ChainOnTokens(v: Json, body: seq<Token>, closers: seq<Token>, d: seq<Token>)
    requires IsJson(v) && Tokens(v) == body + closers && AllClose(closers)
    requires Lexable(d) && Nest(d, []) == Nest(body, [])
    ensures var p := RepairedTokens(d, closers);
            && Repaired(Print(d)) == Print(p) && Lexable(p) && Spaces(p) == Spaces(d)
            && Strip(p) == AddCommas(QuoteKeys(DropTrailing(Strip(d)), false) + closers, false)
  {
    var d1 := DropTrailing(d);
    DropTrailingOnText(d);
    DropTrailingStrips(d);
    DropTrailingLexable(d);
    DropTrailingNest(d, []);

    var d2 := QuoteKeys(d1, false);
    QuoteKeysOnText(d1);
    QuoteKeysStrips(d1, false);
    QuoteKeysLexable(d1, false);
    QuoteKeysNest(d1, false, []);

    var d3 := d2 + closers;
    ClosersAppended(v, body, closers, d2);
    PrintConcat(d2, closers);
    LexableBeforeClosers(d2, closers);
    ClosersAddNoSpace(d2, closers);

    AddCommasOnText(d3, NOTHING);
    AddCommasStrips(d3, false);
    AddCommasLexable(d3, false);
  }

  // ----- bare keys -----

  lemma {:induction false} UnquotesIff(y: seq<Token>, x: seq<Token>, separated: bool)
    requires Calm(y)
    ensures Unquotes(y, x, separated) <==> BaresKeys(y, x) && KeysSeparated(x, separated)
  {
    if y != [] && x != [] {
      UnquotesIff(y[1..], x[1..], IsSeparator(y[0]));
      if |x| > 1 && |y| > 1 {
        assert y[1] == y[1..][0] && x[1] == x[1..][0];
      }
    }
  }

  // Leaving keys bare keeps what removing trailing commas needs.
  lemma {:induction false} BaredStaysCalm(y: seq<Token>, x: seq<Token>)
    requires BaresKeys(y, x) && Calm(y)
    ensures NoSpace(x) && |x| == |y|
    ensures forall i :: 0 <= i < |x| ==> x[i] == y[i] || (x[i].Word? && y[i].Text?)
    ensures forall i :: 0 <= i < |x| - 1 ==> !(x[i].Comma? && x[i + 1].Close?)
  {
    if y != [] {
      BaredStaysCalm(y[1..], x[1..]);
      forall i | 0 <= i < |x|
        ensures (x[i] == y[i] || (x[i].Word? && y[i].Text?)) && !x[i].Space?
      {
        assert i > 0 ==> x[i] == x[1..][i - 1] && y[i] == y[1..][i - 1];
      }
      forall i | 0 <= i < |x| - 1
        ensures !(x[i].Comma? && x[i + 1].Close?)
      {
        if i > 0 {
          assert x[i] == x[1..][i - 1] && x[i + 1] == x[1..][i];
        } else {
          assert x[1] == x[1..][0] && y[1] == y[1..][0];
        }
      }
    }
  }

  // A word before a colon, which no JSON text has.
  predicate HasBareKey(toks: seq<Token>) {
    |toks| > 1 && ((toks[0].Word? && toks[1].Colon?) || HasBareKey(toks[1..]))
  }

  lemma {:induction false} LinkedHasNoBareKey(toks: seq<Token>)
    requires Linked(toks)
    ensures !HasBareKey(toks)
  {
    if toks != [] {
      LinkedHasNoBareKey(toks[1..]);
    }
  }

  lemma {:induction false} BareKeyStays(a: seq<Token>, b: seq<Token>)
    requires HasBareKey(a)
    ensures HasBareKey(a + b)
  {
    assert (a + b)[0] == a[0] && (a + b)[1] == a[1] && (a + b)[1..] == a[1..] + b;
    if HasBareKey(a[1..]) {
      BareKeyStays(a[1..], b);
    }
  }

  // Quoting leaves a bare key that comes after neither `{` nor a comma.
  lemma {:induction false} UnseparatedKeyStays(x: seq<Token>, separated: bool)
    requires NoSpace(x) && !KeysSeparated(x, separated)
    ensures HasBareKey(QuoteKeys(x, separated))
  {
    var t, more := x[0], x[1..];
    var quoted := t.Word? && separated && IsKeyName(t.name) && ColonNext(more);
    var separated' := if quoted then false else IsSeparator(t);
    var t' := if quoted then Text(t.name) else t;
    ConsTail(t', QuoteKeys(more, separated'));
    assert forall i :: 0 <= i < |more| ==> more[i] == x[i + 1];
    if t.Word? && |x| > 1 && x[1].Colon? && !separated {
      assert more[0] == x[1];
      ConsTail(more[0], QuoteKeys(more[1..], false));
      assert QuoteKeys(more, separated')[0].Colon?;
    } else {
      UnseparatedKeyStays(more, IsSeparator(t));
    }
  }

  // So does inserting commas, which go before string literals only.
  lemma {:induction false} AddCommasKeepsBareKey(z: seq<Token>, ended: bool)
    requires NoSpace(z) && HasBareKey(z)
    ensures HasBareKey(AddCommas(z, ended))
  {
    var t, more := z[0], z[1..];
    var rest := AddCommas(more, EndsValue(t));
    assert forall i :: 0 <= i < |more| ==> more[i] == z[i + 1];
    ConsTail(t, rest);
    ConsTail(Comma, [t] + rest);
    if t.Word? && z[1].Colon? {
      assert more[0] == z[1];
      ConsTail(more[0], AddCommas(more[1..], false));
      assert rest[0].Colon?;
    } else {
      AddCommasKeepsBareKey(more, EndsValue(t));
      assert rest != [];
    }
  }

  // ----- a comma left before a closing token that was cut off -----

  lemma {:induction false} DropTrailingLeavesLast(toks: seq<Token>)
    ensures DropTrailing(toks + [Comma]) == DropTrailing(toks) + [Comma]
  {
    if toks == [] {
      assert [] + [Comma] == [Comma];
    } else {
      var more := toks[1..];
      assert (toks + [Comma])[1..] == more + [Comma];
      AheadBeforeComma(more);
      DropTrailingLeavesLast(more);
    }
  }

  lemma {:induction false} AheadBeforeComma(toks: seq<Token>)
    ensures Ahead(toks + [Comma]) == if Ahead(toks) == [] then [Comma] else Ahead(toks)
  {
    if toks == [] {
      assert [] + [Comma] == [Comma];
    } else {
      assert (toks + [Comma])[1..] == toks[1..] + [Comma];
      AheadBeforeComma(toks[1..]);
    }
  }

  lemma {:induction false} QuoteKeysLeavesLast(toks: seq<Token>, separated: bool)
    ensures QuoteKeys(toks + [Comma], separated) == QuoteKeys(toks, separated) + [Comma]
  {
    if toks == [] {
      assert [] + [Comma] == [Comma];
    } else {
      var t, more := toks[0], toks[1..];
      assert (toks + [Comma])[1..] == more + [Comma];
      AheadBeforeComma(more);
      var quoted := t.Word? && separated && IsKeyName(t.name) && ColonNext(more);
      QuoteKeysLeavesLast(more, if t.Space? then separated else if quoted then false else IsSeparator(t));
    }
  }

  lemma {:induction false} AddCommasLeavesLast(toks: seq<Token>, ended: bool)
    ensures AddCommas(toks + [Comma], ended) == AddCommas(toks, ended) + [Comma]
  {
    if toks == [] {
      assert [] + [Comma] == [Comma];
    } else {
      var t, more := toks[0], toks[1..];
      assert (toks + [Comma])[1..] == more + [Comma];
      AddCommasLeavesLast(more, if t.Space? then ended else EndsValue(t));
    }
  }

  // ----- exactly when the value comes back -----

  lemma DamagedCalm(v: Json, body: seq<Token>, closers: seq<Token>, y: seq<Token>, x: seq<Token>, t: seq<Token>,
                    d: seq<Token>)
    requires IsJson(v) && Damaged(v, body, closers, y, x, t, d)
    ensures Calm(y) && NoSpace(x) && DropTrailing(t) == x
  {
    TokensShaped(v);
    LinkedSplit(body, closers);
    hide IsJson, Tokens, AllClose, Strip, Lexable;
    LinkedIsCalm(body, y);
    hide Linked, MissesCommas;
    BaredStaysCalm(y, x);
    hide BaresKeys, Calm;
    TrailingRecovered(x, t);
  }

  lemma DamagedNest(v: Json, body: seq<Token>, closers: seq<Token>, y: seq<Token>, x: seq<Token>, t: seq<Token>,
                    d: seq<Token>)
    requires IsJson(v) && Damaged(v, body, closers, y, x, t, d)
    ensures Calm(y) && NoSpace(x) && DropTrailing(t) == x && Nest(d, []) == Nest(body, [])
  {
    DamagedCalm(v, body, closers, y, x, t, d);
    hide IsJson, Tokens, AllClose, Lexable, Trails, Calm, NoSpace;
    NestConcat(t, [Comma], []);
    assert Nest(t + [Comma], []) == Nest(t, []);
    hide Nest;
    NestStrips(d, []);
    DropTrailingNest(t, []);
    BaredKeysNest(y, x, []);
    MissingCommasNest(body, y, []);
  }

  // The tokens the chain ends with, white space aside.
  lemma RepairedStripped(v: Json, body: seq<Token>, closers: seq<Token>, y: seq<Token>, x: seq<Token>, t: seq<Token>,
                         d: seq<Token>)
    requires IsJson(v) && Damaged(v, body, closers, y, x, t, d) && Lexable(d)
    ensures var p := RepairedTokens(d, closers);
            && Repaired(Print(d)) == Print(p) && Lexable(p) && Spaces(p) == Spaces(d)
            && Strip(p) == AddCommas(QuoteKeys(x, false), false) + ((if Strip(d) == t then [] else [Comma]) + closers)
  {
    DamagedNest(v, body, closers, y, x, t, d);
    ChainOnTokens(v, body, closers, d);
    var z := QuoteKeys(x, false);
    if Strip(d) == t {
      AddCommasBeforeClosers(z, closers, false);
      assert [] + closers == closers;
    } else {
      DropTrailingLeavesLast(t);
      QuoteKeysLeavesLast(x, false);
      AddCommasBeforeClosers(z + [Comma], closers, false);
      AddCommasLeavesLast(z, false);
      Regroup(AddCommas(z, false), [Comma], closers);
    }
  }

  lemma SoundDamageRepaired(v: Json, body: seq<Token>, closers: seq<Token>, y: seq<Token>, x: seq<Token>,
                            t: seq<Token>, d: seq<Token>)
    requires IsJson(v) && Damaged(v, body, closers, y, x, t, d) && Lexable(d)
    requires Strip(d) == t && KeysSeparated(x, false)
    ensures Layout(RepairedTokens(d, closers), v)
  {
    DamagedNest(v, body, closers, y, x, t, d);
    RepairedStripped(v, body, closers, y, x, t, d);
    UnquotesIff(y, x, false);
    KeysRecovered(y, x, false);
    TokensShaped(v);
    LinkedSplit(body, closers);
    assert body != [] ==> body[0] == Tokens(v)[0];
    CommasRecovered(body, y, false);
    assert [] + closers == closers;
  }

  lemma UnsoundDamageStays(v: Json, body: seq<Token>, closers: seq<Token>, y: seq<Token>, x: seq<Token>,
                           t: seq<Token>, d: seq<Token>)
    requires IsJson(v) && Damaged(v, body, closers, y, x, t, d) && Lexable(d)
    requires !(Strip(d) == t && KeysSeparated(x, false))
    ensures Strip(RepairedTokens(d, closers)) != Tokens(v)
  {
    DamagedNest(v, body, closers, y, x, t, d);
    RepairedStripped(v, body, closers, y, x, t, d);
    TokensShaped(v);
    var z := AddCommas(QuoteKeys(x, false), false);
    if Strip(d) != t {
      var made := z + [Comma];
      Regroup(z, [Comma], closers);
      if made + closers == body + closers {
        SamePrefix(made, body, closers);
        LinkedSplit(made, closers);
      }
    } else {
      QuoteKeysAddsNoSpace(x, false);
      UnseparatedKeyStays(x, false);
      AddCommasKeepsBareKey(QuoteKeys(x, false), false);
      BareKeyStays(z, [] + closers);
      LinkedHasNoBareKey(Tokens(v));
    }
  }

  lemma SamePrefix(a: seq<Token>, b: seq<Token>, c: seq<Token>)
    requires a + c == b + c
    ensures a == b
  {
    assert |a| == |b|;
    assert a == (a + c)[..|a|] && b == (b + c)[..|b|];
  }

  lemma {:induction false} QuoteKeysAddsNoSpace(toks: seq<Token>, separated: bool)
    requires NoSpace(toks)
    ensures NoSpace(QuoteKeys(toks, separated))
  {
    QuoteKeysStrips(toks, separated);
    NoSpaceIff(toks);
    NoSpaceIff(QuoteKeys(toks, separated));
  }

  // ----- touching words -----

  lemma {:induction false} MissedCommasLabels(q: seq<Token>, y: seq<Token>)
    requires MissesCommas(q, y)
    ensures ColonNext(y) == ColonNext(q) && LabelLength(y) == LabelLength(q)
    decreases |q|
  {
    if q != [] {
      if y != [] && y[0] == q[0] && MissesCommas(q[1..], y[1..]) {
        MissedCommasLabels(q[1..], y[1..]);
      } else {
        MissedCommasLabels(q[1..], y);
        assert q[1..][0] == q[1];
      }
    }
  }

  lemma {:induction false} BaredKeysLabels(y: seq<Token>, x: seq<Token>)
    requires BaresKeys(y, x)
    ensures ColonNext(x) == ColonNext(y) && LabelLength(x) == LabelLength(y)
  {
    if y != [] {
      BaredKeysLabels(y[1..], x[1..]);
    }
  }

  lemma {:induction false} TrailsLabels(x: seq<Token>, t: seq<Token>)
    requires Trails(x, t)
    ensures ColonNext(t) == ColonNext(x) && LabelLength(t) == LabelLength(x)
    decreases |x|
  {
    if x != [] {
      if t != [] && t[0] == x[0] && Trails(x[1..], t[1..]) {
        TrailsLabels(x[1..], t[1..]);
      } else {
        TrailsLabels(x[1..], t[2..]);
        assert t[1..][1..] == t[2..];
      }
    }
  }

  // In JSON text with commas dropped before strings no words are neighbours; the second of two was a string once.
  predicate NoWordsMeet(toks: seq<Token>) {
    toks == [] || ((|toks| > 1 && toks[0].Word? ==> !toks[1].Word?) && NoWordsMeet(toks[1..]))
  }

  lemma {:induction false} MissedCommasMeet(q: seq<Token>, y: seq<Token>)
    requires Linked(q) && MissesCommas(q, y)
    ensures NoWordsMeet(y)
    ensures q != [] && y != [] ==> y[0] == q[0] || (q[0].Comma? && y[0].Text?)
    decreases |q|
  {
    if q != [] {
      if y != [] && y[0] == q[0] && MissesCommas(q[1..], y[1..]) {
        MissedCommasMeet(q[1..], y[1..]);
      } else {
        MissedCommasMeet(q[1..], y);
      }
    }
  }

  lemma {:induction false} MeetingAreKeys(y: seq<Token>, x: seq<Token>)
    requires BaresKeys(y, x) && NoWordsMeet(y) && Calm(y)
    ensures TouchingAreKeys(x)
  {
    if y != [] {
      MeetingAreKeys(y[1..], x[1..]);
      if |x| > 1 && x[0].Word? && x[1].Word? {
        assert x[1] == x[1..][0] && y[1] == y[1..][0];
        assert BaresKeys(y[1..], x[1..]) && BaresKeys(y[1..][1..], x[1..][1..]);
        assert y[1..][1..] == y[2..] && x[1..][1..] == x[2..];
        assert y[0] == x[0] && y[1].Text? && y[2].Colon? && x[2] == y[2];
      }
    }
  }

  lemma {:induction false} TrailsKeepsMeeting(x: seq<Token>, t: seq<Token>)
    requires Trails(x, t)
    ensures TouchingAreKeys(x) ==> TouchingAreKeys(t)
    ensures NoWordsMeet(x) ==> NoWordsMeet(t)
    decreases |x|
  {
    if x != [] {
      if t != [] && t[0] == x[0] && Trails(x[1..], t[1..]) {
        TrailsKeepsMeeting(x[1..], t[1..]);
        if |t| > 1 && t[0].Word? && t[1].Word? {
          assert t[1..][0] == t[1] && x[1..][0] == x[1] == t[1];
          assert x[1..][1..] == x[2..] && t[1..][1..] == t[2..];
          TrailsLabels(x[2..], t[2..]);
        }
      } else {
        TrailsKeepsMeeting(x[1..], t[2..]);
        assert t[1..][1..] == t[2..];
        assert t[1..][0] == x[0];
      }
    }
  }

  lemma {:induction false} CommaKeepsMeeting(t: seq<Token>)
    ensures TouchingAreKeys(t) ==> TouchingAreKeys(t + [Comma])
    ensures NoWordsMeet(t) ==> NoWordsMeet(t + [Comma])
  {
    if t == [] {
      assert t + [Comma] == [Comma];
    } else {
      assert (t + [Comma])[1..] == t[1..] + [Comma];
      CommaKeepsMeeting(t[1..]);
      if |t| > 1 {
        assert (t + [Comma])[2..] == t[2..] + [Comma];
        LabelsBefore(t[2..], [Comma]);
      }
    }
  }

  lemma {:induction false} SpacesKeepMeeting(d: seq<Token>)
    ensures TouchingAreKeys(Strip(d)) ==> TouchingAreKeys(d)
    ensures AllValid(d) && NoWordsMeet(Strip(d)) ==> Lexable(d)
  {
    if d != [] {
      SpacesKeepMeeting(d[1..]);
      ConsTail(d[0], Strip(d[1..]));
      assert forall i :: 0 <= i < |d| - 1 ==> d[1..][i] == d[i + 1];
      if |d| > 1 && d[0].Word? && d[1].Word? {
        assert d[1..][1..] == d[2..];
        ConsTail(d[1], Strip(d[2..]));
        assert Strip(d) == [d[0]] + ([d[1]] + Strip(d[2..]));
        assert Strip(d)[2..] == Strip(d[2..]);
        AheadOfStrip(d[2..]);
      }
    }
  }

  // Where every bare key comes after `{` or a comma, no words are neighbours.
  lemma {:induction false} SeparatedKeepApart(x: seq<Token>, separated: bool)
    requires KeysSeparated(x, separated) && TouchingAreKeys(x) && NoSpace(x)
    ensures NoWordsMeet(x)
  {
    if x != [] {
      assert forall i :: 0 <= i < |x| - 1 ==> x[1..][i] == x[i + 1];
      SeparatedKeepApart(x[1..], IsSeparator(x[0]));
      assert |x| > 2 ==> x[2] == x[2..][0] == x[1..][1];
    }
  }

  lemma DamagedTouching(v: Json, body: seq<Token>, closers: seq<Token>, y: seq<Token>, x: seq<Token>, t: seq<Token>,
                        d: seq<Token>)
    requires IsJson(v) && Damaged(v, body, closers, y, x, t, d)
    ensures TouchingAreKeys(d) && (KeysSeparated(x, false) ==> Lexable(d))
  {
    DamagedCalm(v, body, closers, y, x, t, d);
    TokensShaped(v);
    LinkedSplit(body, closers);
    MissedCommasMeet(body, y);
    MeetingAreKeys(y, x);
    if KeysSeparated(x, false) {
      SeparatedKeepApart(x, false);
    }
    TrailsKeepsMeeting(x, t);
    CommaKeepsMeeting(t);
    SpacesKeepMeeting(d);
  }

  lemma DamagedLabels(v: Json, body: seq<Token>, closers: seq<Token>, y: seq<Token>, x: seq<Token>, t: seq<Token>,
                      d: seq<Token>)
    requires IsJson(v) && Damaged(v, body, closers, y, x, t, d)
    ensures LabelLength(d) == LabelLength(Tokens(v))
  {
    StripLabels(d);
    LabelsBefore(t, [Comma]);
    TrailsLabels(x, t);
    BaredKeysLabels(y, x);
    MissedCommasLabels(body, y);
    LabelsBefore(body, closers);
  }

  // Once a bare key touches the value before it, the text reads as one longer word there, which stays.
  lemma TouchingStays(v: Json, body: seq<Token>, closers: seq<Token>, y: seq<Token>, x: seq<Token>, t: seq<Token>,
                      d: seq<Token>)
    requires IsJson(v) && Damaged(v, body, closers, y, x, t, d) && !Lexable(d)
    ensures !GivesBack(v, Print(d))
  {
    var m := Merged(d);
    DamagedNest(v, body, closers, y, x, t, d);
    DamagedTouching(v, body, closers, y, x, t, d);
    DamagedLabels(v, body, closers, y, x, t, d);
    MergedReads(d);
    MergedNest(d, []);
    MergedLabels(d);
    ChainOnTokens(v, body, closers, m);
    var made := RepairedTokens(m, closers);
    DropTrailingLabels(m);
    QuoteKeysLabels(DropTrailing(m), false);
    LabelsBefore(QuoteKeys(DropTrailing(m), false), closers);
    AddCommasLabels(QuoteKeys(DropTrailing(m), false) + closers, false);
    StripLabels(made);
    assert Strip(made) != Tokens(v);
    forall p | Layout(p, v)
      ensures Repaired(Print(d)) != Print(p)
    {
      if Print(made) == Print(p) {
        PrintIsUnambiguous(made, p);
      }
    }
  }

  // The chain gives back a layout of the value, with the white space it was given, if and only if no comma was added
  // before a closing token that was cut off and no key was left bare where its comma was dropped.
  lemma DamageRepairedIff(v: Json, body: seq<Token>, closers: seq<Token>, y: seq<Token>, x: seq<Token>, t: seq<Token>,
                          d: seq<Token>)
    requires IsJson(v) && Damaged(v, body, closers, y, x, t, d)
    ensures GivesBack(v, Print(d)) <==> Strip(d) == t && KeysSeparated(x, false)
    ensures GivesBack(v, Print(d)) ==>
              exists p :: Layout(p, v) && Repaired(Print(d)) == Print(p) && Spaces(p) == Spaces(d)
  {
    DamagedTouching(v, body, closers, y, x, t, d);
    if !Lexable(d) {
      TouchingStays(v, body, closers, y, x, t, d);
    } else if Strip(d) == t && KeysSeparated(x, false) {
      RepairedStripped(v, body, closers, y, x, t, d);
      SoundDamageRepaired(v, body, closers, y, x, t, d);
    } else {
      var made := RepairedTokens(d, closers);
      RepairedStripped(v, body, closers, y, x, t, d);
      UnsoundDamageStays(v, body, closers, y, x, t, d);
      forall p | Layout(p, v)
        ensures Repaired(Print(d)) != Print(p)
      {
        if Print(made) == Print(p) {
          PrintIsUnambiguous(made, p);
        }
      }
    }
  }

  // Without white space, the value's own print comes back, character for character, under the same condition.
  lemma CompactRepairedIff(v: Json, body: seq<Token>, closers: seq<Token>, y: seq<Token>, x: seq<Token>, t: seq<Token>,
                           d: seq<Token>)
    requires IsJson(v) && Damaged(v, body, closers, y, x, t, d) && NoSpace(d)
    ensures Repaired(Print(d)) == Print(Tokens(v)) <==> Strip(d) == t && KeysSeparated(x, false)
  {
    DamageRepairedIff(v, body, closers, y, x, t, d);
    TokensShaped(v);
    LinkedIsLayout(v, Tokens(v));
    NoSpaceIff(d);
    if GivesBack(v, Print(d)) {
      var p :| Layout(p, v) && Repaired(Print(d)) == Print(p) && Spaces(p) == Spaces(d);
      NoSpaceIff(p);
      StripNoSpace(p);
    }
  }

  lemma LinkedIsLayout(v: Json, toks: seq<Token>)
    requires Linked(toks) && toks == Tokens(v)
    ensures Layout(toks, v)
  {
    LinkedIsLexable(toks);
    StripNoSpace(toks);
  }

  lemma {:induction false} LinkedIsLexable(toks: seq<Token>)
    requires Linked(toks)
    ensures Lexable(toks) && NoSpace(toks)
  {
    if toks != [] {
      LinkedIsLexable(toks[1..]);
      assert forall i :: 1 <= i < |toks| ==> toks[i] == toks[1..][i - 1];
    }
  }

  // ----- an input of each kind that fails -----

  const ONE: Json := Number(false, "1", "", NoExponent)
  const TWO: Json := Number(false, "2", "", NoExponent)

  lemma DigitTokens()
    ensures IsJson(ONE) && IsJson(TWO) && Tokens(ONE) == [Word("1")] && Tokens(TWO) == [Word("2")]
  {
    assert PrintNumber(ONE) == "1" && PrintNumber(TWO) == "2";
  }

  lemma {:induction false} NoneTrails(x: seq<Token>)
    ensures Trails(x, x)
  {
    if x != [] {
      NoneTrails(x[1..]);
    }
  }

  lemma {:induction false} NoneBared(y: seq<Token>)
    ensures BaresKeys(y, y)
  {
    if y != [] {
      NoneBared(y[1..]);
    }
  }

  lemma {:induction false} MissesLater(p: seq<Token>, q: seq<Token>, y: seq<Token>)
    requires MissesCommas(q, y)
    ensures MissesCommas(p + q, p + y)
  {
    if p == [] {
      assert p + q == q && p + y == y;
    } else {
      assert (p + q)[1..] == p[1..] + q && (p + y)[1..] == p[1..] + y;
      MissesLater(p[1..], q, y);
    }
  }

  lemma {:induction false} BaresLater(p: seq<Token>, y: seq<Token>, x: seq<Token>)
    requires BaresKeys(y, x)
    ensures BaresKeys(p + y, p + x)
  {
    if p == [] {
      assert p + y == y && p + x == x;
    } else {
      assert (p + y)[1..] == p[1..] + y && (p + x)[1..] == p[1..] + x;
      BaresLater(p[1..], y, x);
    }
  }

  lemma {:induction false} UnseparatedLater(p: seq<Token>, x: seq<Token>, separated: bool)
    requires p != [] && !KeysSeparated(x, IsSeparator(p[|p| - 1]))
    ensures !KeysSeparated(p + x, separated)
  {
    assert (p + x)[1..] == p[1..] + x;
    if |p| > 1 {
      UnseparatedLater(p[1..], x, IsSeparator(p[0]));
    } else {
      assert p[1..] + x == x;
    }
  }

  // `[1,` for `[1,]`: the comma was added before the bracket that is cut off, and the chain makes it `[1,]` again.
  lemma CommaBeforeCutBracket()
    ensures var x, d := [Open(false), Word("1")], [Open(false), Word("1"), Comma];
            && Damaged(Arr([ONE]), x, [Close(false)], x, x, x, d) && Print(d) == "[1,"
            && Repaired(Print(d)) == "[1,]" && !GivesBack(Arr([ONE]), Print(d))
  {
    var v, x, d, closers := Arr([ONE]), [Open(false), Word("1")], [Open(false), Word("1"), Comma], [Close(false)];
    DigitTokens();
    assert ItemTokens([ONE]) == Tokens(ONE);
    assert Tokens(v) == [Open(false)] + ItemTokens([ONE]) + [Close(false)];
    NothingMissing(x);
    NoneBared(x);
    NoneTrails(x);
    assert Lexable(d[2..]) && Lexable(d[1..]) && Lexable(d);
    assert Strip(d[2..]) == [Comma] && Strip(d[1..]) == [Word("1"), Comma] && Strip(d) == x + [Comma];
    assert Damaged(v, x, closers, x, x, x, d);
    CommaBeforeCutBracketText(x, d, closers);
    RepairedStripped(v, x, closers, x, x, x, d);
    DamageRepairedIff(v, x, closers, x, x, x, d);
  }

  lemma CommaBeforeCutBracketText(x: seq<Token>, d: seq<Token>, closers: seq<Token>)
    requires x == [Open(false), Word("1")] && d == x + [Comma] && closers == [Close(false)]
    ensures Print(d) == "[1," && Print(RepairedTokens(d, closers)) == "[1,]"
  {
    var one := [Word("1")];
    assert x == [Open(false)] + one && x[1..] == one && one[1..] == [];
    assert DropTrailing(one) == one && DropTrailing(x) == x;
    DropTrailingLeavesLast(x);
    assert QuoteKeys(one, false) == one && QuoteKeys(x, false) == x;
    QuoteKeysLeavesLast(x, false);
    assert AddCommas(one, false) == one && AddCommas(x, false) == x;
    AddCommasLeavesLast(x, false);
    AddCommasBeforeClosers(d, closers, false);
    PrintConcat(x, [Comma]);
    PrintConcat(d, closers);
    assert Print(one) == "1" && Print(x) == "[1" && Print([Comma]) == "," && Print(closers) == "]";
  }

  lemma {:induction false} LexableConcat(a: seq<Token>, b: seq<Token>)
    requires Lexable(a) && Lexable(b)
    requires a != [] && b != [] ==> !a[|a| - 1].Word? || !b[0].Word?
    ensures Lexable(a + b)
  {
    if a == [] {
      assert a + b == b;
    } else {
      assert (a + b)[1..] == a[1..] + b;
      LexableConcat(a[1..], b);
    }
  }

  lemma KeyIsWord(key: string)
    requires IsKeyName(key)
    ensures Word(key).Valid()
  {
  }

  // A key left bare without its comma is a damage the chain does not undo, whatever the value.
  lemma BareKeyWithoutComma(v: Json, front: seq<Token>, key: string, back: seq<Token>, gap: Token)
    requires IsJson(v) && Tokens(v) == front + ([Comma] + ([Text(key)] + back))
    requires front != [] && IsKeyName(key) && back != [] && back[0].Colon? && gap.Space? && gap.Valid()
    ensures var x, d := front + ([Word(key)] + back), front + ([gap] + ([Word(key)] + back));
            Damaged(v, Tokens(v), [], front + ([Text(key)] + back), x, x, d) && !GivesBack(v, Print(d))
  {
    var y, x, d := front + ([Text(key)] + back), front + ([Word(key)] + back), front + ([gap] + ([Word(key)] + back));
    TokensShaped(v);
    BareKeyLayout(front, key, back, gap);
    LexableIsValid(d);
    NothingMissing([Text(key)] + back);
    assert ([Comma] + ([Text(key)] + back))[1..] == [Text(key)] + back;
    assert MissesCommas([Comma] + ([Text(key)] + back), [Text(key)] + back);
    MissesLater(front, [Comma] + ([Text(key)] + back), [Text(key)] + back);
    NoneBared(back);
    assert ([Text(key)] + back)[1..] == back && ([Word(key)] + back)[1..] == back;
    BaresLater(front, [Text(key)] + back, [Word(key)] + back);
    NoneTrails(x);
    assert Tokens(v) + [] == Tokens(v);
    assert Damaged(v, Tokens(v), [], y, x, x, d) by {
      hide MissesCommas, BaresKeys, Trails, Lexable, Strip;
    }
    LinkedSplit(front, [Comma] + ([Text(key)] + back));
    UnseparatedLater(front, [Word(key)] + back, false);
    hide Damaged, GivesBack, KeysSeparated;
    DamageRepairedIff(v, Tokens(v), [], y, x, x, d);
  }

  lemma BareKeyLayout(front: seq<Token>, key: string, back: seq<Token>, gap: Token)
    requires Linked(front + ([Comma] + ([Text(key)] + back)))
    requires IsKeyName(key) && back != [] && back[0].Colon? && gap.Space? && gap.Valid()
    ensures var d := front + ([gap] + ([Word(key)] + back));
            Lexable(d) && Strip(d) == front + ([Word(key)] + back)
  {
    LinkedSplit(front, [Comma] + ([Text(key)] + back));
    LinkedSplit([Comma], [Text(key)] + back);
    LinkedSplit([Text(key)], back);
    LinkedIsLexable(front);
    LinkedIsLexable(back);
    KeyIsWord(key);
    hide Linked, IsKeyName;
    var tail := [Word(key)] + back;
    LexableConcat([Word(key)], back);
    LexableConcat([gap], tail);
    LexableConcat(front, [gap] + tail);
    StripConcat(front, [gap] + tail);
    StripConcat([gap], tail);
    StripNoSpace(front);
    StripNoSpace(tail);
  }

  // `{"a":1 b:2}` for `{"a":1,"b":2}`
  lemma BareSecondKey()
    ensures var v := Obj([Field("a", ONE), Field("b", TWO)]);
            var front, back := [Open(true), Text("a"), Colon, Word("1")], [Colon, Word("2"), Close(true)];
            IsJson(v) && !GivesBack(v, Print(front + ([Space(' ')] + ([Word("b")] + back))))
  {
    var v := Obj([Field("a", ONE), Field("b", TWO)]);
    var front, back := [Open(true), Text("a"), Colon, Word("1")], [Colon, Word("2"), Close(true)];
    TwoFields(v, front, back);
    hide GivesBack, Print, Tokens, Damaged;
    BareKeyWithoutComma(v, front, "b", back, Space(' '));
  }

  lemma TwoFields(v: Json, front: seq<Token>, back: seq<Token>)
    requires v == Obj([Field("a", ONE), Field("b", TWO)])
    requires front == [Open(true), Text("a"), Colon, Word("1")] && back == [Colon, Word("2"), Close(true)]
    ensures IsJson(v) && Tokens(v) == front + ([Comma] + ([Text("b")] + back))
  {
    var b := Field("b", TWO);
    assert v.fields[1..] == [b] && [b][1..] == [];
    DigitTokens();
    assert AreFields([b]) && AreFields(v.fields);
    assert FieldTokens([b]) == [Text("b"), Colon] + [Word("2")];
    assert FieldTokens(v.fields) == [Text("a"), Colon] + [Word("1")] + [Comma] + FieldTokens([b]);
    assert Tokens(v) == [Open(true)] + FieldTokens(v.fields) + [Close(true)];
  }
}
