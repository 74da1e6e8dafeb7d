/** JSON values (sections 3 to 7 of RFC 8259), their tokens, and what neighbouring tokens of a JSON text
    look like. */
module JsonValues {
  import opened Wrappers
  import opened Characters
  import opened JsonText
  import opened JsonTokenPasses

  datatype Exponent = NoExponent | Exponent(letter: char, sign: string, digits: string)

  datatype Json =
    | Null
    | Bool(on: bool)
    | Number(negative: bool, whole: string, fraction: string, exponent: Exponent)
    | Str(body: string)
    | Arr(items: seq<Json>)
    | Obj(fields: seq<Field>)

  datatype Field = Field(key: string, value: Json)

  predicate IsDigits(s: string) {
    forall i :: 0 <= i < |s| ==> IsDigit(s[i])
  }

  function PrintExponent(e: Exponent): string {
    match e
    case NoExponent => ""
    case Exponent(letter, sign, digits) => [letter] + sign + digits
  }

  function PrintNumber(v: Json): string
    requires v.Number?
  {
    (if v.negative then "-" else "") + v.whole + (if v.fraction == "" then "" else "." + v.fraction) + PrintExponent(v.exponent)
  }

  predicate IsJson(v: Json)
    decreases v
  {
    match v
    case Null => true
    case Bool(_) => true
    case Number(_, whole, fraction, exponent) =>
      whole != "" && IsDigits(whole) && IsDigits(fraction) &&
      (exponent.Exponent? ==> exponent.letter in "eE" && exponent.sign in ["", "+", "-"] &&
                              exponent.digits != "" && IsDigits(exponent.digits))
    case Str(body) => IsBody(body, Inside)
    case Arr(items) => AreJson(items)
    case Obj(fields) => AreFields(fields)
  }

  predicate AreJson(items: seq<Json>)
    decreases items
  {
    items == [] || (IsJson(items[0]) && AreJson(items[1..]))
  }

  predicate AreFields(fields: seq<Field>)
    decreases fields
  {
    fields == [] || (IsBody(fields[0].key, Inside) && IsJson(fields[0].value) && AreFields(fields[1..]))
  }

  function Tokens(v: Json): seq<Token>
    decreases v
  {
    match v
    case Null => [Word("null")]
    case Bool(on) => [Word(if on then "true" else "false")]
    case Number(_, _, _, _) => [Word(PrintNumber(v))]
    case Str(body) => [Text(body)]
    case Arr(items) => [Open(false)] + ItemTokens(items) + [Close(false)]
    case Obj(fields) => [Open(true)] + FieldTokens(fields) + [Close(true)]
  }

  function ItemTokens(items: seq<Json>): seq<Token>
    decreases items
  {
    if items == [] then []
    else if |items| == 1 then Tokens(items[0])
    else Tokens(items[0]) + [Comma] + ItemTokens(items[1..])
  }

  function FieldTokens(fields: seq<Field>): seq<Token>
    decreases fields
  {
    if fields == [] then []
    else
      var field := [Text(fields[0].key), Colon] + Tokens(fields[0].value);
      if |fields| == 1 then field else field + [Comma] + FieldTokens(fields[1..])
  }

  // `toks` is a layout of `v`: its tokens with any white space between them.
  ghost predicate Layout(toks: seq<Token>, v: Json) {
    Lexable(toks) && Strip(toks) == Tokens(v)
  }

  // ----- neighbours -----

  // What may follow what in a JSON text, white space aside.
  predicate Follows(a: Token, b: Token) {
    && (b.Close? ==> !a.Comma?)
    && (b.Colon? ==> a.Text?)
    && (b.Word? ==> !a.Word?)
    && (b.Text? ==> !EndsValue(a))
    && (b.Comma? ==> EndsValue(a))
  }

  predicate Linked(toks: seq<Token>) {
    toks == [] || (toks[0].Valid() && !toks[0].Space? && (|toks| > 1 ==> Follows(toks[0], toks[1])) && Linked(toks[1..]))
  }

  lemma {:induction false} LinkedConcat(a: seq<Token>, b: seq<Token>)
    requires Linked(a) && Linked(b)
    requires a != [] && b != [] ==> Follows(a[|a| - 1], b[0])
    ensures Linked(a + b)
  {
    if a == [] {
      assert a + b == b;
    } else {
      assert (a + b)[1..] == a[1..] + b;
      LinkedConcat(a[1..], b);
    }
  }

  lemma {:induction false} LinkedSplit(a: seq<Token>, b: seq<Token>)
    requires Linked(a + b)
    ensures Linked(a) && Linked(b)
    ensures a != [] && b != [] ==> Follows(a[|a| - 1], b[0])
  {
    if a == [] {
      assert a + b == b;
    } else {
      assert (a + b)[1..] == a[1..] + b;
      LinkedSplit(a[1..], b);
      if |a| == 1 && b != [] {
        assert (a + b)[1] == b[0];
      }
    }
  }

  predicate StartsValue(t: Token) {
    t.Open? || t.Text? || t.Word?
  }

  // The tokens of a value, or of an item or field list: linked, starting and ending as values do.
  ghost predicate ValueShaped(toks: seq<Token>) {
    toks != [] && Linked(toks) && StartsValue(toks[0]) && EndsValue(toks[|toks| - 1])
  }

  lemma NumberIsWord(v: Json)
    requires v.Number? && IsJson(v)
    ensures Word(PrintNumber(v)).Valid() && EndsValue(Word(PrintNumber(v)))
  {
    NumberChars(v);
    NumberEnd(v);
    hide PrintNumber, IsJson;
  }

  lemma NumberChars(v: Json)
    requires v.Number? && IsJson(v)
    ensures HasNumberChars(PrintNumber(v))
  {
    var minus, point := if v.negative then "-" else "", if v.fraction == "" then "" else "." + v.fraction;
    ExponentChars(v);
    assert HasNumberChars(minus) && HasNumberChars(v.whole) && HasNumberChars(point);
    hide HasNumberChars, PrintExponent, IsJson;
    NumberCharsConcat(minus, v.whole);
    NumberCharsConcat(minus + v.whole, point);
    NumberCharsConcat(minus + v.whole + point, PrintExponent(v.exponent));
  }

  lemma ExponentChars(v: Json)
    requires v.Number? && IsJson(v)
    ensures HasNumberChars(PrintExponent(v.exponent))
  {
    if v.exponent.Exponent? {
      var Exponent(letter, sign, digits) := v.exponent;
      assert HasNumberChars([letter]) && HasNumberChars(sign) && HasNumberChars(digits);
      NumberCharsConcat([letter], sign);
      NumberCharsConcat([letter] + sign, digits);
    }
  }

  lemma NumberEnd(v: Json)
    requires v.Number? && IsJson(v)
    ensures var s := PrintNumber(v);
            s != "" && IsDigit(s[|s| - 1])
  {
  }

  predicate HasNumberChars(s: string) {
    forall i :: 0 <= i < |s| ==> s[i] in "-+.eE" || IsDigit(s[i])
  }

  lemma NumberCharsConcat(a: string, b: string)
    requires HasNumberChars(a) && HasNumberChars(b)
    ensures HasNumberChars(a + b)
  {
  }

  lemma {:induction false} TokensShaped(v: Json)
    requires IsJson(v)
    ensures ValueShaped(Tokens(v))
    decreases v
  {
    match v
    case Arr(items) =>
      ItemTokensShaped(items);
      Bracketed(false, ItemTokens(items));
      hide ValueShaped;
    case Obj(fields) =>
      FieldTokensShaped(fields);
      Bracketed(true, FieldTokens(fields));
      hide ValueShaped;
    case _ => LeafTokensShaped(v);
  }

  lemma LeafTokensShaped(v: Json)
    requires IsJson(v) && !v.Arr? && !v.Obj?
    ensures ValueShaped(Tokens(v))
  {
    match v
    case Number(_, _, _, _) => NumberIsWord(v);
    case _ =>
  }

  lemma Bracketed(brace: bool, toks: seq<Token>)
    requires toks == [] || ValueShaped(toks)
    ensures ValueShaped([Open(brace)] + toks + [Close(brace)])
  {
    LinkedConcat([Open(brace)], toks);
    LinkedConcat([Open(brace)] + toks, [Close(brace)]);
  }

  lemma Separated(a: seq<Token>, b: seq<Token>)
    requires ValueShaped(a) && ValueShaped(b)
    ensures ValueShaped(a + [Comma] + b)
  {
    LinkedConcat(a, [Comma]);
    LinkedConcat(a + [Comma], b);
  }

  lemma {:induction false} ItemTokensShaped(items: seq<Json>)
    requires AreJson(items)
    ensures if items == [] then ItemTokens(items) == [] else ValueShaped(ItemTokens(items))
    decreases items
  {
    if items != [] {
      TokensShaped(items[0]);
      ItemTokensShaped(items[1..]);
      if |items| > 1 {
        Separated(Tokens(items[0]), ItemTokens(items[1..]));
      }
    }
  }

  lemma {:induction false} FieldTokensShaped(fields: seq<Field>)
    requires AreFields(fields)
    ensures if fields == [] then FieldTokens(fields) == [] else ValueShaped(FieldTokens(fields))
    decreases fields
  {
    if fields != [] {
      TokensShaped(fields[0].value);
      LinkedConcat([Text(fields[0].key), Colon], Tokens(fields[0].value));
      FieldTokensShaped(fields[1..]);
      if |fields| > 1 {
        Separated([Text(fields[0].key), Colon] + Tokens(fields[0].value), FieldTokens(fields[1..]));
      }
    }
  }

  // ----- nesting -----

  lemma {:induction false} NestConcat(a: seq<Token>, b: seq<Token>, awaited: seq<bool>)
    ensures Nest(a + b, awaited) ==
            if Nest(a, awaited).Some? then Nest(b, Nest(a, awaited).value) else None
  {
    if a == [] {
      assert a + b == b;
    } else {
      assert (a + b)[1..] == a[1..] + b;
      match a[0]
      case Open(brace) => NestConcat(a[1..], b, awaited + [brace]);
      case Close(brace) =>
        if awaited != [] && awaited[|awaited| - 1] == brace {
          NestConcat(a[1..], b, awaited[..|awaited| - 1]);
        }
      case _ => NestConcat(a[1..], b, awaited);
    }
  }

  lemma {:induction false} TokensNest(v: Json, awaited: seq<bool>)
    ensures Nest(Tokens(v), awaited) == Some(awaited)
    decreases v
  {
    match v
    case Arr(items) =>
      ItemTokensNest(items, awaited + [false]);
      BracketsNest(false, ItemTokens(items), awaited);
    case Obj(fields) =>
      FieldTokensNest(fields, awaited + [true]);
      BracketsNest(true, FieldTokens(fields), awaited);
    case _ =>
  }

  lemma BracketsNest(brace: bool, toks: seq<Token>, awaited: seq<bool>)
    requires Nest(toks, awaited + [brace]) == Some(awaited + [brace])
    ensures Nest([Open(brace)] + toks + [Close(brace)], awaited) == Some(awaited)
  {
    NestConcat([Open(brace)], toks, awaited);
    NestConcat([Open(brace)] + toks, [Close(brace)], awaited);
  }

  lemma {:induction false} ItemTokensNest(items: seq<Json>, awaited: seq<bool>)
    ensures Nest(ItemTokens(items), awaited) == Some(awaited)
    decreases items
  {
    if items != [] {
      TokensNest(items[0], awaited);
      ItemTokensNest(items[1..], awaited);
      NestConcat(Tokens(items[0]), [Comma], awaited);
      NestConcat(Tokens(items[0]) + [Comma], ItemTokens(items[1..]), awaited);
    }
  }

  lemma {:induction false} FieldTokensNest(fields: seq<Field>, awaited: seq<bool>)
    ensures Nest(FieldTokens(fields), awaited) == Some(awaited)
    decreases fields
  {
    if fields != [] {
      var key, value := [Text(fields[0].key), Colon], Tokens(fields[0].value);
      TokensNest(fields[0].value, awaited);
      FieldTokensNest(fields[1..], awaited);
      NestConcat(key, value, awaited);
      NestConcat(key + value, [Comma], awaited);
      NestConcat(key + value + [Comma], FieldTokens(fields[1..]), awaited);
    }
  }
}
