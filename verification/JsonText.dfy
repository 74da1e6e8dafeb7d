/** Characters, string literals and tokens of JSON-like text, as the repair passes of
    crates/crytex-agents/src/json.rs see them. */
module JsonText {
  import opened Characters

  predicate IsKeyStart(c: char) {
    c == '_' || IsLetter(c)
  }

  predicate IsKeyContinue(c: char) {
    c == '_' || c == '-' || IsLetter(c) || IsDigit(c)
  }

  predicate IsClosing(c: char) {
    c == '}' || c == ']'
  }

  // ----- the scanner state the four passes share -----

  // `in_string` and `escaped`
  datatype Mode = Outside | Inside | Escaped

  // What one character does inside a string.
  function StringStep(mode: Mode, c: char): Mode
    requires mode != Outside
  {
    if mode == Escaped then Inside
    else if c == '\\' then Escaped
    else if c == '"' then Outside
    else Inside
  }

  function Step(mode: Mode, c: char): Mode {
    if mode != Outside then StringStep(mode, c) else if c == '"' then Inside else Outside
  }

  function ModeAfter(s: string, mode: Mode): Mode {
    if s == [] then mode else ModeAfter(s[1..], Step(mode, s[0]))
  }

  // The contents of the string literals that are closed in `s`, in order; `open` is what has been read of
  // the literal that `s` starts inside of.
  function Literals(s: string, mode: Mode, open: string): seq<string> {
    if s == [] then []
    else
      var next := Step(mode, s[0]);
      if mode == Outside then Literals(s[1..], next, [])
      else if next == Outside then [open] + Literals(s[1..], next, [])
      else Literals(s[1..], next, open + [s[0]])
  }

  // ----- tokens -----

  datatype Token =
    | Open(brace: bool)   // `{` or `[`
    | Close(brace: bool)  // `}` or `]`
    | Comma
    | Colon
    | Text(body: string)  // a closed string literal
    | Word(name: string)  // a maximal run of other characters
    | Space(c: char)      // one white space character
  {
    function Print(): string {
      match this
      case Open(brace) => if brace then "{" else "["
      case Close(brace) => if brace then "}" else "]"
      case Comma => ","
      case Colon => ":"
      case Text(body) => ['"'] + body + ['"']
      case Word(name) => name
      case Space(c) => [c]
    }

    predicate Valid() {
      match this
      case Text(body) => IsBody(body, Inside)
      case Word(name) => name != [] && forall i :: 0 <= i < |name| ==> IsWordChar(name[i])
      case Space(c) => IsWhitespace(c)
      case _ => true
    }
  }

  predicate IsWordChar(c: char) {
    !IsWhitespace(c) && c !in "\"{}[],:"
  }

  // Reading `body` from `mode` never leaves the string and ends unescaped.
  predicate IsBody(body: string, mode: Mode)
    requires mode != Outside
  {
    if body == [] then mode == Inside
    else var next := StringStep(mode, body[0]); next != Outside && IsBody(body[1..], next)
  }

  // Neighbouring tokens stay apart: two words in a row would read as one.
  predicate Lexable(toks: seq<Token>) {
    toks == [] ||
    (toks[0].Valid() && (|toks| > 1 && toks[0].Word? ==> !toks[1].Word?) && Lexable(toks[1..]))
  }

  function Print(toks: seq<Token>): string {
    if toks == [] then [] else toks[0].Print() + Print(toks[1..])
  }

  // The tokens that are not white space: what a layout is a layout of.
  function Strip(toks: seq<Token>): seq<Token> {
    if toks == [] then []
    else if toks[0].Space? then Strip(toks[1..])
    else [toks[0]] + Strip(toks[1..])
  }

  // The next token that is not white space.
  function Ahead(toks: seq<Token>): seq<Token> {
    if toks == [] then [] else if toks[0].Space? then Ahead(toks[1..]) else [toks[0]]
  }

  lemma {:induction false} AheadIsStripped(toks: seq<Token>)
    ensures Ahead(toks) == Strip(toks)[..if Strip(toks) == [] then 0 else 1]
  {
    if toks != [] && toks[0].Space? {
      AheadIsStripped(toks[1..]);
    }
  }

  lemma {:induction false} PrintConcat(a: seq<Token>, b: seq<Token>)
    ensures Print(a + b) == Print(a) + Print(b)
  {
    if a == [] {
      assert a + b == b;
    } else {
      assert (a + b)[1..] == a[1..] + b;
      PrintConcat(a[1..], b);
    }
  }

  lemma {:induction false} StripConcat(a: seq<Token>, b: seq<Token>)
    ensures Strip(a + b) == Strip(a) + Strip(b)
  {
    if a == [] {
      assert a + b == b;
    } else {
      assert (a + b)[1..] == a[1..] + b;
      StripConcat(a[1..], b);
      assert [a[0]] + (Strip(a[1..]) + Strip(b)) == [a[0]] + Strip(a[1..]) + Strip(b);
    }
  }

  // A stripped sequence has no white space left, and stripping such a sequence changes nothing.
  lemma {:induction false} StripLeavesNoSpace(toks: seq<Token>)
    ensures NoSpace(Strip(toks))
  {
    if toks != [] {
      StripLeavesNoSpace(toks[1..]);
    }
  }

  ghost predicate NoSpace(toks: seq<Token>) {
    forall i :: 0 <= i < |toks| ==> !toks[i].Space?
  }

  lemma {:induction false} StripNoSpace(toks: seq<Token>)
    requires NoSpace(toks)
    ensures Strip(toks) == toks
  {
    if toks != [] {
      StripNoSpace(toks[1..]);
    }
  }
}
