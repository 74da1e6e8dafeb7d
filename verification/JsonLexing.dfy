/** A text is the print of at most one sequence of tokens. */
module JsonLexing {
  import opened JsonText

  // How many characters come before the quote that closes a string literal read from `mode`.
  function BodyRun(s: string, mode: Mode): (n: nat)
    requires mode != Outside
    ensures n <= |s|
  {
    if s == [] || StringStep(mode, s[0]) == Outside then 0 else 1 + BodyRun(s[1..], StringStep(mode, s[0]))
  }

  function WordRun(s: string): (n: nat)
    ensures n <= |s|
  {
    if s == [] || !IsWordChar(s[0]) then 0 else 1 + WordRun(s[1..])
  }

  lemma {:induction false} BodyRunOnText(body: string, rest: string, mode: Mode)
    requires mode != Outside && IsBody(body, mode)
    ensures BodyRun(body + (['"'] + rest), mode) == |body|
  {
    var s := body + (['"'] + rest);
    if body == [] {
      assert s[0] == '"';
    } else {
      assert s[0] == body[0] && s[1..] == body[1..] + (['"'] + rest);
      BodyRunOnText(body[1..], rest, StringStep(mode, body[0]));
    }
  }

  lemma {:induction false} WordRunOnText(w: string, rest: string)
    requires (forall i :: 0 <= i < |w| ==> IsWordChar(w[i])) && (rest != [] ==> !IsWordChar(rest[0]))
    ensures WordRun(w + rest) == |w|
  {
    if w == [] {
      assert w + rest == rest;
    } else {
      assert (w + rest)[0] == w[0] && (w + rest)[1..] == w[1..] + rest;
      WordRunOnText(w[1..], rest);
    }
  }

  // The length of the first token, read off the text.
  function TokenRun(s: string): nat
    requires s != []
  {
    if s[0] == '"' then BodyRun(s[1..], Inside) + 2
    else if IsWordChar(s[0]) then WordRun(s)
    else 1
  }

  lemma FirstChar(t: Token, rest: string)
    requires t.Valid()
    ensures t.Print() != [] && (t.Print() + rest)[0] == t.Print()[0]
    ensures t.Word? <==> IsWordChar(t.Print()[0])
    ensures t.Text? <==> t.Print()[0] == '"'
  {
  }

  lemma AfterWord(toks: seq<Token>)
    requires Lexable(toks) && toks != [] && !toks[0].Word?
    ensures Print(toks) != [] && !IsWordChar(Print(toks)[0])
  {
    FirstChar(toks[0], Print(toks[1..]));
  }

  lemma TextRun(t: Token, rest: string)
    requires t.Text? && t.Valid()
    ensures TokenRun(t.Print() + rest) == |t.Print()|
  {
    assert (t.Print() + rest)[1..] == t.body + (['"'] + rest);
    BodyRunOnText(t.body, rest, Inside);
  }

  lemma FirstTokenRun(t: Token, rest: string)
    requires t.Valid() && (t.Word? && rest != [] ==> !IsWordChar(rest[0]))
    ensures t.Print() + rest != [] && TokenRun(t.Print() + rest) == |t.Print()|
  {
    FirstChar(t, rest);
    if t.Text? {
      TextRun(t, rest);
    } else if t.Word? {
      hide IsWordChar;
      WordRunOnText(t.name, rest);
    } else {
      hide IsWordChar, BodyRun, WordRun;
    }
  }

  lemma TokenRunOnText(toks: seq<Token>)
    requires Lexable(toks) && toks != []
    ensures Print(toks) != [] && TokenRun(Print(toks)) == |toks[0].Print()|
  {
    if toks[0].Word? && |toks| > 1 {
      AfterWord(toks[1..]);
    }
    hide IsWordChar, TokenRun;
    FirstTokenRun(toks[0], Print(toks[1..]));
  }

  // A token is told by its print.
  lemma TokenOfPrint(t: Token, u: Token)
    requires t.Valid() && u.Valid() && t.Print() == u.Print()
    ensures t == u
  {
    FirstChar(t, []);
    FirstChar(u, []);
    if t.Text? {
      assert t.body == t.Print()[1..|t.Print()| - 1] && u.body == u.Print()[1..|u.Print()| - 1];
    }
  }

  lemma {:induction false} PrintIsUnambiguous(a: seq<Token>, b: seq<Token>)
    requires Lexable(a) && Lexable(b) && Print(a) == Print(b)
    ensures a == b
  {
    if a != [] {
      TokenRunOnText(a);
    }
    if b != [] {
      TokenRunOnText(b);
    }
    if a != [] && b != [] {
      var n := |a[0].Print()|;
      assert n == |b[0].Print()|;
      assert a[0].Print() == Print(a)[..n] && Print(a[1..]) == Print(a)[n..];
      assert b[0].Print() == Print(b)[..n] && Print(b[1..]) == Print(b)[n..];
      TokenOfPrint(a[0], b[0]);
      PrintIsUnambiguous(a[1..], b[1..]);
      assert a == [a[0]] + a[1..] && b == [b[0]] + b[1..];
    }
  }
}
