/** What the repair passes do to arbitrary text, JSON or not. */
module JsonAnyText {
  import opened Characters
  import opened JsonText
  import opened JsonRepair

  // ----- string literals -----

  lemma TrailingUnfolds(s: string, mode: Mode)
    requires s != []
    ensures WithoutTrailingCommas(s, mode) ==
            if mode == Outside && s[0] == ',' && NextIsClosing(s[1..]) then WithoutTrailingCommas(s[1..], Outside)
            else [s[0]] + WithoutTrailingCommas(s[1..], Step(mode, s[0]))
  {
  }

  lemma LiteralsCons(c: char, s: string, mode: Mode, open: string)
    ensures Literals([c] + s, mode, open) ==
            var next := Step(mode, c);
            if mode == Outside then Literals(s, next, [])
            else if next == Outside then [open] + Literals(s, next, [])
            else Literals(s, next, open + [c])
  {
    assert ([c] + s)[1..] == s;
  }

  // Removing trailing commas leaves every closed string literal as it was, in order, and adds none.
  lemma {:induction false} TrailingKeepsLiterals(s: string, mode: Mode, open: string)
    ensures Literals(WithoutTrailingCommas(s, mode), mode, open) == Literals(s, mode, open)
  {
    if s != [] {
      var c, rest, next := s[0], s[1..], Step(mode, s[0]);
      assert s == [c] + rest;
      TrailingUnfolds(s, mode);
      TrailingKeepsLiterals(rest, next, if mode == Outside || next == Outside then [] else open + [c]);
      TrailingKeepsLiterals(rest, next, open);
      LiteralsCons(c, rest, mode, open);
      LiteralsCons(c, WithoutTrailingCommas(rest, next), mode, open);
      hide WithoutTrailingCommas, Literals;
      if mode == Outside && c == ',' {
        LiteralsOutside(rest, open);
        LiteralsOutside(WithoutTrailingCommas(rest, Outside), open);
      }
    }
  }

  lemma LiteralsOutside(s: string, open: string)
    ensures Literals(s, Outside, open) == Literals(s, Outside, [])
  {
  }

  // So does inserting missing commas.
  lemma {:induction false} MissingKeepsLiterals(s: string, mode: Mode, previous: char, open: string)
    ensures Literals(WithMissingCommas(s, mode, previous), mode, open) == Literals(s, mode, open)
  {
    if s != [] {
      var c, rest, next := s[0], s[1..], Step(mode, s[0]);
      assert s == [c] + rest;
      var previous' := Significant(mode, previous, c);
      MissingKeepsLiterals(rest, next, previous', if mode == Outside || next == Outside then [] else open + [c]);
      var r := WithMissingCommas(rest, next, previous');
      assert WithMissingCommas(s, mode, previous) ==
             CommaBefore(mode == Outside && c == '"' && CanPrecedeMissingComma(previous), [c] + r);
      LiteralsCons(c, rest, mode, open);
      LiteralsCons(c, r, mode, open);
      LiteralsCons(',', [c] + r, mode, open);
      hide WithMissingCommas, Literals;
      if mode == Outside {
        LiteralsOutside([c] + r, open);
      }
    }
  }

  // Closing containers only appends, so the closed literals stay and one more may follow.
  lemma {:induction false} AppendingKeepsLiterals(s: string, t: string, mode: Mode, open: string)
    ensures Literals(s, mode, open) <= Literals(s + t, mode, open)
  {
    if s != [] {
      var next := Step(mode, s[0]);
      assert (s + t)[0] == s[0] && (s + t)[1..] == s[1..] + t;
      AppendingKeepsLiterals(s[1..], t, next, if mode == Outside || next == Outside then [] else open + [s[0]]);
    }
  }

  // ----- repeated removal of trailing commas -----

  // The next character that is not white space is a comma that the pass drops.
  function NextIsDropped(s: string): bool {
    s != [] && (if IsWhitespace(s[0]) then NextIsDropped(s[1..]) else s[0] == ',' && NextIsClosing(s[1..]))
  }

  // A comma outside strings is followed by one that the pass drops, as in `,,]`.
  predicate DoubledTrailing(s: string, mode: Mode) {
    s != [] && ((mode == Outside && s[0] == ',' && NextIsDropped(s[1..])) || DoubledTrailing(s[1..], Step(mode, s[0])))
  }

  lemma {:induction false} ClosingAfterRemoval(s: string)
    ensures NextIsClosing(WithoutTrailingCommas(s, Outside)) <==> NextIsClosing(s) || NextIsDropped(s)
  {
    if s != [] {
      var rest := s[1..];
      TrailingUnfolds(s, Outside);
      if IsWhitespace(s[0]) {
        ClosingAfterRemoval(rest);
        assert ([s[0]] + WithoutTrailingCommas(rest, Outside))[1..] == WithoutTrailingCommas(rest, Outside);
      } else if s[0] == ',' && NextIsClosing(rest) {
        ClosingAfterRemoval(rest);
      }
    }
  }

  lemma {:induction false} RemovalShortens(s: string, mode: Mode)
    ensures |WithoutTrailingCommas(s, mode)| <= |s|
  {
    if s != [] {
      RemovalShortens(s[1..], Step(mode, s[0]));
    }
  }

  // Applying the pass twice differs from applying it once exactly when trailing commas are doubled.
  lemma {:induction false} RemovalIdempotentIff(s: string, mode: Mode)
    ensures WithoutTrailingCommas(WithoutTrailingCommas(s, mode), mode) == WithoutTrailingCommas(s, mode) <==>
            !DoubledTrailing(s, mode)
  {
    if s != [] {
      var c, rest, next := s[0], s[1..], Step(mode, s[0]);
      var r := WithoutTrailingCommas(rest, next);
      TrailingUnfolds(s, mode);
      RemovalIdempotentIff(rest, next);
      ClosingAfterRemoval(rest);
      DroppedIsNotClosing(rest);
      RemovalShortens(r, next);
      assert ([c] + r)[0] == c && ([c] + r)[1..] == r;
      TrailingUnfolds([c] + r, mode);
      assert forall t: string :: [c] + t == [c] + r ==> ([c] + t)[1..] == t;
    }
  }

  // `,,]` becomes `,]`, and `,]` becomes `]`.
  lemma DoubledCommaStays()
    ensures WithoutTrailingCommas(",,]", Outside) == ",]" && WithoutTrailingCommas(",]", Outside) == "]"
  {
    var one, two := ",]", ",,]";
    assert one[1..] == "]" && two[1..] == one && "]"[1..] == "";
    assert WithoutTrailingCommas("]", Outside) == "]";
    assert NextIsClosing("]") && !NextIsClosing(one);
  }

  lemma {:induction false} DroppedIsNotClosing(s: string)
    ensures !(NextIsDropped(s) && NextIsClosing(s))
  {
    if s != [] && IsWhitespace(s[0]) {
      DroppedIsNotClosing(s[1..]);
    }
  }

  // ----- closing containers -----

  // The scan ends outside strings with nothing awaited.
  predicate Balanced(s: string) {
    ModeAfter(s, Outside) == Outside && StackAfter(s, Outside, []) == []
  }

  lemma {:induction false} ScanConcat(s: string, t: string, mode: Mode, stack: string)
    ensures ModeAfter(s + t, mode) == ModeAfter(t, ModeAfter(s, mode))
    ensures StackAfter(s + t, mode, stack) == StackAfter(t, ModeAfter(s, mode), StackAfter(s, mode, stack))
  {
    if s == [] {
      assert s + t == t;
    } else {
      assert (s + t)[0] == s[0] && (s + t)[1..] == s[1..] + t;
      ScanConcat(s[1..], t, Step(mode, s[0]), if mode == Outside then StackStep(stack, s[0]) else stack);
    }
  }

  predicate AllClosing(s: string) {
    forall i :: 0 <= i < |s| ==> IsClosing(s[i])
  }

  lemma {:induction false} StackIsClosing(s: string, mode: Mode, stack: string)
    requires AllClosing(stack)
    ensures AllClosing(StackAfter(s, mode, stack))
  {
    if s != [] {
      StackIsClosing(s[1..], Step(mode, s[0]), if mode == Outside then StackStep(stack, s[0]) else stack);
    }
  }

  lemma {:induction false} ReversedParts(s: string)
    ensures forall i :: 0 <= i < |s| ==> Reversed(s)[i] == s[|s| - 1 - i]
  {
    if s != [] {
      ReversedParts(s[1..]);
    }
  }

  // Outside strings, the awaited characters in reverse empty the stack.
  lemma {:induction false} ReversedPops(t: string, stack: string)
    requires AllClosing(stack) && |t| == |stack| && forall i :: 0 <= i < |t| ==> t[i] == stack[|stack| - 1 - i]
    ensures StackAfter(t, Outside, stack) == [] && ModeAfter(t, Outside) == Outside
  {
    if t != [] {
      ReversedPops(t[1..], stack[..|stack| - 1]);
    }
  }

  // Inside a string they change nothing.
  lemma {:induction false} ClosingInside(t: string, stack: string)
    requires AllClosing(t)
    ensures ModeAfter(t, Inside) == Inside && StackAfter(t, Inside, stack) == stack
  {
    if t != [] {
      ClosingInside(t[1..], stack);
    }
  }

  // The pass leaves every container and string closed, exactly when the text does not end on a pending
  // backslash escape.
  lemma ClosesIff(s: string)
    ensures Balanced(s + Closers(s)) <==> ModeAfter(s, Outside) != Escaped
  {
    var mode, stack := ModeAfter(s, Outside), StackAfter(s, Outside, []);
    var tail := Reversed(stack);
    StackIsClosing(s, Outside, []);
    ReversedParts(stack);
    ReversedPops(tail, stack);
    ScanConcat(s, Closers(s), Outside, []);
    if mode != Outside {
      ScanConcat(['"'], tail, mode, stack);
      assert Closers(s) == ['"'] + tail;
      assert ModeAfter(['"'], mode) == Step(mode, '"') by { assert ['"'][1..] == []; }
      assert StackAfter(['"'], mode, stack) == stack by { assert ['"'][1..] == []; }
      ClosingInside(tail, stack);
    } else {
      assert Closers(s) == tail;
    }
  }

  // A quote and a backslash: the quote that is appended is taken for an escaped one.
  lemma PendingEscapeStaysOpen()
    ensures Closers("\"\\") == "\"" && !Balanced("\"\\" + "\"")
  {
    var s, tail := "\"\\", "\\";
    assert s[0] == '"' && s[1..] == tail && tail[0] == '\\' && tail[1..] == "";
    assert Step(Outside, '"') == Inside && Step(Inside, '\\') == Escaped;
    assert ModeAfter("", Escaped) == Escaped && StackAfter("", Escaped, []) == [];
    assert ModeAfter(tail, Inside) == Escaped && StackAfter(tail, Inside, []) == [];
    assert ModeAfter(s, Outside) == Escaped;
    assert StackAfter(s, Outside, []) == StackAfter(tail, Inside, []);
    ClosesIff(s);
  }

  // How much is open: each container, and a string.
  function OpenCount(mode: Mode, stack: string): nat {
    |stack| + if mode == Outside then 0 else 1
  }

  lemma {:induction false} OneClosesOne(t: string, mode: Mode, stack: string)
    ensures OpenCount(ModeAfter(t, mode), StackAfter(t, mode, stack)) + |t| >= OpenCount(mode, stack)
  {
    if t != [] {
      OneClosesOne(t[1..], Step(mode, t[0]), if mode == Outside then StackStep(stack, t[0]) else stack);
    }
  }

  // No suffix that closes everything is shorter than what the pass appends.
  lemma ClosersShortest(s: string, t: string)
    requires Balanced(s + t)
    ensures |Closers(s)| <= |t|
  {
    ScanConcat(s, t, Outside, []);
    OneClosesOne(t, ModeAfter(s, Outside), StackAfter(s, Outside, []));
  }

  // A second application appends nothing, exactly when the text does not end on a pending escape.
  lemma ClosingIdempotentIff(s: string)
    ensures Closers(s + Closers(s)) == [] <==> ModeAfter(s, Outside) != Escaped
  {
    ClosesIff(s);
    var t := s + Closers(s);
    assert Closers(t) == [] <==> Balanced(t) by {
      assert |Closers(t)| == OpenCount(ModeAfter(t, Outside), StackAfter(t, Outside, []));
    }
  }

  // What one more character does to the appended text: a string it opens, or a container it opens, is closed first; outside
  // strings a closing character is struck off if it is the one awaited first and otherwise makes no difference; inside a
  // string only an unescaped quote, which ends it, does.
  lemma ClosersOneMore(s: string, c: char)
    ensures var mode, closers, after := ModeAfter(s, Outside), Closers(s), Closers(s + [c]);
            && (mode == Outside ==>
                  after == match c {
                    case '"' => "\"" + closers
                    case '{' => "}" + closers
                    case '[' => "]" + closers
                    case _ => if (c == '}' || c == ']') && closers != "" && closers[0] == c then closers[1..] else closers
                  })
            && (mode == Inside ==> closers != "" && closers[0] == '"' && after == if c == '"' then closers[1..] else closers)
            && (mode == Escaped ==> after == closers)
            && ModeAfter(s + [c], Outside) == match mode {
                 case Outside => if c == '"' then Inside else Outside
                 case Inside => if c == '"' then Outside else if c == '\\' then Escaped else Inside
                 case Escaped => Inside
               }
  {
    var mode, stack := ModeAfter(s, Outside), StackAfter(s, Outside, []);
    ScanConcat(s, [c], Outside, []);
    OneStep(c, mode, stack);
    StepReversed(stack, c);
    hide StackAfter, ModeAfter, Reversed, StackStep;
  }

  lemma StepReversed(stack: string, c: char)
    ensures var closers := Reversed(stack);
            Reversed(StackStep(stack, c)) == match c {
              case '{' => "}" + closers
              case '[' => "]" + closers
              case _ => if (c == '}' || c == ']') && closers != "" && closers[0] == c then closers[1..] else closers
            }
  {
    ReversedSnoc(stack, if c == '{' then '}' else ']');
    if stack != [] {
      ReversedSnoc(stack[..|stack| - 1], stack[|stack| - 1]);
      assert stack == stack[..|stack| - 1] + [stack[|stack| - 1]];
    }
    hide Reversed;
  }

  lemma OneStep(c: char, mode: Mode, stack: string)
    ensures ModeAfter([c], mode) == Step(mode, c)
    ensures StackAfter([c], mode, stack) == if mode == Outside then StackStep(stack, c) else stack
  {
    assert [c][1..] == "";
  }

  lemma {:induction false} ReversedSnoc(s: string, c: char)
    ensures Reversed(s + [c]) == [c] + Reversed(s)
  {
    if s != [] {
      ReversedSnoc(s[1..], c);
      assert (s + [c])[1..] == s[1..] + [c];
    } else {
      assert s + [c] == [c] && [c][1..] == "";
    }
  }

  // A bracket closed by the wrong character stays open.
  lemma MismatchStaysOpen()
    ensures Closers("[}") == "]" && !Balanced("[}")
  {
    assert Closers("") == "" && ModeAfter("", Outside) == Outside;
    ClosersOneMore("", '[');
    ClosersOneMore("[", '}');
    assert "" + ['['] == "[" && "[" + ['}'] == "[}";
    assert Closers("[") == "]";
    hide Closers;
    assert "[}" + "" == "[}";
    if Balanced("[}") {
      ClosersShortest("[}", "");
    }
  }
}
