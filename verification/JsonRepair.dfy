/** The four repair passes of crates/crytex-agents/src/json.rs: each as the loop of the source, proved
    against a function of the text and the scanner state. */
module JsonRepair {
  import opened Wrappers
  import opened Characters
  import opened JsonText

  function ModeOf(inString: bool, escaped: bool): Mode {
    if !inString then Outside else if escaped then Escaped else Inside
  }

  // The branch for a character inside a string, which the four passes have in common.
  method InString(ch: char, escaped: bool) returns (inString': bool, escaped': bool)
    ensures ModeOf(inString', escaped') == StringStep(ModeOf(true, escaped), ch) && (escaped' ==> inString')
  {
    inString', escaped' := true, escaped;
    if escaped {
      escaped' := false;
    } else if ch == '\\' {
      escaped' := true;
    } else if ch == '"' {
      inString' := false;
    }
  }

  // What has been written so far, followed by what the rest of the text becomes.
  ghost function Then(written: string, rest: string): string {
    written + rest
  }

  lemma ThenMore(written: string, piece: string, rest: string)
    ensures Then(written, piece + rest) == Then(written + piece, rest)
  {
  }

  // ----- remove_trailing_json_commas -----

  function NextIsClosing(s: string): bool {
    s != [] && (if IsWhitespace(s[0]) then NextIsClosing(s[1..]) else IsClosing(s[0]))
  }

  function WithoutTrailingCommas(s: string, mode: Mode): string {
    if s == [] then []
    else if mode == Outside && s[0] == ',' && NextIsClosing(s[1..]) then WithoutTrailingCommas(s[1..], Outside)
    else [s[0]] + WithoutTrailingCommas(s[1..], Step(mode, s[0]))
  }

  method NextNonWhitespaceIsClosing(chars: string, start: nat) returns (r: bool)
    requires start <= |chars|
    ensures r == NextIsClosing(chars[start..])
  {
    var i := start;
    while i < |chars| && IsWhitespace(chars[i])
      invariant start <= i <= |chars| && NextIsClosing(chars[start..]) == NextIsClosing(chars[i..])
    {
      i := i + 1;
    }
    r := i < |chars| && IsClosing(chars[i]);
  }

  lemma TrailingStep(s: string, i: nat, mode: Mode)
    requires i < |s|
    ensures WithoutTrailingCommas(s[i..], mode) ==
            if mode == Outside && s[i] == ',' && NextIsClosing(s[i + 1..]) then WithoutTrailingCommas(s[i + 1..], mode)
            else [s[i]] + WithoutTrailingCommas(s[i + 1..], Step(mode, s[i]))
  {
    assert s[i..][1..] == s[i + 1..];
  }

  method RemoveTrailingCommas(input: string) returns (output: string)
    ensures output == WithoutTrailingCommas(input, Outside)
  {
    StartOfText(input);
    hide WithoutTrailingCommas, NextIsClosing, Then;
    output := [];
    var inString, escaped, index := false, false, 0;
    while index < |input|
      invariant 0 <= index <= |input| && (escaped ==> inString)
      invariant WithoutTrailingCommas(input, Outside) ==
                Then(output, WithoutTrailingCommas(input[index..], ModeOf(inString, escaped)))
    {
      var ch := input[index];
      TrailingStep(input, index, ModeOf(inString, escaped));
      ThenMore(output, [ch], WithoutTrailingCommas(input[index + 1..], Step(ModeOf(inString, escaped), ch)));
      if inString {
        output := output + [ch];
        inString, escaped := InString(ch, escaped);
        index := index + 1;
        continue;
      }
      if ch == '"' {
        inString := true;
        output := output + [ch];
        index := index + 1;
        continue;
      }
      if ch == ',' {
        var closing := NextNonWhitespaceIsClosing(input, index + 1);
        if closing {
          index := index + 1;
          continue;
        }
      }
      output := output + [ch];
      index := index + 1;
    }
    EndOfText(input, output);
  }

  lemma StartOfText(s: string)
    ensures s[0..] == s && forall rest :: Then([], rest) == rest
  {
  }

  lemma EndOfText(s: string, written: string)
    ensures forall mode :: Then(written, WithoutTrailingCommas(s[|s|..], mode)) == written
    ensures forall mode :: Then(written, WithQuotedKeys(s[|s|..], mode)) == written
    ensures forall mode, previous :: Then(written, WithMissingCommas(s[|s|..], mode, previous)) == written
  {
  }

  // ----- quote_unquoted_json_object_keys -----

  function SpaceRun(s: string): (n: nat)
    ensures n <= |s|
  {
    if s != [] && IsWhitespace(s[0]) then 1 + SpaceRun(s[1..]) else 0
  }

  function KeyRun(s: string): (n: nat)
    ensures n <= |s|
  {
    if s != [] && IsKeyContinue(s[0]) then 1 + KeyRun(s[1..]) else 0
  }

  // The length of a bare key at the start of `s`, if there is one and a colon follows it.
  function BareKey(s: string): (n: nat)
    ensures n <= |s|
  {
    if s == [] || !IsKeyStart(s[0]) then 0
    else
      var n := 1 + KeyRun(s[1..]);
      var rest := s[n..];
      var gap := SpaceRun(rest);
      if gap < |rest| && rest[gap] == ':' then n else 0
  }

  function WithQuotedKeys(s: string, mode: Mode): string
    decreases |s|
  {
    if s == [] then []
    else
      var t := s[1..];
      var key := t[SpaceRun(t)..];
      var n := BareKey(key);
      if mode == Outside && (s[0] == '{' || s[0] == ',') && n > 0 then
        [s[0]] + Quoted(t[..SpaceRun(t)], key[..n]) + WithQuotedKeys(key[n..], Outside)
      else [s[0]] + WithQuotedKeys(t, Step(mode, s[0]))
  }

  function Quoted(whitespace: string, key: string): string {
    whitespace + ['"'] + key + ['"']
  }

  lemma RunSteps(s: string, i: nat)
    requires i < |s|
    ensures SpaceRun(s[i..]) == if IsWhitespace(s[i]) then 1 + SpaceRun(s[i + 1..]) else 0
    ensures KeyRun(s[i..]) == if IsKeyContinue(s[i]) then 1 + KeyRun(s[i + 1..]) else 0
  {
    assert s[i..][1..] == s[i + 1..];
  }

  lemma NoBareKeyAt(s: string, i: nat)
    requires i <= |s| && (i < |s| ==> !IsKeyStart(s[i]))
    ensures BareKey(s[i..]) == 0
  {
  }

  // The bare key that starts at `i`, if `n` characters can be one and the `gap` after them is measured.
  lemma BareKeyAt(s: string, i: nat, n: nat, gap: nat)
    requires i < |s| && IsKeyStart(s[i]) && n == 1 + KeyRun(s[i + 1..]) && i + n + gap <= |s| && gap == SpaceRun(s[i + n..])
    ensures BareKey(s[i..]) == if i + n + gap < |s| && s[i + n + gap] == ':' then n else 0
  {
    assert s[i..][1..] == s[i + 1..];
    assert s[i..][n..] == s[i + n..];
  }

  method SkipWhitespace(chars: string, from: nat) returns (to: nat)
    requires from <= |chars|
    ensures to == from + SpaceRun(chars[from..]) <= |chars|
    ensures to < |chars| ==> !IsWhitespace(chars[to])
  {
    to := from;
    while to < |chars| && IsWhitespace(chars[to])
      invariant from <= to <= |chars|
      invariant SpaceRun(chars[from..]) == to - from + SpaceRun(chars[to..])
    {
      RunSteps(chars, to);
      to := to + 1;
    }
  }

  method QuotedKeyAfterSeparator(chars: string, separator: nat) returns (r: Option<(string, nat)>)
    requires separator < |chars|
    ensures var start := separator + 1 + SpaceRun(chars[separator + 1..]);
            var n := BareKey(chars[start..]);
            r == if n == 0 then None else Some((Quoted(chars[separator + 1..start], chars[start..start + n]), start + n))
  {
    RunsEnd(chars);
    hide SpaceRun, KeyRun, BareKey, IsWhitespace, Quoted;
    var cursor := SkipWhitespace(chars, separator + 1);
    var whitespace := chars[separator + 1..cursor];
    if cursor >= |chars| || !IsKeyStart(chars[cursor]) {
      NoBareKeyAt(chars, cursor);
      return None;
    }
    var keyStart := cursor;
    cursor := cursor + 1;
    while cursor < |chars| && IsKeyContinue(chars[cursor])
      invariant keyStart < cursor <= |chars|
      invariant KeyRun(chars[keyStart + 1..]) == cursor - (keyStart + 1) + KeyRun(chars[cursor..])
    {
      RunSteps(chars, cursor);
      cursor := cursor + 1;
    }
    if cursor < |chars| {
      RunSteps(chars, cursor);
    }
    var key := chars[keyStart..cursor];
    var afterKey := SkipWhitespace(chars, cursor);
    BareKeyAt(chars, keyStart, cursor - keyStart, afterKey - cursor);
    if afterKey >= |chars| || chars[afterKey] != ':' {
      return None;
    }
    r := Some((Quoted(whitespace, key), cursor));
  }

  lemma RunsEnd(s: string)
    ensures SpaceRun(s[|s|..]) == 0 && KeyRun(s[|s|..]) == 0 && BareKey(s[|s|..]) == 0
  {
  }

  lemma QuotingUnfolds(s: string, mode: Mode)
    requires s != []
    ensures var t := s[1..];
            var key := t[SpaceRun(t)..];
            var n := BareKey(key);
            WithQuotedKeys(s, mode) ==
            if mode == Outside && (s[0] == '{' || s[0] == ',') && n > 0 then
              [s[0]] + Quoted(t[..SpaceRun(t)], key[..n]) + WithQuotedKeys(key[n..], Outside)
            else [s[0]] + WithQuotedKeys(t, Step(mode, s[0]))
  {
  }

  // One character, seen from the whole text.
  lemma QuotingStep(s: string, i: nat, mode: Mode)
    requires i < |s|
    ensures var start := i + 1 + SpaceRun(s[i + 1..]);
            var n := BareKey(s[start..]);
            WithQuotedKeys(s[i..], mode) ==
            if mode == Outside && (s[i] == '{' || s[i] == ',') && n > 0 then
              [s[i]] + Quoted(s[i + 1..start], s[start..start + n]) + WithQuotedKeys(s[start + n..], Outside)
            else [s[i]] + WithQuotedKeys(s[i + 1..], Step(mode, s[i]))
  {
    hide WithQuotedKeys, BareKey, SpaceRun, Quoted;
    QuotingUnfolds(s[i..], mode);
    var t := s[i + 1..];
    assert s[i..][1..] == t;
    var gap := SpaceRun(t);
    assert t[gap..] == s[i + 1 + gap..] && t[..gap] == s[i + 1..i + 1 + gap];
    var key := s[i + 1 + gap..];
    var n := BareKey(key);
    assert key[n..] == s[i + 1 + gap + n..] && key[..n] == s[i + 1 + gap..i + 1 + gap + n];
  }

  method QuoteUnquotedKeys(input: string) returns (output: string)
    ensures output == WithQuotedKeys(input, Outside)
  {
    StartOfText(input);
    hide WithQuotedKeys, BareKey, SpaceRun, Quoted, Then;
    output := [];
    var inString, escaped, index := false, false, 0;
    while index < |input|
      invariant 0 <= index <= |input| && (escaped ==> inString)
      invariant WithQuotedKeys(input, Outside) == Then(output, WithQuotedKeys(input[index..], ModeOf(inString, escaped)))
    {
      var ch := input[index];
      QuotingStep(input, index, ModeOf(inString, escaped));
      ThenMore(output, [ch], WithQuotedKeys(input[index + 1..], Step(ModeOf(inString, escaped), ch)));
      if inString {
        output := output + [ch];
        inString, escaped := InString(ch, escaped);
        index := index + 1;
        continue;
      }
      if ch == '"' {
        inString := true;
        output := output + [ch];
        index := index + 1;
        continue;
      }
      if ch == '{' || ch == ',' {
        var quoted := QuotedKeyAfterSeparator(input, index);
        if quoted.Some? {
          var (replacement, next) := quoted.value;
          ThenMore(output, [ch] + replacement, WithQuotedKeys(input[next..], Outside));
          output := output + ([ch] + replacement);
          index := quoted.value.1;
          continue;
        }
      }
      output := output + [ch];
      index := index + 1;
    }
    EndOfText(input, output);
  }

  // ----- insert_missing_json_commas_between_values -----

  predicate CanPrecedeMissingComma(c: char) {
    c == '"' || c == ']' || c == '}' || IsDigit(c) || c == 'e' || c == 'l'
  }

  // `previous` is the last significant character, a blank when there is none yet.
  function WithMissingCommas(s: string, mode: Mode, previous: char): string {
    if s == [] then []
    else
      CommaBefore(mode == Outside && s[0] == '"' && CanPrecedeMissingComma(previous),
                  [s[0]] + WithMissingCommas(s[1..], Step(mode, s[0]), Significant(mode, previous, s[0])))
  }

  function CommaBefore(missing: bool, s: string): string {
    if missing then [','] + s else s
  }

  const NOTHING := ' '

  function Significant(mode: Mode, previous: char, c: char): char {
    if mode != Outside then (if Step(mode, c) == Outside then '"' else previous)
    else if c == '"' || IsWhitespace(c) then previous
    else c
  }

  lemma MissingStep(s: string, i: nat, mode: Mode, previous: char)
    requires i < |s|
    ensures WithMissingCommas(s[i..], mode, previous) ==
            CommaBefore(mode == Outside && s[i] == '"' && CanPrecedeMissingComma(previous),
                        [s[i]] + WithMissingCommas(s[i + 1..], Step(mode, s[i]), Significant(mode, previous, s[i])))
  {
    assert s[i..][1..] == s[i + 1..];
  }

  method InsertMissingCommas(input: string) returns (output: string)
    ensures output == WithMissingCommas(input, Outside, NOTHING)
  {
    StartOfText(input);
    assert !CanPrecedeMissingComma(NOTHING);
    hide WithMissingCommas, Then, IsWhitespace, CanPrecedeMissingComma;
    output := [];
    var inString, escaped := false, false;
    var previousSignificant: Option<char> := None;
    for i := 0 to |input|
      invariant escaped ==> inString
      invariant WithMissingCommas(input, Outside, NOTHING) ==
                Then(output, WithMissingCommas(input[i..], ModeOf(inString, escaped),
                                               if previousSignificant.Some? then previousSignificant.value else NOTHING))
    {
      var ch := input[i];
      ghost var mode, previous := ModeOf(inString, escaped), if previousSignificant.Some? then previousSignificant.value else NOTHING;
      ghost var rest := WithMissingCommas(input[i + 1..], Step(mode, ch), Significant(mode, previous, ch));
      MissingStep(input, i, mode, previous);
      ThenMore(output, [ch], rest);
      if inString {
        output := output + [ch];
        inString, escaped := InString(ch, escaped);
        if !inString {
          previousSignificant := Some('"');
        }
        continue;
      }
      if ch == '"' {
        if previousSignificant.Some? && CanPrecedeMissingComma(previousSignificant.value) {
          ThenMore(output, [','], [ch] + rest);
          ThenMore(output + [','], [ch], rest);
          output := output + [','];
        }
        inString := true;
        output := output + [ch];
        continue;
      }
      output := output + [ch];
      if !IsWhitespace(ch) {
        previousSignificant := Some(ch);
      }
    }
    EndOfText(input, output);
  }

  // ----- close_unclosed_json_containers -----

  // What one character outside strings does to the stack of awaited closing characters.
  function StackStep(stack: string, c: char): string {
    if c == '{' then stack + ['}']
    else if c == '[' then stack + [']']
    else if IsClosing(c) && stack != [] && stack[|stack| - 1] == c then stack[..|stack| - 1]
    else stack
  }

  function StackAfter(s: string, mode: Mode, stack: string): string {
    if s == [] then stack
    else StackAfter(s[1..], Step(mode, s[0]), if mode == Outside then StackStep(stack, s[0]) else stack)
  }

  function Reversed(s: string): (r: string)
    ensures |r| == |s|
  {
    if s == [] then [] else Reversed(s[1..]) + [s[0]]
  }

  // What the pass appends.
  function Closers(s: string): string {
    (if ModeAfter(s, Outside) == Outside then [] else ['"']) + Reversed(StackAfter(s, Outside, []))
  }

  method CloseUnclosedContainers(input: string) returns (output: string)
    ensures output == input + Closers(input)
  {
    output := [];
    var stack: string := [];
    var inString, escaped := false, false;
    for i := 0 to |input|
      invariant output == input[..i] && (escaped ==> inString)
      invariant ModeAfter(input, Outside) == ModeAfter(input[i..], ModeOf(inString, escaped))
      invariant StackAfter(input, Outside, []) == StackAfter(input[i..], ModeOf(inString, escaped), stack)
    {
      var ch := input[i];
      assert input[i..][1..] == input[i + 1..];
      output := output + [ch];
      if inString {
        inString, escaped := InString(ch, escaped);
        continue;
      }
      if ch == '"' {
        inString := true;
      } else if ch == '{' {
        stack := stack + ['}'];
      } else if ch == '[' {
        stack := stack + [']'];
      } else if IsClosing(ch) && stack != [] && stack[|stack| - 1] == ch {
        stack := stack[..|stack| - 1];
      }
    }
    if inString {
      output := output + ['"'];
    }
    output := AppendReversed(output, stack);
  }

  // Appends the awaited closing characters, innermost first.
  method AppendReversed(output: string, stack: string) returns (r: string)
    ensures r == output + Reversed(stack)
  {
    r := output;
    for i := |stack| downto 0
      invariant r == output + Reversed(stack[i..])
    {
      r := r + [stack[i]];
      assert stack[i..][1..] == stack[i + 1..];
    }
    assert stack[0..] == stack;
  }
}
