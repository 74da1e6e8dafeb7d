/** Offloading of large artifacts and retrieval through textual markers: `ArtifactOffload::offload` of
    crates/crytex-compress/src/token_economy.rs and `parse_marker`, `retrieve` and `InMemoryCcrStore` of
    crates/crytex-compress/src/ccr.rs. */
module Offload {
  import opened Wrappers
  import opened Characters
  import opened Collections
  import opened Compression

  // ----- markers -----

  datatype ArtifactKind = Diff | Log | Report | ToolOutput

  function Label(kind: ArtifactKind): string {
    match kind
    case Diff => "diff"
    case Log => "log"
    case Report => "report"
    case ToolOutput => "tool-output"
  }

  function Decimal(n: nat): string {
    if n < 10 then [DigitOf(n)] else Decimal(n / 10) + [DigitOf(n % 10)]
  }

  function DigitOf(n: nat): char
    requires n < 10
  {
    "0123456789"[n]
  }

  predicate IsFactChar(c: char) {
    IsUpper(c) || IsDigit(c) || c == '_'
  }

  predicate IsFactWord(word: string) {
    '_' in word && forall i :: 0 <= i < |word| ==> IsFactChar(word[i])
  }

  // The length of the run of characters at the front of `s` that are, or are not, white space.
  function Run(s: string, space: bool): (n: nat)
    ensures n <= |s| && (forall i :: 0 <= i < n ==> IsWhitespace(s[i]) == space) && (n < |s| ==> IsWhitespace(s[n]) != space)
  {
    if s != [] && IsWhitespace(s[0]) == space then 1 + Run(s[1..], space) else 0
  }

  // The pieces between white space.
  function SplitWhitespace(s: string): (words: seq<string>)
    decreases |s|
  {
    var t := s[Run(s, true)..];
    if t == [] then [] else
      var n := Run(t, false);
      [t[..n]] + SplitWhitespace(t[n..])
  }

  function FactWords(words: seq<string>): (r: seq<string>)
    ensures forall w :: w in r ==> w in words && IsFactWord(w)
  {
    if words == [] then []
    else if IsFactWord(words[0]) then [words[0]] + FactWords(words[1..])
    else FactWords(words[1..])
  }

  // The facts a marker previews: at most the first eight.
  function PreviewFacts(content: string): seq<string> {
    var facts := FactWords(SplitWhitespace(content));
    if |facts| <= 8 then facts else facts[..8]
  }

  // The facts as a marker lists them.
  function Preview(content: string): string {
    if PreviewFacts(content) == [] then "none" else Join(PreviewFacts(content), ",")
  }

  // What a marker says before the key.
  function MarkerHead(kind: ArtifactKind, tokens: nat, content: string): string {
    "[" + Label(kind) + " compressed from " + Decimal(tokens) + " tokens; facts: " + Preview(content) + "; retrieve original: "
  }

  function Marker(kind: ArtifactKind, tokens: nat, content: string, key: string): string {
    MarkerHead(kind, tokens, content) + ("ccr:" + (key + "]"))
  }

  // ----- parse_marker -----

  // `str::find` of a pattern: its first position.
  function Find(text: string, part: string): (r: Option<nat>) {
    if OccursAt(text, part, 0) then Some(0)
    else if text == [] then None
    else
      match Find(text[1..], part)
      case None => None
      case Some(i) => Some(i + 1)
  }

  predicate EndsKey(c: char) {
    IsWhitespace(c) || c == ']'
  }

  function KeyAtFront(s: string): string {
    if s == [] || EndsKey(s[0]) then [] else [s[0]] + KeyAtFront(s[1..])
  }

  function ParseMarker(text: string): (r: Option<string>) {
    match Find(text, "ccr:")
    case None => None
    case Some(i) => if i + 4 <= |text| then Some(KeyAtFront(text[i + 4..])) else None
  }

  lemma {:induction false} FindFirst(text: string, part: string)
    ensures match Find(text, part)
            case Some(i) => OccursAt(text, part, i) && forall j: nat :: j < i ==> !OccursAt(text, part, j)
            case None => forall j: nat :: !OccursAt(text, part, j)
  {
    if !OccursAt(text, part, 0) && text != [] {
      FindFirst(text[1..], part);
      forall j: nat | j > 0
        ensures OccursAt(text, part, j) <==> OccursAt(text[1..], part, j - 1)
      {
        OccursShifted(text, part, j);
      }
    }
  }

  lemma OccursShifted(text: string, part: string, j: nat)
    requires text != [] && j > 0
    ensures OccursAt(text, part, j) <==> OccursAt(text[1..], part, j - 1)
  {
    if OccursAt(text, part, j) {
      forall k | 0 <= k < |part|
        ensures text[1..][j - 1 + k] == part[k]
      {
        assert text[j + k] == part[k];
      }
    }
    if OccursAt(text[1..], part, j - 1) {
      forall k | 0 <= k < |part|
        ensures text[j + k] == part[k]
      {
        assert text[1..][j - 1 + k] == part[k];
      }
    }
  }

  // ----- no marker head mentions a key -----

  predicate NoLowerC(s: string) {
    forall i :: 0 <= i < |s| ==> s[i] != 'c'
  }

  // No two `c` in a row, and none at the end.
  predicate NoDoubleC(s: string) {
    forall i :: 0 <= i < |s| && s[i] == 'c' ==> OtherFollows(s, i)
  }

  predicate OtherFollows(s: string, i: nat) {
    i + 1 < |s| && s[i + 1] != 'c'
  }

  lemma NoDoubleCConcat(a: string, b: string)
    requires NoDoubleC(a) && NoDoubleC(b)
    ensures NoDoubleC(a + b)
  {
    forall i | 0 <= i < |a + b| && (a + b)[i] == 'c'
      ensures OtherFollows(a + b, i)
    {
      if i < |a| {
        assert a[i] == 'c' && OtherFollows(a, i);
        assert (a + b)[i + 1] == a[i + 1];
      } else {
        var k := i - |a|;
        assert b[k] == 'c' && OtherFollows(b, k);
        assert (a + b)[i + 1] == b[k + 1];
      }
    }
  }

  lemma {:induction false} DecimalNoC(n: nat)
    ensures NoLowerC(Decimal(n))
  {
    if n >= 10 {
      DecimalNoC(n / 10);
    }
  }

  lemma {:induction false} JoinNoC(parts: seq<string>)
    requires forall i :: 0 <= i < |parts| ==> NoLowerC(parts[i])
    ensures NoLowerC(Join(parts, ","))
  {
    if |parts| > 1 {
      JoinNoC(parts[1..]);
    }
  }

  lemma PreviewNoC(content: string)
    ensures NoLowerC(Preview(content))
  {
    var all := FactWords(SplitWhitespace(content));
    var facts := PreviewFacts(content);
    hide Join, SplitWhitespace, FactWords, IsWhitespace;
    forall i | 0 <= i < |facts|
      ensures NoLowerC(facts[i])
    {
      assert facts[i] == all[i] && all[i] in all;
    }
    JoinNoC(facts);
  }

  lemma HeadWords(kind: ArtifactKind)
    ensures NoLowerC("[" + Label(kind)) && NoLowerC("; retrieve original: ")
    ensures NoDoubleC(" compressed from ") && NoDoubleC(" tokens; facts: ")
  {
  }

  lemma HeadNoDoubleC(kind: ArtifactKind, tokens: nat, content: string)
    ensures NoDoubleC(MarkerHead(kind, tokens, content))
  {
    HeadWords(kind);
    DecimalNoC(tokens);
    PreviewNoC(content);
    hide Label, Decimal, Preview;
    var a, b, c, d := "[" + Label(kind), " compressed from ", Decimal(tokens), " tokens; facts: ";
    NoDoubleCConcat(a, b);
    NoDoubleCConcat(a + b, c);
    NoDoubleCConcat(a + b + c, d);
    hide NoDoubleC, NoLowerC;
    HeadTail(a + b + c + d, Preview(content), "; retrieve original: ");
  }

  lemma HeadTail(a: string, b: string, c: string)
    requires NoDoubleC(a) && NoLowerC(b) && NoLowerC(c)
    ensures NoDoubleC(a + b + c)
  {
    NoDoubleCConcat(a, b);
    NoDoubleCConcat(a + b, c);
  }

  predicate IsKey(key: string) {
    forall i :: 0 <= i < |key| ==> !EndsKey(key[i])
  }

  lemma {:induction false} KeyEnds(key: string, rest: string)
    requires IsKey(key)
    ensures KeyAtFront(key + "]" + rest) == key
  {
    var s := key + "]" + rest;
    if key == "" {
      assert s[0] == ']';
    } else {
      assert s[0] == key[0] && s[1..] == key[1..] + "]" + rest;
      KeyEnds(key[1..], rest);
    }
  }

  lemma NoKeyInHead(head: string, rest: string, j: nat)
    requires NoDoubleC(head) && j < |head|
    ensures !OccursAt(head + ("ccr:" + rest), "ccr:", j)
  {
    var part, text := "ccr:", head + ("ccr:" + rest);
    if head[j] == 'c' {
      assert OtherFollows(head, j);
      assert text[j + 1] == head[j + 1] != part[1];
    } else {
      assert text[j + 0] == head[j] != part[0];
    }
  }

  lemma KeyAtHead(head: string, rest: string)
    ensures OccursAt(head + ("ccr:" + rest), "ccr:", |head|)
  {
    var part, text := "ccr:", head + ("ccr:" + rest);
    forall k | 0 <= k < 4
      ensures text[|head| + k] == part[k]
    {
      assert text[|head| + k] == (part + rest)[k];
    }
  }

  lemma RestAfterKey(head: string, rest: string)
    ensures |head| + 4 <= |head + ("ccr:" + rest)| && (head + ("ccr:" + rest))[|head| + 4..] == rest
  {
    var text := head + ("ccr:" + rest);
    assert |text| == |head| + 4 + |rest|;
    forall k | 0 <= k < |rest|
      ensures text[|head| + 4..][k] == rest[k]
    {
      assert text[|head| + 4 + k] == ("ccr:" + rest)[4 + k];
    }
  }

  lemma KeyAfterHead(head: string, rest: string)
    requires NoDoubleC(head)
    ensures Find(head + ("ccr:" + rest), "ccr:") == Some(|head|)
  {
    hide OccursAt, Find, NoDoubleC;
    var text := head + ("ccr:" + rest);
    FindFirst(text, "ccr:");
    KeyAtHead(head, rest);
    forall j: nat | j < |head|
      ensures !OccursAt(text, "ccr:", j)
    {
      NoKeyInHead(head, rest, j);
    }
  }

  // Parsing the marker of any artifact gives exactly its key, whatever the preview holds.
  lemma MarkerParses(kind: ArtifactKind, tokens: nat, content: string, key: string)
    requires IsKey(key)
    ensures ParseMarker(Marker(kind, tokens, content, key)) == Some(key)
  {
    var head := MarkerHead(kind, tokens, content);
    HeadNoDoubleC(kind, tokens, content);
    hide MarkerHead, Find, NoDoubleC;
    KeyAfterHead(head, key + "]");
    RestAfterKey(head, key + "]");
    assert key + "]" + "" == key + "]";
    KeyEnds(key, "");
  }

  // Every fact a marker previews occurs in it.
  lemma MarkerKeepsPreview(kind: ArtifactKind, tokens: nat, content: string, key: string, fact: string)
    requires fact in PreviewFacts(content)
    ensures Contains(Marker(kind, tokens, content, key), fact)
  {
    var facts := PreviewFacts(content);
    var k :| 0 <= k < |facts| && facts[k] == fact;
    ContainsItself(fact);
    JoinContains(facts, ",", k, fact);
    var a := "[" + Label(kind) + " compressed from " + Decimal(tokens) + " tokens; facts: ";
    ContainsConcat(a, Preview(content), fact);
    ContainsConcat(a + Preview(content), "; retrieve original: ", fact);
    ContainsConcat(MarkerHead(kind, tokens, content), "ccr:" + (key + "]"), fact);
  }

  // Any text that mentions `ccr:` has a key, which starts after the first mention and goes up to white space, a closing bracket
  // or the end.
  lemma ParsedKey(text: string)
    ensures ParseMarker(text).None? <==> forall j: nat :: !OccursAt(text, "ccr:", j)
    ensures ParseMarker(text).Some? ==>
      var key := ParseMarker(text).value;
      exists i: nat :: i + 4 + |key| <= |text| && OccursAt(text, "ccr:", i) && (forall j: nat :: j < i ==> !OccursAt(text, "ccr:", j))
        && text[i + 4..i + 4 + |key|] == key && (forall c :: c in key ==> !IsWhitespace(c) && c != ']')
        && (i + 4 + |key| < |text| ==> IsWhitespace(text[i + 4 + |key|]) || text[i + 4 + |key|] == ']')
  {
    FindFirst(text, "ccr:");
    if Find(text, "ccr:").Some? {
      var i := Find(text, "ccr:").value;
      assert i + 4 <= |text|;
      KeyIsRun(text[i + 4..]);
      var key := KeyAtFront(text[i + 4..]);
      assert text[i + 4..][..|key|] == text[i + 4..i + 4 + |key|];
    }
    hide OccursAt, IsWhitespace, KeyAtFront, Find;
  }

  lemma {:induction false} KeyIsRun(s: string)
    ensures var key := KeyAtFront(s);
      && |key| <= |s| && s[..|key|] == key && (forall c :: c in key ==> !EndsKey(c)) && (|key| < |s| ==> EndsKey(s[|key|]))
  {
    if s != [] && !EndsKey(s[0]) {
      KeyIsRun(s[1..]);
    }
  }

  // ----- what a marker says -----

  function NumberIn(s: string): nat {
    if s == "" then 0 else 10 * NumberIn(s[..|s| - 1]) + if IsDigit(s[|s| - 1]) then (s[|s| - 1] - '0') as nat else 0
  }

  // A printed number has only digits, no leading zero, and reads back as itself, so no two numbers print alike.
  lemma {:induction false} DecimalReadsBack(n: nat)
    ensures NumberIn(Decimal(n)) == n && Decimal(n) != "" && (n > 0 ==> Decimal(n)[0] != '0')
    ensures forall i :: 0 <= i < |Decimal(n)| ==> '0' <= Decimal(n)[i] <= '9'
  {
    if n < 10 {
      assert Decimal(n)[..0] == "";
      assert NumberIn(Decimal(n)[..0]) == 0;
    } else {
      DecimalReadsBack(n / 10);
      DigitAppended(Decimal(n / 10), n % 10);
    }
  }

  lemma DigitAppended(s: string, d: nat)
    requires d < 10
    ensures NumberIn(s + [DigitOf(d)]) == 10 * NumberIn(s) + d && '0' <= DigitOf(d) <= '9'
  {
    assert (s + [DigitOf(d)])[..|s|] == s;
  }

  // White space separates words, however much of it; what has none is one word.
  lemma SplitWord(word: string)
    requires word != "" && forall i :: 0 <= i < |word| ==> !IsWhitespace(word[i])
    ensures SplitWhitespace(word) == [word] && SplitWhitespace("") == []
  {
    assert Run(word, true) == 0 && word[0..] == word;
    assert Run(word, false) == |word| && word[..|word|] == word && word[|word|..] == "";
  }

  lemma RunConcat(a: string, b: string, space: bool)
    ensures Run(a, space) < |a| ==> Run(a + b, space) == Run(a, space)
    ensures Run(a, space) == |a| ==> Run(a + b, space) == |a| + Run(b, space)
  {
    var n := if Run(a, space) < |a| then Run(a, space) else |a| + Run(b, space);
    RunUnique(a + b, space, n);
  }

  lemma {:induction false} RunUnique(s: string, space: bool, n: nat)
    requires n <= |s| && (forall i :: 0 <= i < n ==> IsWhitespace(s[i]) == space) && (n < |s| ==> IsWhitespace(s[n]) != space)
    ensures Run(s, space) == n
  {
    if n > 0 {
      RunUnique(s[1..], space, n - 1);
    }
  }

  lemma FirstRuns(a: string, rest: string)
    requires Run(a, true) < |a| && rest != "" && IsWhitespace(rest[0])
    ensures Run(a + rest, true) == Run(a, true)
    ensures 0 < Run(a[Run(a, true)..], false) == Run(a[Run(a, true)..] + rest, false)
  {
    RunConcat(a, rest, true);
    RunConcat(a[Run(a, true)..], rest, false);
  }

  lemma WordThenRest(s: string, m: nat, n: nat)
    requires m == Run(s, true) < |s| && n == Run(s[m..], false)
    ensures SplitWhitespace(s) == [s[m..][..n]] + SplitWhitespace(s[m..][n..])
  {
  }

  // The first word of a text is not changed by what comes after white space.
  lemma FirstWord(a: string, rest: string)
    requires Run(a, true) < |a| && rest != "" && IsWhitespace(rest[0])
    ensures var t := a[Run(a, true)..];
            var n := Run(t, false);
            && 0 < n && SplitWhitespace(a) == [t[..n]] + SplitWhitespace(t[n..])
            && SplitWhitespace(a + rest) == [t[..n]] + SplitWhitespace(t[n..] + rest)
  {
    FirstRuns(a, rest);
    hide Run, IsWhitespace, SplitWhitespace;
    var m := Run(a, true);
    var t := a[m..];
    var n := Run(t, false);
    Slices(a, rest, m);
    Slices(t, rest, n);
    WordThenRest(a, m, n);
    WordThenRest(a + rest, m, n);
  }

  lemma Slices(a: string, b: string, n: nat)
    requires n <= |a|
    ensures (a + b)[..n] == a[..n] && (a + b)[n..] == a[n..] + b
  {
  }

  // What comes after white space is split by itself.
  lemma {:induction false} SplitAtSpace(a: string, rest: string)
    requires rest != "" && IsWhitespace(rest[0])
    ensures SplitWhitespace(a + rest) == SplitWhitespace(a) + SplitWhitespace(rest)
    decreases |a|
  {
    hide SplitWhitespace;
    if Run(a, true) == |a| {
      SkipSpace(a, rest);
      NothingToSplit(a);
    } else {
      FirstWord(a, rest);
      hide Run, IsWhitespace;
      var t := a[Run(a, true)..];
      var word, after := t[..Run(t, false)], t[Run(t, false)..];
      SplitAtSpace(after, rest);
      Regroup([word], SplitWhitespace(after), SplitWhitespace(rest));
    }
  }

  lemma NothingToSplit(a: string)
    requires Run(a, true) == |a|
    ensures SplitWhitespace(a) == []
  {
  }

  // White space at the front makes no difference.
  lemma SkipSpace(front: string, b: string)
    requires forall i :: 0 <= i < |front| ==> IsWhitespace(front[i])
    ensures SplitWhitespace(front + b) == SplitWhitespace(b)
  {
    assert Run(front, true) == |front| by { RunUnique(front, true, |front|); }
    RunConcat(front, b, true);
    assert (front + b)[|front| + Run(b, true)..] == b[Run(b, true)..];
  }

  // A word is a fact for itself, in order,
  lemma {:induction false} FactWordsAdd(a: seq<string>, b: seq<string>)
    ensures FactWords(a + b) == FactWords(a) + FactWords(b)
  {
    if a == [] {
      assert a + b == b;
    } else {
      assert (a + b)[1..] == a[1..] + b;
      FactWordsAdd(a[1..], b);
      hide IsFactWord;
    }
  }

  // if it consists of upper-case letters, digits and underscores and has one of the last,
  lemma FactWordIff(word: string)
    ensures FactWords([]) == [] && FactWords([word]) ==
      if '_' in word && forall c :: c in word ==> 'A' <= c <= 'Z' || '0' <= c <= '9' || c == '_' then [word] else []
  {
    assert [word][1..] == [] && FactWords([word][1..]) == [];
    assert forall i :: 0 <= i < |word| ==> word[i] in word;
  }

  // and the first eight facts are previewed.
  lemma PreviewIsFirstEight(content: string)
    ensures PreviewFacts(content) <= FactWords(SplitWhitespace(content))
    ensures |PreviewFacts(content)| <= 8
    ensures |PreviewFacts(content)| < 8 ==> PreviewFacts(content) == FactWords(SplitWhitespace(content))
  {
  }
}
