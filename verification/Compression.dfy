/** Token estimation and fact-preserving compression: crates/crytex-compress/src/token.rs and
    `compress_preserving_markers` of crates/crytex-compress/src/token_economy.rs. */
module Compression {
  import opened Wrappers
  import opened Numbers

  // `TokenEstimator::estimate_text`; None is a failed estimate.
  type Estimator = string -> Option<nat>

  // The number of bytes of a character, and of a text, in UTF-8.
  function CharLen(c: char): nat {
    if c < '\U{80}' then 1 else if c < '\U{800}' then 2 else if c < '\U{10000}' then 3 else 4
  }

  function ByteLen(s: string): nat {
    if s == [] then 0 else CharLen(s[0]) + ByteLen(s[1..])
  }

  // `part` occurs somewhere in `text`.
  predicate Contains(text: string, part: string) {
    exists i :: 0 <= i <= |text| - |part| && OccursAt(text, part, i)
  }

  predicate OccursAt(text: string, part: string, i: nat) {
    i + |part| <= |text| && forall k :: 0 <= k < |part| ==> text[i + k] == part[k]
  }

  function Join(parts: seq<string>, separator: string): string {
    if parts == [] then ""
    else if |parts| == 1 then parts[0]
    else parts[0] + separator + Join(parts[1..], separator)
  }

  function Occurring(text: string, facts: seq<string>): (r: seq<string>)
    ensures forall f :: f in r <==> f in facts && Contains(text, f)
  {
    if facts == [] then []
    else (if Contains(text, facts[0]) then [facts[0]] else []) + Occurring(text, facts[1..])
  }

  function Compress(text: string, facts: seq<string>, budget: nat): string {
    var selected := Join(Occurring(text, facts), "\n");
    var headroom := SaturatingSub(Min(4 * budget, USIZE_MAX), ByteLen(selected));
    var prefix := text[..Min(headroom, |text|)];
    if selected == "" then prefix
    else if prefix != "" then selected + "\n" + prefix
    else selected
  }

  lemma ContainsConcat(a: string, b: string, part: string)
    requires Contains(a, part) || Contains(b, part)
    ensures Contains(a + b, part)
  {
    if i :| 0 <= i <= |a| - |part| && OccursAt(a, part, i) {
      assert OccursAt(a + b, part, i);
    } else {
      var j :| 0 <= j <= |b| - |part| && OccursAt(b, part, j);
      forall k | 0 <= k < |part|
        ensures (a + b)[|a| + j + k] == part[k]
      {
        assert b[j + k] == part[k];
      }
      assert OccursAt(a + b, part, |a| + j);
    }
  }

  lemma ContainsItself(a: string)
    ensures Contains(a, a)
  {
    assert OccursAt(a, a, 0);
  }

  // What one of the joined parts contains, the joined text contains.
  lemma {:induction false} JoinContains(parts: seq<string>, separator: string, k: nat, part: string)
    requires k < |parts| && Contains(parts[k], part)
    ensures Contains(Join(parts, separator), part)
  {
    if |parts| > 1 {
      if k == 0 {
        ContainsConcat(parts[0], separator, part);
      } else {
        JoinContains(parts[1..], separator, k - 1, part);
      }
      ContainsConcat(parts[0] + separator, Join(parts[1..], separator), part);
    }
  }

  // Compression keeps every required fact of the text, whatever the budget.
  lemma CompressKeepsFacts(text: string, facts: seq<string>, budget: nat, fact: string)
    requires fact in facts && Contains(text, fact)
    ensures Contains(Compress(text, facts, budget), fact)
  {
    var required := Occurring(text, facts);
    var selected := Join(required, "\n");
    var k :| 0 <= k < |required| && required[k] == fact;
    ContainsItself(fact);
    JoinContains(required, "\n", k, fact);
    var prefix := Compress(text, facts, budget);
    if selected == "" {
      assert fact == "";
      assert OccursAt(prefix, "", 0);
    } else {
      var tail := text[..Min(SaturatingSub(Min(4 * budget, USIZE_MAX), ByteLen(selected)), |text|)];
      ContainsConcat(selected, "\n", fact);
      ContainsConcat(selected + "\n", tail, fact);
    }
  }

  // ----- what the compressed text is -----

  lemma ContainsIff(text: string, part: string)
    ensures Contains(text, part) <==> exists before, after :: text == before + part + after
  {
    if i :| 0 <= i <= |text| - |part| && OccursAt(text, part, i) {
      assert text == text[..i] + part + text[i + |part|..];
    }
    if before, after :| text == before + part + after {
      assert OccursAt(text, part, |before|);
    }
  }

  // The facts that occur in a text: each fact for itself, in order.
  lemma {:induction false} OccurringAdds(text: string, a: seq<string>, b: seq<string>)
    ensures Occurring(text, a + b) == Occurring(text, a) + Occurring(text, b)
  {
    if a == [] {
      assert a + b == b;
    } else {
      assert (a + b)[1..] == a[1..] + b;
      OccurringAdds(text, a[1..], b);
    }
  }

  lemma OccurringOne(text: string, fact: string)
    ensures Occurring(text, []) == []
    ensures Occurring(text, [fact]) == if Contains(text, fact) then [fact] else []
  {
    assert [fact][1..] == [];
    hide Contains;
  }

  lemma {:induction false} JoinAdds(a: seq<string>, b: seq<string>, separator: string)
    requires a != [] && b != []
    ensures Join(a + b, separator) == Join(a, separator) + (separator + Join(b, separator))
  {
    assert (a + b)[1..] == a[1..] + b;
    if |a| > 1 {
      JoinAdds(a[1..], b, separator);
      JoinFirst(a, separator);
      JoinFirst(a + b, separator);
      hide Join;
    } else {
      assert a[1..] + b == b;
    }
  }

  lemma JoinFirst(parts: seq<string>, separator: string)
    ensures |parts| > 1 ==> Join(parts, separator) == parts[0] + (separator + Join(parts[1..], separator))
    ensures |parts| == 1 ==> Join(parts, separator) == parts[0]
  {
  }

  lemma {:induction false} ByteLenAdds(a: string, b: string)
    ensures ByteLen(a + b) == ByteLen(a) + ByteLen(b)
  {
    if a == [] {
      assert a + b == b;
    } else {
      assert (a + b)[1..] == a[1..] + b;
      ByteLenAdds(a[1..], b);
    }
  }

  lemma {:induction false} AsciiBytes(s: string)
    requires forall i :: 0 <= i < |s| ==> s[i] < '\U{80}'
    ensures ByteLen(s) == |s|
  {
    if s != [] {
      AsciiBytes(s[1..]);
    }
  }

  // `r` is the facts of the text, one to a line, and then, on a line of its own, as long a front part of the text as the
  // bytes left by the facts allow, one byte being reckoned for a character.
  ghost predicate IsCut(text: string, facts: seq<string>, limit: nat, r: string) {
    var kept := Join(Occurring(text, facts), "\n");
    exists n :: LongestFit(n, |text|, ByteLen(kept), limit) &&
      r == if kept == "" then text[..n] else if n == 0 then kept else kept + "\n" + text[..n]
  }

  predicate LongestFit(n: int, all: nat, used: nat, limit: nat) {
    && 0 <= n <= all
    && (n > 0 ==> used + n <= limit)
    && (n < all ==> used + n >= limit)
  }

  lemma CompressIsCut(text: string, facts: seq<string>, budget: nat)
    ensures IsCut(text, facts, Min(4 * budget, USIZE_MAX), Compress(text, facts, budget))
  {
    var limit := Min(4 * budget, USIZE_MAX);
    var kept := Join(Occurring(text, facts), "\n");
    assert LongestFit(Min(SaturatingSub(limit, ByteLen(kept)), |text|), |text|, ByteLen(kept), limit);
  }

  lemma CutIsUnique(text: string, facts: seq<string>, limit: nat, r: string, r': string)
    requires IsCut(text, facts, limit, r) && IsCut(text, facts, limit, r')
    ensures r == r'
  {
  }

  // With no fact in the text, the cut is the front of the text, of `limit` characters if it has that many.
  lemma CutWithoutFacts(text: string, facts: seq<string>, limit: nat, r: string)
    requires IsCut(text, facts, limit, r) && forall f :: f in facts ==> !Contains(text, f)
    ensures |text| <= limit ==> r == text
    ensures |text| > limit ==> r == text[..limit]
  {
    assert Occurring(text, facts) == [] by {
      if Occurring(text, facts) != [] {
        assert Occurring(text, facts)[0] in Occurring(text, facts);
      }
    }
    hide Contains, OccursAt;
  }
}
