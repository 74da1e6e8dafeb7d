/** Adaptive sizing by information saturation: crates/crytex-compress/src/sizing.rs. Items are given as their words, and
    ratios are exact. */
module Sizing {
  import opened Wrappers
  import opened Collections
  import opened Numbers
  import opened Dedup

  type Words = seq<string>

  type Bigram = (string, string)

  // --- the curve ---

  function Bigrams(words: Words): set<Bigram> {
    if words == [] then {("", "")}
    else if |words| == 1 then {(words[0], "")}
    else set i | 0 <= i < |words| - 1 :: Pair(words, i)
  }

  function Pair(words: Words, i: nat): Bigram
    requires i + 1 < |words|
  {
    (words[i], words[i + 1])
  }

  // Two words are a bigram of an item if one follows the other in it; a single word is paired with nothing, and so is the
  // empty word of an item without words.
  lemma IsBigramIff(words: Words, first: string, second: string)
    ensures (first, second) in Bigrams(words) <==>
      if |words| >= 2 then exists i :: 0 <= i < |words| - 1 && words[i] == first && words[i + 1] == second
      else second == "" && first == (if |words| == 1 then words[0] else "")
  {
    if i :| 0 <= i < |words| - 1 && words[i] == first && words[i + 1] == second {
      assert Pair(words, i) == (first, second);
    }
  }

  function AllBigrams(items: seq<Words>): set<Bigram> {
    set i, b | 0 <= i < |items| && b in Bigrams(items[i]) :: b
  }

  // The number of different bigrams of the first n items.
  function Distinct(items: seq<Words>, n: nat): nat
    requires n <= |items|
  {
    |AllBigrams(items[..n])|
  }

  ghost predicate IsCurve(items: seq<Words>, curve: seq<nat>) {
    |curve| == |items| && forall i :: 0 <= i < |items| ==> curve[i] == Distinct(items, i + 1)
  }

  method ComputeUniqueBigramCurve(items: seq<Words>) returns (curve: seq<nat>)
    ensures IsCurve(items, curve)
  {
    var seen: set<Bigram> := {};
    curve := [];
    for i := 0 to |items|
      invariant |curve| == i && seen == AllBigrams(items[..i])
      invariant forall k :: 0 <= k < i ==> curve[k] == Distinct(items, k + 1)
    {
      AllBigramsNext(items, i);
      seen := InsertBigrams(seen, items[i]);
      assert |seen| == Distinct(items, i + 1);
      hide AllBigrams, Bigrams, Distinct;
      curve := curve + [|seen|];
    }
  }

  method InsertBigrams(before: set<Bigram>, words: Words) returns (seen: set<Bigram>)
    ensures seen == before + Bigrams(words)
  {
    seen := before;
    if |words| < 2 {
      seen := seen + {(if words == [] then "" else words[0], "")};
    } else {
      for w := 0 to |words| - 1
        invariant seen == before + set k | 0 <= k < w :: Pair(words, k)
      {
        seen := seen + {Pair(words, w)};
      }
    }
  }

  lemma AllBigramsNext(items: seq<Words>, i: nat)
    requires i < |items|
    ensures AllBigrams(items[..i + 1]) == AllBigrams(items[..i]) + Bigrams(items[i])
  {
    var shorter, longer := items[..i], items[..i + 1];
    forall b | b in AllBigrams(shorter) + Bigrams(items[i])
      ensures b in AllBigrams(longer)
    {
      if b in Bigrams(items[i]) {
        assert b in Bigrams(longer[i]);
      } else {
        var k :| 0 <= k < i && b in Bigrams(shorter[k]);
        assert b in Bigrams(longer[k]);
      }
    }
    forall b | b in AllBigrams(longer)
      ensures b in AllBigrams(shorter) + Bigrams(items[i])
    {
      var k :| 0 <= k < |longer| && b in Bigrams(longer[k]);
      assert k < i ==> b in Bigrams(shorter[k]);
    }
  }

  predicate NonDecreasing(curve: seq<nat>) {
    forall i, j :: 0 <= i < j < |curve| ==> curve[i] <= curve[j]
  }

  lemma {:induction false} AllBigramsGrow(items: seq<Words>, i: nat, j: nat)
    requires i <= j <= |items|
    ensures AllBigrams(items[..i]) <= AllBigrams(items[..j])
    ensures |AllBigrams(items[..i])| <= |AllBigrams(items[..j])|
    ensures |AllBigrams(items[..i])| == |AllBigrams(items[..j])| ==> AllBigrams(items[..i]) == AllBigrams(items[..j])
    decreases j
  {
    if i < j {
      AllBigramsGrow(items, i, j - 1);
      AllBigramsNext(items, j - 1);
      SubsetSize(AllBigrams(items[..i]), AllBigrams(items[..j]));
    }
  }

  lemma CurveIsNonDecreasing(items: seq<Words>, curve: seq<nat>)
    requires IsCurve(items, curve)
    ensures NonDecreasing(curve)
  {
    forall i, j | 0 <= i < j < |curve|
      ensures curve[i] <= curve[j]
    {
      AllBigramsGrow(items, i + 1, j + 1);
    }
  }

  predicate IsFlat(curve: seq<nat>) {
    curve != [] && curve[0] == curve[|curve| - 1]
  }

  // The curve is flat if and only if no item brings a bigram the first does not have.
  lemma FlatIff(items: seq<Words>, curve: seq<nat>)
    requires IsCurve(items, curve) && items != []
    ensures IsFlat(curve) <==> forall i :: 0 <= i < |items| ==> Bigrams(items[i]) <= Bigrams(items[0])
  {
    AllBigramsGrow(items, 1, |items|);
    FirstAndAll(items);
    var first, all := Bigrams(items[0]), AllBigrams(items);
    assert curve[0] == |first| && curve[|curve| - 1] == |all|;
    assert IsFlat(curve) <==> all <= first by {
      SubsetSize(first, all);
      assert all <= first <==> all == first;
    }
    InAllIff(items, first);
    hide Bigrams, AllBigrams, Distinct, IsFlat;
  }

  lemma FirstAndAll(items: seq<Words>)
    requires items != []
    ensures items[..|items|] == items && AllBigrams(items[..1]) == Bigrams(items[0])
  {
    AllBigramsNext(items, 0);
    hide Bigrams;
    assert AllBigrams(items[..0]) == {};
  }

  lemma InAllIff(items: seq<Words>, some: set<Bigram>)
    ensures AllBigrams(items) <= some <==> forall i :: 0 <= i < |items| ==> Bigrams(items[i]) <= some
  {
    hide Bigrams;
    if AllBigrams(items) <= some {
      forall i | 0 <= i < |items|
        ensures Bigrams(items[i]) <= some
      {
        assert forall b :: b in Bigrams(items[i]) ==> b in AllBigrams(items);
      }
    }
  }

  // --- the knee ---

  function Share(part: nat, whole: nat): real
    requires whole > 0
  {
    part as real / whole as real
  }

  // The height of the curve at i, as a share of its rise, less i as a share of its length.
  function Gain(curve: seq<nat>, i: nat): real
    requires i < |curve| && NonDecreasing(curve) && !IsFlat(curve)
  {
    Share(curve[i] - curve[0], curve[|curve| - 1] - curve[0]) - Share(i, |curve| - 1)
  }

  ghost predicate IsFirstPeak(curve: seq<nat>, i: nat)
    requires NonDecreasing(curve) && !IsFlat(curve)
  {
    && i < |curve|
    && (forall j :: 0 <= j < i ==> Gain(curve, j) < Gain(curve, i))
    && forall j :: i < j < |curve| ==> Gain(curve, j) <= Gain(curve, i)
  }

  // One more than the first point farthest above the line from the first point to the last, if it is far enough.
  ghost predicate IsKnee(curve: seq<nat>, knee: nat)
    requires NonDecreasing(curve) && !IsFlat(curve)
  {
    2 <= knee < |curve| && IsFirstPeak(curve, knee - 1) && Gain(curve, knee - 1) >= 0.05
  }

  method FindKnee(curve: seq<nat>) returns (knee: Option<nat>)
    requires NonDecreasing(curve)
    ensures |curve| < 3 ==> knee.None?
    ensures |curve| >= 3 && IsFlat(curve) ==> knee == Some(1)
    ensures |curve| >= 3 && !IsFlat(curve) && knee.None? ==> forall i :: 0 <= i < |curve| ==> Gain(curve, i) < 0.05
    ensures |curve| >= 3 && !IsFlat(curve) && knee.Some? ==> IsKnee(curve, knee.value)
  {
    var n := |curve|;
    if n < 3 {
      return None;
    }
    var yMin, yMax := curve[0], curve[n - 1];
    if yMax == yMin {
      return Some(1);
    }
    GainAtEnds(curve);
    hide Share;
    var maxDiff := -1.0;
    var kneeIndex: Option<nat> := None;
    for i := 0 to n
      invariant kneeIndex.Some? <==> i > 0
      invariant i == 0 ==> maxDiff == -1.0
      invariant i > 0 ==> kneeIndex.value < i && maxDiff == Gain(curve, kneeIndex.value)
      invariant i > 0 ==> forall j :: 0 <= j < kneeIndex.value ==> Gain(curve, j) < maxDiff
      invariant i > 0 ==> forall j :: kneeIndex.value < j < i ==> Gain(curve, j) <= maxDiff
    {
      var diff := Share(curve[i] - yMin, yMax - yMin) - Share(i, n - 1);
      if diff > maxDiff {
        maxDiff, kneeIndex := diff, Some(i);
      }
    }
    if maxDiff < 0.05 {
      return None;
    }
    return Some(kneeIndex.value + 1);
  }

  lemma GainAtEnds(curve: seq<nat>)
    requires NonDecreasing(curve) && curve != [] && !IsFlat(curve)
    ensures Gain(curve, 0) == 0.0 && Gain(curve, |curve| - 1) == 0.0
  {
    var rise, run := curve[|curve| - 1] - curve[0], |curve| - 1;
    ShareIs(0, rise, 0.0);
    ShareIs(0, run, 0.0);
    ShareIs(rise, rise, 1.0);
    ShareIs(run, run, 1.0);
    hide Share;
  }

  lemma ShareIs(part: nat, whole: nat, share: real)
    requires whole > 0 && share * whole as real == part as real
    ensures Share(part, whole) == share
  {
    var r, w := part as real / whole as real, whole as real;
    assert r * w == share * w;
    assert r < share ==> r * w < share * w;
    assert r > share ==> r * w > share * w;
  }

  lemma ShareScaled(part: nat, whole: nat, scale: nat)
    requires whole > 0 && scale > 0
    ensures scale * whole > 0 && Share(scale * part, scale * whole) == Share(part, whole)
  {
    var r, p, w, c := part as real / whole as real, part as real, whole as real, scale as real;
    assert r * w == p;
    assert r * (c * w) == c * (r * w);
    assert (scale * whole) as real == c * w && (scale * part) as real == c * p;
    ShareIs(scale * part, scale * whole, r);
  }

  // A count in another unit, from another start.
  function Recounted(y: nat, scale: nat, start: nat): nat {
    scale * y + start
  }

  ghost predicate Recounts(curve: seq<nat>, other: seq<nat>, scale: nat, start: nat) {
    |other| == |curve| && forall i :: 0 <= i < |curve| ==> other[i] == Recounted(curve[i], scale, start)
  }

  lemma RecountedRise(a: nat, b: nat, scale: nat, start: nat)
    requires a <= b && scale > 0
    ensures Recounted(b, scale, start) - Recounted(a, scale, start) == scale * (b - a) >= b - a
  {
    var d := b - a;
    assert scale * b == scale * a + scale * d by {
      assert b == a + d;
    }
    assert scale * d == d + (scale - 1) * d;
    assert (scale - 1) * d >= 0;
  }

  lemma RecountedGain(curve: seq<nat>, other: seq<nat>, scale: nat, start: nat, i: nat)
    requires NonDecreasing(curve) && curve != [] && !IsFlat(curve) && scale > 0 && i < |curve|
    requires Recounts(curve, other, scale, start) && NonDecreasing(other) && !IsFlat(other)
    ensures Gain(other, i) == Gain(curve, i)
  {
    var last := |curve| - 1;
    RecountedRise(curve[0], curve[i], scale, start);
    RecountedRise(curve[0], curve[last], scale, start);
    ShareScaled(curve[i] - curve[0], curve[last] - curve[0], scale);
    hide Share, Recounted;
  }

  // The knee depends on the shape of the curve alone: counting in other units, or from another start, changes nothing.
  lemma KneeIgnoresUnits(curve: seq<nat>, other: seq<nat>, scale: nat, start: nat, knee: nat)
    requires NonDecreasing(curve) && curve != [] && !IsFlat(curve) && scale > 0
    requires Recounts(curve, other, scale, start)
    ensures NonDecreasing(other) && !IsFlat(other)
    ensures IsKnee(other, knee) <==> IsKnee(curve, knee)
  {
    hide Recounted, Gain;
    forall i, j | 0 <= i < j < |other|
      ensures other[i] <= other[j]
    {
      RecountedRise(curve[i], curve[j], scale, start);
    }
    RecountedRise(curve[0], curve[|curve| - 1], scale, start);
    forall i: nat | i < |curve|
      ensures Gain(other, i) == Gain(curve, i)
    {
      RecountedGain(curve, other, scale, start, i);
    }
  }

  // --- the number of items kept ---

  datatype Bias = Conservative | Moderate | Aggressive {
    function Multiplier(): real {
      match this
      case Conservative => 1.5
      case Moderate => 1.0
      case Aggressive => 0.7
    }
  }

  // A number that is not negative, cut to its whole part.
  function Truncated(x: real): nat
    requires x >= 0.0
  {
    x.Floor
  }

  // The multiples of counts that are kept, in whole numbers.
  function Diverse(n: nat, unique: nat): nat {
    (3 * n + 7 * unique) / 10
  }

  function Multiplied(k: nat, bias: Bias): nat {
    match bias
    case Conservative => 3 * k / 2
    case Moderate => k
    case Aggressive => 7 * k / 10
  }

  function FifthMore(k: nat): nat {
    k + k / 5
  }

  // `differs` says for how many leading items the compression ratio is too far from that of the whole text.
  method ValidateWithZlib(n: nat, k: nat, maxK: nat, differs: nat -> bool) returns (r: nat)
    ensures k <= r
    ensures r > k <==> k < n && k < maxK && differs(k) && k >= 5
    ensures r == if k < n && k < maxK && differs(k) then Min(FifthMore(k), maxK) else k
  {
    if k >= n || k >= maxK {
      return k;
    }
    if differs(k) {
      return Min(k * 6 / 5, maxK);
    }
    return k;
  }

  lemma FloorIs(x: real, tenths: nat)
    requires 10.0 * x == tenths as real
    ensures x >= 0.0 && Truncated(x) == tenths / 10
  {
    assert tenths == 10 * (tenths / 10) + tenths % 10;
  }

  // The share of the items to keep grows with their diversity: 3/10 of the items and 7/10 of those far apart.
  function KeptByDiversity(unique: nat, n: nat): (r: nat)
    requires n > 0
    ensures r == Diverse(n, unique)
  {
    var share := n as real * (0.3 + 0.7 * Share(unique, n));
    assert 10.0 * share == (3 * n + 7 * unique) as real by {
      assert n as real * Share(unique, n) == unique as real;
    }
    FloorIs(share, 3 * n + 7 * unique);
    Truncated(share)
  }

  function Biased(k: nat, bias: Bias): (r: nat)
    ensures r == Multiplied(k, bias)
  {
    FloorIs(k as real * bias.Multiplier(), match bias { case Conservative => 15 * k case Moderate => 10 * k case Aggressive => 7 * k });
    Truncated(k as real * bias.Multiplier())
  }

  lemma DiverseIff(unique: nat, n: nat)
    requires n > 0
    ensures Share(unique, n) > 0.7 <==> 10 * unique > 7 * n
  {
    var share, whole := Share(unique, n), n as real;
    assert share * whole == unique as real;
    assert share > 0.7 ==> share * whole > 0.7 * whole;
    assert share <= 0.7 ==> share * whole <= 0.7 * whole;
  }

  // At most three items are pairwise far.
  ghost predicate HasFewClusters(prints: seq<Fingerprint>) {
    exists selected :: IsSelection(prints, 3, selected) && |selected| <= 3
  }

  // The knee of a curve, which is 1 for a flat one, or none if nowhere it is far enough above the line.
  ghost predicate HasKnee(curve: seq<nat>, knee: Option<nat>) {
    NonDecreasing(curve) &&
    if IsFlat(curve) then knee == Some(1)
    else if knee.Some? then IsKnee(curve, knee.value)
    else forall i :: 0 <= i < |curve| ==> Gain(curve, i) < 0.05
  }

  // The answer for n items of which `unique` are pairwise far, in whole numbers. The knee is taken as it is if at most 7/10 of
  // the items are far apart; otherwise, and without a knee, 3/10 of all items and 7/10 of those far apart are kept at least.
  function Answer(n: nat, unique: nat, knee: Option<nat>, bias: Bias, minK: nat, most: nat, differs: nat -> bool): nat {
    var kept := Max(minK, (3 * n + 7 * unique) / 10);
    var base := if knee.None? then kept else if 10 * unique <= 7 * n then knee.value else Max(knee.value, kept);
    var biased := match bias { case Conservative => 3 * base / 2 case Moderate => base case Aggressive => 7 * base / 10 };
    var x := Min(Max(minK, biased), most);
    Max(minK, if x < n && x < most && differs(x) then Min(x + x / 5, most) else x)
  }

  ghost predicate IsAnswer(items: seq<Words>, prints: seq<Fingerprint>, bias: Bias, minK: nat, most: nat,
      differs: nat -> bool, k: nat)
  {
    exists curve, knee, selected :: IsCurve(items, curve) && HasKnee(curve, knee) && IsSelection(prints, 3, selected)
      && k == Answer(|items|, |selected|, knee, bias, minK, most, differs)
  }

  lemma KneeUnique(curve: seq<nat>, a: Option<nat>, b: Option<nat>)
    requires HasKnee(curve, a) && HasKnee(curve, b)
    ensures a == b
  {
    hide Gain;
  }

  // Items, fingerprints and options determine the answer.
  lemma AnswerUnique(items: seq<Words>, prints: seq<Fingerprint>, bias: Bias, minK: nat, most: nat,
      differs: nat -> bool, a: nat, b: nat)
    requires IsAnswer(items, prints, bias, minK, most, differs, a) && IsAnswer(items, prints, bias, minK, most, differs, b)
    ensures a == b
  {
    var curve, knee, selected :| IsCurve(items, curve) && HasKnee(curve, knee) && IsSelection(prints, 3, selected)
      && a == Answer(|items|, |selected|, knee, bias, minK, most, differs);
    var curve', knee', selected' :| IsCurve(items, curve') && HasKnee(curve', knee') && IsSelection(prints, 3, selected')
      && b == Answer(|items|, |selected'|, knee', bias, minK, most, differs);
    assert curve == curve';
    KneeUnique(curve, knee, knee');
    SelectionUnique(prints, 3, selected, selected');
  }

  lemma AnswerIs(items: seq<Words>, prints: seq<Fingerprint>, bias: Bias, minK: nat, most: nat, differs: nat -> bool,
      curve: seq<nat>, knee: Option<nat>, selected: seq<nat>)
    requires IsCurve(items, curve) && HasKnee(curve, knee) && IsSelection(prints, 3, selected)
    ensures IsAnswer(items, prints, bias, minK, most, differs,
      Answer(|items|, |selected|, knee, bias, minK, most, differs))
  {
  }

  lemma AnswerBounds(n: nat, unique: nat, knee: Option<nat>, bias: Bias, minK: nat, most: nat, differs: nat -> bool)
    ensures var k := Answer(n, unique, knee, bias, minK, most, differs);
      && minK <= k && (k <= most <==> minK <= most)
      && (unique == n && !bias.Aggressive? ==> k >= Min(n, most))
  {
  }

  // The answer as it is reckoned, step by step.
  ghost predicate IsReckoned(n: nat, unique: nat, knee: Option<nat>, bias: Bias, minK: nat, most: nat,
      differs: nat -> bool, k: nat)
  {
    var kept := Max(minK, Diverse(n, unique));
    var base := if knee.None? then kept else if 10 * unique <= 7 * n then knee.value else Max(knee.value, kept);
    var x := Min(Max(minK, Multiplied(base, bias)), most);
    k == Max(minK, if x < n && x < most && differs(x) then Min(FifthMore(x), most) else x)
  }

  lemma ReckonedIsAnswer(n: nat, unique: nat, knee: Option<nat>, bias: Bias, minK: nat, most: nat,
      differs: nat -> bool, k: nat)
    requires IsReckoned(n, unique, knee, bias, minK, most, differs, k)
    ensures k == Answer(n, unique, knee, bias, minK, most, differs)
  {
  }

  // From the knee on.
  method FromKnee(n: nat, uniqueCount: nat, found: Option<nat>, bias: Bias, minK: nat, most: nat, differs: nat -> bool)
    returns (k: nat)
    requires n > 0
    ensures k == Answer(n, uniqueCount, found, bias, minK, most, differs)
  {
    DiverseIff(uniqueCount, n);
    hide Share, KeptByDiversity, Biased, Diverse, Multiplied;
    assert forall x :: FifthMore(x) >= x;
    hide FifthMore;
    var knee := found;
    var kept := KeptByDiversity(uniqueCount, n);
    if knee.None? {
      knee := Some(Max(minK, kept));
    } else if Share(uniqueCount, n) > 0.7 {
      knee := Some(Max(knee.value, Max(minK, kept)));
    }
    k := Max(minK, Biased(knee.value, bias));
    k := Min(k, most);
    k := ValidateWithZlib(n, k, most, differs);
    k := Max(Min(k, most), minK);
    hide Answer;
    ReckonedIsAnswer(n, uniqueCount, found, bias, minK, most, differs, k);
  }

  method OptimalK(items: seq<Words>, prints: seq<Fingerprint>, bias: Bias, minK: nat, maxK: Option<nat>,
      differs: nat -> bool)
    returns (k: nat)
    requires |prints| == |items|
    ensures var most := if maxK.None? then |items| else maxK.value;
      && (|items| <= 8 ==> k == Min(|items|, most))
      && (k <= most <==> |items| <= 8 || HasFewClusters(prints) || minK <= most)
      && (k >= minK <==>
          if |items| <= 8 then minK <= Min(|items|, most) else !HasFewClusters(prints) || minK <= most)
    ensures var most := if maxK.None? then |items| else maxK.value;
      && (|items| > 8 && HasFewClusters(prints) ==>
          forall selected :: IsSelection(prints, 3, selected) ==> k == Min(Max(minK, |selected|), most))
      && (AllFar(prints, 3) && !bias.Aggressive? ==> k >= Min(|items|, most))
      && (|items| > 8 && !HasFewClusters(prints) ==> IsAnswer(items, prints, bias, minK, most, differs, k))
  {
    var n := |items|;
    var most := if maxK.None? then n else maxK.value;
    if n <= 8 {
      return Min(n, most);
    }
    var uniqueCount := CountUniqueSimhash(prints);
    AllSelectedIff(prints, 3);
    assert AllFar(prints, 3) ==> uniqueCount == n;
    assert HasFewClusters(prints) <==> uniqueCount <= 3;
    if uniqueCount <= 3 {
      return Min(Max(minK, uniqueCount), most);
    }
    var curve := ComputeUniqueBigramCurve(items);
    CurveIsNonDecreasing(items, curve);
    var knee := FindKnee(curve);
    hide Gain;
    assert HasKnee(curve, knee);
    AnswerBounds(n, uniqueCount, knee, bias, minK, most, differs);
    hide *;
    k := FromKnee(n, uniqueCount, knee, bias, minK, most, differs);
    assert IsAnswer(items, prints, bias, minK, most, differs, k) by {
      var selected :| IsSelection(prints, 3, selected);
      AnswerIs(items, prints, bias, minK, most, differs, curve, knee, selected);
    }
  }
}
