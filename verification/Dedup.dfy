/** SimHash fingerprints and the greedy selection of unique items: crates/crytex-compress/src/dedup.rs, and
    `count_unique_simhash` of crates/crytex-compress/src/sizing.rs. The MD5 hashes of a text's 4-grams are given. */
module Dedup {

  const BITS: nat := 64

  type Fingerprint = b: seq<bool> | |b| == 64 witness seq(64, i => false)

  // How many of the first n bits differ.
  function DistanceTo(a: Fingerprint, b: Fingerprint, n: nat): (d: nat)
    requires n <= BITS
    ensures d <= n
    ensures d == 0 <==> a[..n] == b[..n]
  {
    if n == 0 then 0
    else
      assert a[..n] == a[..n - 1] + [a[n - 1]] && b[..n] == b[..n - 1] + [b[n - 1]];
      DistanceTo(a, b, n - 1) + if a[n - 1] != b[n - 1] then 1 else 0
  }

  function Distance(a: Fingerprint, b: Fingerprint): (d: nat)
    ensures d <= BITS
    ensures d == 0 <==> a == b
  {
    assert a[..BITS] == a && b[..BITS] == b;
    DistanceTo(a, b, BITS)
  }

  lemma {:induction false} DistanceCounts(a: Fingerprint, b: Fingerprint, n: nat)
    requires n <= BITS
    ensures DistanceTo(a, b, n) == |set j | 0 <= j < n && a[j] != b[j]|
  {
    if n > 0 {
      DistanceCounts(a, b, n - 1);
      var fewer := set j | 0 <= j < n - 1 && a[j] != b[j];
      assert (set j | 0 <= j < n && a[j] != b[j]) == fewer + if a[n - 1] != b[n - 1] then {n - 1} else {};
    }
  }

  // The number of bits in which two fingerprints differ.
  method HammingDistance(a: Fingerprint, b: Fingerprint) returns (d: nat)
    ensures d == Distance(a, b) == |set j | 0 <= j < 64 && a[j] != b[j]|
  {
    DistanceCounts(a, b, BITS);
    d := 0;
    for j := 0 to BITS
      invariant d == DistanceTo(a, b, j)
    {
      if a[j] != b[j] {
        d := d + 1;
      }
    }
  }

  lemma {:induction false} Metric(a: Fingerprint, b: Fingerprint, c: Fingerprint, n: nat)
    requires n <= BITS
    ensures DistanceTo(a, b, n) == DistanceTo(b, a, n)
    ensures DistanceTo(a, c, n) <= DistanceTo(a, b, n) + DistanceTo(b, c, n)
  {
    if n > 0 {
      Metric(a, b, c, n - 1);
    }
  }

  // --- the fingerprint of a text ---

  // How many hashes have bit j equal to v.
  function Votes(hashes: seq<Fingerprint>, j: nat, v: bool): nat
    requires j < BITS
  {
    if hashes == [] then 0
    else Votes(hashes[..|hashes| - 1], j, v) + if hashes[|hashes| - 1][j] == v then 1 else 0
  }

  // Bit j is set if and only if more hashes have it set than not.
  predicate IsSimhash(hashes: seq<Fingerprint>, f: Fingerprint) {
    forall j :: 0 <= j < BITS ==> (f[j] <==> Votes(hashes, j, true) > Votes(hashes, j, false))
  }

  method Simhash(hashes: seq<Fingerprint>) returns (f: Fingerprint)
    ensures IsSimhash(hashes, f)
  {
    var votes := new int[BITS](_ => 0);
    for i := 0 to |hashes|
      invariant forall j :: 0 <= j < BITS ==> votes[j] == Votes(hashes[..i], j, true) - Votes(hashes[..i], j, false)
    {
      assert hashes[..i + 1][..i] == hashes[..i];
      for j := 0 to BITS
        invariant forall m :: 0 <= m < j ==>
          votes[m] == Votes(hashes[..i + 1], m, true) - Votes(hashes[..i + 1], m, false)
        invariant forall m :: j <= m < BITS ==>
          votes[m] == Votes(hashes[..i], m, true) - Votes(hashes[..i], m, false)
      {
        if hashes[i][j] {
          votes[j] := votes[j] + 1;
        } else {
          votes[j] := votes[j] - 1;
        }
      }
    }
    assert hashes[..|hashes|] == hashes;
    f := seq(BITS, _ => false);
    for j := 0 to BITS
      invariant |f| == BITS
      invariant forall m :: 0 <= m < j ==> (f[m] <==> Votes(hashes, m, true) > Votes(hashes, m, false))
      invariant forall m :: j <= m < BITS ==> !f[m]
    {
      if votes[j] > 0 {
        f := f[j := true];
      }
    }
  }

  // A tie clears the bit: of two hashes only the common bits are set.
  lemma SimhashOfTwo(a: Fingerprint, b: Fingerprint, f: Fingerprint)
    requires IsSimhash([a, b], f)
    ensures forall j :: 0 <= j < BITS ==> (f[j] <==> a[j] && b[j])
  {
    assert [a, b][..1] == [a] && [a][..0] == [];
    forall j | 0 <= j < BITS
      ensures f[j] <==> a[j] && b[j]
    {
      assert Votes([a][..0], j, true) == Votes([a][..0], j, false) == 0;
      assert Votes([a], j, true) == if a[j] then 1 else 0;
      assert Votes([a], j, false) == if a[j] then 0 else 1;
    }
  }

  function TotalTo(f: Fingerprint, hashes: seq<Fingerprint>, n: nat): nat
    requires n <= BITS
  {
    if hashes == [] then 0
    else TotalTo(f, hashes[..|hashes| - 1], n) + DistanceTo(f, hashes[|hashes| - 1], n)
  }

  function Total(f: Fingerprint, hashes: seq<Fingerprint>): nat {
    TotalTo(f, hashes, BITS)
  }

  lemma {:induction false} TotalByBit(f: Fingerprint, hashes: seq<Fingerprint>, n: nat)
    requires n < BITS
    ensures TotalTo(f, hashes, n + 1) == TotalTo(f, hashes, n) + Votes(hashes, n, !f[n])
  {
    if hashes != [] {
      TotalByBit(f, hashes[..|hashes| - 1], n);
    }
  }

  lemma {:induction false} TotalAtZero(f: Fingerprint, hashes: seq<Fingerprint>)
    ensures TotalTo(f, hashes, 0) == 0
  {
    if hashes != [] {
      TotalAtZero(f, hashes[..|hashes| - 1]);
    }
  }

  lemma {:induction false} MedianTo(hashes: seq<Fingerprint>, f: Fingerprint, g: Fingerprint, n: nat)
    requires IsSimhash(hashes, f) && n <= BITS
    ensures TotalTo(f, hashes, n) <= TotalTo(g, hashes, n)
  {
    if n == 0 {
      TotalAtZero(f, hashes);
      TotalAtZero(g, hashes);
    } else {
      MedianTo(hashes, f, g, n - 1);
      TotalByBit(f, hashes, n - 1);
      TotalByBit(g, hashes, n - 1);
    }
  }

  // The fingerprint is as close as any can be to the hashes it is voted from.
  lemma SimhashIsMedian(hashes: seq<Fingerprint>, f: Fingerprint, g: Fingerprint)
    requires IsSimhash(hashes, f)
    ensures Total(f, hashes) <= Total(g, hashes)
  {
    MedianTo(hashes, f, g, BITS);
  }

  // --- selection ---

  predicate Increasing(s: seq<nat>) {
    forall i, j :: 0 <= i < j < |s| ==> s[i] < s[j]
  }

  predicate Within(selected: seq<nat>, n: nat) {
    forall k :: 0 <= k < |selected| ==> selected[k] < n
  }

  // Among the first n items, an item is selected if and only if it is farther than the threshold from every selected
  // item before it.
  ghost predicate Selects(prints: seq<Fingerprint>, threshold: nat, selected: seq<nat>, n: nat)
    requires n <= |prints|
  {
    && Increasing(selected) && Within(selected, n)
    && forall i: nat :: i < n ==> (i in selected <==> IsFar(prints, threshold, selected, i))
  }

  ghost predicate IsFar(prints: seq<Fingerprint>, threshold: nat, selected: seq<nat>, i: nat)
    requires i < |prints|
  {
    forall j :: j in selected && j < i ==> Distance(prints[j], prints[i]) > threshold
  }

  ghost predicate IsSelection(prints: seq<Fingerprint>, threshold: nat, selected: seq<nat>) {
    Selects(prints, threshold, selected, |prints|)
  }

  method SelectUniqueIndices(prints: seq<Fingerprint>, threshold: nat) returns (selected: seq<nat>)
    ensures IsSelection(prints, threshold, selected)
  {
    selected := [];
    var fingerprints: seq<Fingerprint> := [];
    for i := 0 to |prints|
      invariant Selects(prints, threshold, selected, i)
      invariant fingerprints == At(prints, selected)
    {
      var duplicate := AnyNear(prints[i], fingerprints, threshold);
      SelectsNext(prints, threshold, selected, i);
      if !duplicate {
        selected := selected + [i];
        fingerprints := fingerprints + [prints[i]];
      }
    }
  }

  function At(prints: seq<Fingerprint>, selected: seq<nat>): (r: seq<Fingerprint>)
    requires Within(selected, |prints|)
  {
    seq(|selected|, k requires 0 <= k < |selected| => prints[selected[k]])
  }

  predicate IsNear(f: Fingerprint, seen: seq<Fingerprint>, threshold: nat) {
    exists k :: 0 <= k < |seen| && Distance(seen[k], f) <= threshold
  }

  // The test against what is kept, which `is_near_duplicate` makes too.
  method AnyNear(f: Fingerprint, seen: seq<Fingerprint>, threshold: nat) returns (near: bool)
    ensures near == IsNear(f, seen, threshold)
  {
    for k := 0 to |seen|
      invariant forall m :: 0 <= m < k ==> Distance(seen[m], f) > threshold
    {
      var d := HammingDistance(f, seen[k]);
      Metric(f, seen[k], f, BITS);
      if d <= threshold {
        return true;
      }
    }
    near := false;
  }

  lemma NearIff(prints: seq<Fingerprint>, threshold: nat, selected: seq<nat>, n: nat)
    requires n < |prints| && Within(selected, n)
    ensures IsNear(prints[n], At(prints, selected), threshold) <==> !IsFar(prints, threshold, selected, n)
  {
    hide Distance;
    var seen := At(prints, selected);
    assert forall k :: 0 <= k < |selected| ==> seen[k] == prints[selected[k]];
    if j :| j in selected && Distance(prints[j], prints[n]) <= threshold {
      var k :| 0 <= k < |selected| && selected[k] == j;
      assert Distance(seen[k], prints[n]) <= threshold;
    }
  }

  lemma SelectsNext(prints: seq<Fingerprint>, threshold: nat, selected: seq<nat>, n: nat)
    requires n < |prints| && Selects(prints, threshold, selected, n)
    ensures if IsNear(prints[n], At(prints, selected), threshold) then Selects(prints, threshold, selected, n + 1)
      else Selects(prints, threshold, selected + [n], n + 1)
  {
    NearIff(prints, threshold, selected, n);
    hide Distance, At, IsNear;
    if IsFar(prints, threshold, selected, n) {
      var after := selected + [n];
      assert forall j :: j in after <==> j in selected || j == n;
      forall i: nat | i < n + 1
        ensures i in after <==> IsFar(prints, threshold, after, i)
      {
        assert IsFar(prints, threshold, after, i) <==> IsFar(prints, threshold, selected, i);
      }
    }
  }

  // There is one selection only,
  lemma SelectionUnique(prints: seq<Fingerprint>, threshold: nat, a: seq<nat>, b: seq<nat>)
    requires IsSelection(prints, threshold, a) && IsSelection(prints, threshold, b)
    ensures a == b
  {
    forall i: nat | i < |prints|
      ensures i in a <==> i in b
    {
      SameMembers(prints, threshold, a, b, i);
    }
    SameElementsSame(a, b);
  }

  lemma {:induction false} SameMembers(prints: seq<Fingerprint>, threshold: nat, a: seq<nat>, b: seq<nat>, i: nat)
    requires IsSelection(prints, threshold, a) && IsSelection(prints, threshold, b) && i < |prints|
    ensures i in a <==> i in b
    decreases i
  {
    forall j: nat | j < i
      ensures j in a <==> j in b
    {
      SameMembers(prints, threshold, a, b, j);
    }
    assert IsFar(prints, threshold, a, i) <==> IsFar(prints, threshold, b, i);
  }

  lemma SomeElement(s: seq<nat>)
    ensures s == [] || exists i :: i in s
  {
    assert s == [] || s[0] in s;
  }

  lemma {:induction false} SameElementsSame(a: seq<nat>, b: seq<nat>)
    requires Increasing(a) && Increasing(b) && forall i: nat :: i in a <==> i in b
    ensures a == b
  {
    if a == [] {
      SomeElement(b);
    } else {
      var m, n := |a| - 1, |b| - 1;
      assert a[m] in b && (b != [] && b[n] in a);
      assert a[m] == b[n];
      forall i: nat
        ensures i in a[..m] <==> i in b[..n]
      {
        assert a == a[..m] + [a[m]] && b == b[..n] + [b[n]];
        assert i in a <==> i in a[..m] || i == a[m];
        assert i in b <==> i in b[..n] || i == b[n];
      }
      SameElementsSame(a[..m], b[..n]);
      assert a == a[..m] + [a[m]] && b == b[..n] + [b[n]];
    }
  }

  // its items are pairwise farther apart than the threshold,
  lemma SelectedAreFar(prints: seq<Fingerprint>, threshold: nat, selected: seq<nat>, i: nat, j: nat)
    requires IsSelection(prints, threshold, selected) && i in selected && j in selected && i != j
    ensures Distance(prints[i], prints[j]) > threshold
  {
    Metric(prints[i], prints[j], prints[i], BITS);
    assert IsFar(prints, threshold, selected, i) && IsFar(prints, threshold, selected, j);
  }

  ghost predicate IsKeeper(prints: seq<Fingerprint>, threshold: nat, selected: seq<nat>, i: nat, j: nat) {
    j in selected && j <= i < |prints| && Distance(prints[j], prints[i]) <= threshold
  }

  // and every item is within it of a selected item that is not later;
  lemma SelectionCovers(prints: seq<Fingerprint>, threshold: nat, selected: seq<nat>, i: nat) returns (j: nat)
    requires IsSelection(prints, threshold, selected) && i < |prints|
    ensures IsKeeper(prints, threshold, selected, i, j)
  {
    if i in selected {
      j := i;
      assert Distance(prints[i], prints[i]) == 0;
    } else {
      assert !IsFar(prints, threshold, selected, i);
      j :| j in selected && j < i && Distance(prints[j], prints[i]) <= threshold;
    }
  }

  // items with the same such keeper are within twice the threshold of each other.
  lemma SameKeeperIsClose(prints: seq<Fingerprint>, threshold: nat, selected: seq<nat>, i: nat, k: nat, j: nat)
    requires IsKeeper(prints, threshold, selected, i, j) && IsKeeper(prints, threshold, selected, k, j)
    ensures Distance(prints[i], prints[k]) <= 2 * threshold
  {
    Metric(prints[i], prints[j], prints[k], BITS);
    Metric(prints[j], prints[i], prints[j], BITS);
  }

  // So no choice of items pairwise farther apart than twice the threshold has more items than the selection.
  lemma PackingBound(prints: seq<Fingerprint>, threshold: nat, selected: seq<nat>, far: set<nat>)
    requires IsSelection(prints, threshold, selected) && forall i :: i in far ==> i < |prints|
    requires forall i, k :: i in far && k in far && i != k ==> Distance(prints[i], prints[k]) > 2 * threshold
    ensures |far| <= |selected|
  {
    forall i | i in far
      ensures exists j :: j in selected && IsKeeper(prints, threshold, selected, i, j)
    {
      var j := SelectionCovers(prints, threshold, selected, i);
    }
    KeepersSuffice(prints, threshold, selected, selected, far);
  }

  lemma {:induction false} KeepersSuffice(prints: seq<Fingerprint>, threshold: nat, selected: seq<nat>,
      keepers: seq<nat>, far: set<nat>)
    requires forall i :: i in far ==> i < |prints|
    requires forall i :: i in far ==> exists j :: j in keepers && IsKeeper(prints, threshold, selected, i, j)
    requires forall i, k :: i in far && k in far && i != k ==> Distance(prints[i], prints[k]) > 2 * threshold
    ensures |far| <= |keepers|
    decreases |keepers|
  {
    if keepers == [] {
      assert far == {};
    } else {
      var last, front := keepers[|keepers| - 1], keepers[..|keepers| - 1];
      assert keepers == front + [last];
      if i :| i in far && IsKeeper(prints, threshold, selected, i, last) {
        forall k | k in far - {i}
          ensures exists j :: j in front && IsKeeper(prints, threshold, selected, k, j)
        {
          if IsKeeper(prints, threshold, selected, k, last) {
            SameKeeperIsClose(prints, threshold, selected, i, k, last);
          }
        }
        KeepersSuffice(prints, threshold, selected, front, far - {i});
      } else {
        KeepersSuffice(prints, threshold, selected, front, far);
      }
    }
  }

  // The method of sizing.rs keeps the fingerprints only; it counts what `select_unique_indices` selects at threshold 3.
  method CountUniqueSimhash(prints: seq<Fingerprint>) returns (count: nat)
    ensures forall selected :: IsSelection(prints, 3, selected) ==> |selected| == count
    ensures exists selected :: IsSelection(prints, 3, selected)
  {
    var clusters: seq<Fingerprint> := [];
    ghost var selected: seq<nat> := [];
    for i := 0 to |prints|
      invariant Selects(prints, 3, selected, i) && clusters == At(prints, selected)
    {
      var matched := AnyNear(prints[i], clusters, 3);
      SelectsNext(prints, 3, selected, i);
      if !matched {
        clusters := clusters + [prints[i]];
        selected := selected + [i];
      }
    }
    assert IsSelection(prints, 3, selected);
    forall other | IsSelection(prints, 3, other)
      ensures |other| == |clusters|
    {
      SelectionUnique(prints, 3, selected, other);
    }
    hide Selects, Distance, At, IsNear;
    count := |clusters|;
  }

  predicate AllFar(prints: seq<Fingerprint>, threshold: nat) {
    forall i, j :: 0 <= i < j < |prints| ==> Distance(prints[i], prints[j]) > threshold
  }

  function Indices(n: nat): (r: seq<nat>)
    ensures |r| == n && forall i: nat :: i < n ==> r[i] == i && i in r
  {
    if n == 0 then [] else Indices(n - 1) + [n - 1]
  }

  // Everything is selected if and only if all items are pairwise farther apart than the threshold.
  lemma AllSelectedIff(prints: seq<Fingerprint>, threshold: nat)
    ensures IsSelection(prints, threshold, Indices(|prints|)) <==> AllFar(prints, threshold)
  {
    var all := Indices(|prints|);
    hide Distance;
    if IsSelection(prints, threshold, all) {
      forall i: nat, j: nat | i < j < |prints|
        ensures Distance(prints[i], prints[j]) > threshold
      {
        assert j in all && IsFar(prints, threshold, all, j);
      }
    }
  }

  // Selecting among the selected items changes nothing.
  lemma SelectionIsStable(prints: seq<Fingerprint>, threshold: nat, selected: seq<nat>)
    requires IsSelection(prints, threshold, selected)
    ensures IsSelection(At(prints, selected), threshold, Indices(|selected|))
  {
    var kept := At(prints, selected);
    forall i, j | 0 <= i < j < |kept|
      ensures Distance(kept[i], kept[j]) > threshold
    {
      SelectedAreFar(prints, threshold, selected, selected[i], selected[j]);
    }
    AllSelectedIff(kept, threshold);
  }

  // `jaccard_similarity`, exact. Sets without words are similar to nothing.
  function Jaccard(a: set<string>, b: set<string>): (r: real)
    ensures 0.0 <= r <= 1.0
    ensures r == 0.0 <==> a !! b
    ensures r == 1.0 <==> a == b && a != {}
    ensures a != {} && b != {} ==> r * |a + b| as real == |a * b| as real
  {
    if a == {} || b == {} then 0.0
    else
      var intersection := |a * b|;
      JaccardCounts(a, b);
      intersection as real / (|a| + |b| - intersection) as real
  }

  lemma JaccardCounts(a: set<string>, b: set<string>)
    requires a != {} && b != {}
    ensures var common, all := |a * b|, |a| + |b| - |a * b|;
      0 <= common <= all && all > 0 && (common == 0 <==> a !! b) && (common == all <==> a == b)
  {
    assert |a + b| == |a| + |b| - |a * b|;
    assert a == (a * b) + (a - b) && b == (a * b) + (b - a);
    assert |a| == |a * b| + |a - b| && |b| == |a * b| + |b - a|;
  }
}
