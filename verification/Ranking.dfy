/** Ranking of impacted symbols, by distance and then by name. */
module Ranking {
  import opened CodeGraphs

  datatype ImpactedSymbol = ImpactedSymbol(symbol: SymbolNode, distance: nat, pathCount: nat)

  // Rust compares strings by their UTF-8 bytes, which is the order of their code points.
  predicate NameLe(a: string, b: string) {
    a == [] || (b != [] && (a[0] < b[0] || (a[0] == b[0] && NameLe(a[1..], b[1..]))))
  }

  predicate RankLe(x: ImpactedSymbol, y: ImpactedSymbol) {
    x.distance < y.distance || (x.distance == y.distance && NameLe(x.symbol.name, y.symbol.name))
  }

  lemma {:induction false} NameLeTotal(a: string, b: string)
    ensures NameLe(a, b) || NameLe(b, a)
  {
    if a != [] && b != [] && a[0] == b[0] {
      NameLeTotal(a[1..], b[1..]);
    }
  }

  lemma {:induction false} NameLeTransitive(a: string, b: string, c: string)
    requires NameLe(a, b) && NameLe(b, c)
    ensures NameLe(a, c)
  {
    if a != [] && b != [] && c != [] && a[0] == b[0] == c[0] {
      NameLeTransitive(a[1..], b[1..], c[1..]);
    }
  }

  ghost predicate Ranked(s: seq<ImpactedSymbol>) {
    forall i, j :: 0 <= i < j < |s| ==> RankLe(s[i], s[j])
  }

  // The library sort is stable: an element goes before the ranked ones it does not exceed.
  function Placed(x: ImpactedSymbol, ranked: seq<ImpactedSymbol>): (r: seq<ImpactedSymbol>)
    requires Ranked(ranked)
    ensures multiset(r) == multiset{x} + multiset(ranked)
    ensures Ranked(r)
  {
    if ranked == [] then [x]
    else if RankLe(x, ranked[0]) then
      assert Ranked([x] + ranked) by { BeforeAll(x, ranked); }
      [x] + ranked
    else
      var rest := Placed(x, ranked[1..]);
      assert ranked == [ranked[0]] + ranked[1..];
      assert Ranked([ranked[0]] + rest) by { StillFirst(x, ranked, rest); }
      [ranked[0]] + rest
  }

  lemma BeforeAll(x: ImpactedSymbol, ranked: seq<ImpactedSymbol>)
    requires ranked != [] && Ranked(ranked) && RankLe(x, ranked[0])
    ensures forall j :: 0 <= j < |ranked| ==> RankLe(x, ranked[j])
  {
    forall j | 0 < j < |ranked|
      ensures RankLe(x, ranked[j])
    {
      if x.distance == ranked[0].distance == ranked[j].distance {
        NameLeTransitive(x.symbol.name, ranked[0].symbol.name, ranked[j].symbol.name);
      }
    }
  }

  lemma StillFirst(x: ImpactedSymbol, ranked: seq<ImpactedSymbol>, rest: seq<ImpactedSymbol>)
    requires ranked != [] && Ranked(ranked) && !RankLe(x, ranked[0])
    requires multiset(rest) == multiset{x} + multiset(ranked[1..])
    ensures forall j :: 0 <= j < |rest| ==> RankLe(ranked[0], rest[j])
  {
    forall j | 0 <= j < |rest|
      ensures RankLe(ranked[0], rest[j])
    {
      assert rest[j] in multiset(rest);
      if rest[j] == x {
        NameLeTotal(x.symbol.name, ranked[0].symbol.name);
      } else {
        assert rest[j] in ranked[1..];
      }
    }
  }

  function SortByRank(s: seq<ImpactedSymbol>): (r: seq<ImpactedSymbol>)
    ensures multiset(r) == multiset(s) && Ranked(r)
  {
    if s == [] then []
    else
      assert s == [s[0]] + s[1..];
      Placed(s[0], SortByRank(s[1..]))
  }

  ghost predicate DistinctSymbols(s: seq<ImpactedSymbol>) {
    forall i, j :: 0 <= i < j < |s| ==> s[i].symbol.id != s[j].symbol.id
  }

  lemma {:induction false} AtMostOnce(s: seq<ImpactedSymbol>, x: ImpactedSymbol)
    requires DistinctSymbols(s)
    ensures multiset(s)[x] <= 1
  {
    if s != [] {
      AtMostOnce(s[1..], x);
      assert s == [s[0]] + s[1..];
      assert s[0] !in s[1..];
    }
  }

  lemma AtLeastTwice(s: seq<ImpactedSymbol>, i: nat, j: nat)
    requires i < j < |s| && s[i] == s[j]
    ensures multiset(s)[s[i]] >= 2
  {
    assert s == s[..j] + s[j..];
    assert s[..j][i] in multiset(s[..j]);
    assert s[j..][0] in multiset(s[j..]);
  }

  // Sorting keeps the entries, and symbols that were listed once are still listed once.
  lemma SortKeepsEntries(s: seq<ImpactedSymbol>)
    requires DistinctSymbols(s)
    ensures forall x :: x in SortByRank(s) <==> x in s
    ensures DistinctSymbols(SortByRank(s))
  {
    var r := SortByRank(s);
    forall x
      ensures x in r <==> x in s
    {
      assert x in multiset(r) <==> x in multiset(s);
    }
    forall i, j | 0 <= i < j < |r|
      ensures r[i].symbol.id != r[j].symbol.id
    {
      AtMostOnce(s, r[i]);
      if r[i] == r[j] {
        AtLeastTwice(r, i, j);
      }
      assert r[i] in s && r[j] in s;
    }
  }
}
