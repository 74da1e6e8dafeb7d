/** The in-memory store of crates/crytex-compress/src/ccr.rs, `ArtifactOffload` of
    crates/crytex-compress/src/token_economy.rs, and runs of offloads. */
module CcrStores {
  import opened Wrappers
  import opened Compression
  import opened Offload

  // `compute_key` is an opaque hash.
  datatype Env = Env(estimate: Estimator, threshold: nat, computeKey: string -> string)

  // Keys are hexadecimal digests cut to 24 characters.
  ghost predicate HexKeys(env: Env) {
    forall content :: IsHexKey(env.computeKey(content))
  }

  predicate IsHexKey(key: string) {
    |key| == 24 && forall i :: 0 <= i < |key| ==> '0' <= key[i] <= '9' || 'a' <= key[i] <= 'f'
  }

  datatype OffloadReport = OffloadReport(kind: ArtifactKind, marker: string, key: Option<string>, originalTokens: nat, compressedTokens: nat)

  predicate IsLarge(env: Env, content: string) {
    var tokens := env.estimate(content);
    tokens.Some? && tokens.value > env.threshold
  }

  function StoreWith(env: Env, store: map<string, string>, content: string): map<string, string> {
    if IsLarge(env, content) then store[env.computeKey(content) := content] else store
  }

  function MarkerOf(env: Env, kind: ArtifactKind, content: string): string
    requires IsLarge(env, content)
  {
    Marker(kind, env.estimate(content).value, content, env.computeKey(content))
  }

  // The report on an artifact; None when estimating fails, which for a large one can happen after it was stored.
  function ReportOn(env: Env, kind: ArtifactKind, content: string): Option<OffloadReport> {
    match env.estimate(content)
    case None => None
    case Some(tokens) =>
      if tokens <= env.threshold then Some(OffloadReport(kind, content, None, tokens, tokens))
      else
        match env.estimate(MarkerOf(env, kind, content))
        case None => None
        case Some(compressed) =>
          Some(OffloadReport(kind, MarkerOf(env, kind, content), Some(env.computeKey(content)), tokens, compressed))
  }

  function Retrieve(store: map<string, string>, marker: string): Option<string> {
    match ParseMarker(marker)
    case None => None
    case Some(key) => if key in store then Some(store[key]) else None
  }

  class InMemoryCcrStore {
    var data: map<string, string>

    constructor ()
      ensures data == map[]
    {
      data := map[];
    }

    method Put(key: string, content: string)
      modifies this
      ensures data == old(data)[key := content]
    {
      data := data[key := content];
    }

    method Get(key: string) returns (r: Option<string>)
      ensures r == if key in data then Some(data[key]) else None
    {
      r := if key in data then Some(data[key]) else None;
    }
  }

  method RetrieveFrom(store: InMemoryCcrStore, marker: string) returns (r: Option<string>)
    ensures r == Retrieve(store.data, marker)
  {
    var key := ParseMarker(marker);
    if key.None? {
      return None;
    }
    r := store.Get(key.value);
  }

  class ArtifactOffload {
    const store: InMemoryCcrStore
    const env: Env

    constructor (store: InMemoryCcrStore, env: Env)
      ensures this.store == store && this.env == env
    {
      this.store, this.env := store, env;
    }

    method Offload(kind: ArtifactKind, content: string) returns (r: Option<OffloadReport>)
      modifies store
      ensures store.data == StoreWith(env, old(store.data), content)
      ensures r == ReportOn(env, kind, content)
    {
      var originalTokens := env.estimate(content);
      if originalTokens.None? {
        return None;
      }
      if originalTokens.value <= env.threshold {
        return Some(OffloadReport(kind, content, None, originalTokens.value, originalTokens.value));
      }
      var key := env.computeKey(content);
      store.Put(key, content);
      var marker := Marker(kind, originalTokens.value, content, key);
      var compressedTokens := env.estimate(marker);
      if compressedTokens.None? {
        return None;
      }
      r := Some(OffloadReport(kind, marker, Some(key), originalTokens.value, compressedTokens.value));
    }
  }

  // ----- runs of offloads -----

  function StoreAfter(env: Env, contents: seq<string>): map<string, string> {
    if contents == [] then map[]
    else StoreWith(env, StoreAfter(env, contents[..|contents| - 1]), contents[|contents| - 1])
  }

  // Content `j` is the last large one whose key is `key`.
  ghost predicate LastUnder(env: Env, contents: seq<string>, key: string, j: nat) {
    && j < |contents| && IsLarge(env, contents[j]) && env.computeKey(contents[j]) == key
    && forall k :: j < k < |contents| && IsLarge(env, contents[k]) ==> env.computeKey(contents[k]) != key
  }

  // The store holds under a key the last large content that has it.
  lemma {:induction false} StoreHoldsLast(env: Env, contents: seq<string>, i: nat) returns (j: nat)
    requires i < |contents| && IsLarge(env, contents[i])
    ensures i <= j && LastUnder(env, contents, env.computeKey(contents[i]), j)
    ensures var key := env.computeKey(contents[i]);
            key in StoreAfter(env, contents) && StoreAfter(env, contents)[key] == contents[j]
    decreases |contents|
  {
    var n := |contents| - 1;
    if IsLarge(env, contents[n]) && env.computeKey(contents[n]) == env.computeKey(contents[i]) {
      j := n;
    } else {
      assert contents[..n][i] == contents[i];
      j := StoreHoldsLast(env, contents[..n], i);
    }
  }

  lemma HexIsKey(env: Env, content: string)
    requires HexKeys(env)
    ensures IsKey(env.computeKey(content))
  {
    var key := env.computeKey(content);
    assert IsHexKey(key);
  }

  // After any run of offloads, the marker of any large artifact retrieves the last content stored under its
  // key: its own content exactly when that one is equal to it.
  lemma MarkerRetrieves(env: Env, contents: seq<string>, i: nat, kind: ArtifactKind) returns (j: nat)
    requires HexKeys(env) && i < |contents| && IsLarge(env, contents[i])
    ensures i <= j && LastUnder(env, contents, env.computeKey(contents[i]), j)
    ensures Retrieve(StoreAfter(env, contents), MarkerOf(env, kind, contents[i])) == Some(contents[j])
  {
    HexIsKey(env, contents[i]);
    MarkerParses(kind, env.estimate(contents[i]).value, contents[i], env.computeKey(contents[i]));
    j := StoreHoldsLast(env, contents, i);
  }

  ghost predicate RetrievesOwn(env: Env, contents: seq<string>, i: nat, kind: ArtifactKind)
    requires i < |contents| && IsLarge(env, contents[i])
  {
    Retrieve(StoreAfter(env, contents), MarkerOf(env, kind, contents[i])) == Some(contents[i])
  }

  ghost predicate Collide(env: Env, contents: seq<string>, a: nat, b: nat)
    requires a < |contents| && b < |contents|
  {
    && IsLarge(env, contents[a]) && IsLarge(env, contents[b])
    && env.computeKey(contents[a]) == env.computeKey(contents[b]) && contents[a] != contents[b]
  }

  // Every marker emitted in a run retrieves its own content if and only if no two different large contents share a key.
  lemma MarkersRetrieveOwnIff(env: Env, contents: seq<string>, kinds: seq<ArtifactKind>)
    requires HexKeys(env) && |kinds| == |contents|
    ensures (forall i :: 0 <= i < |contents| && IsLarge(env, contents[i]) ==> RetrievesOwn(env, contents, i, kinds[i])) <==>
            (forall a, b :: 0 <= a < b < |contents| ==> !Collide(env, contents, a, b))
  {
    forall i | 0 <= i < |contents| && IsLarge(env, contents[i]) && !RetrievesOwn(env, contents, i, kinds[i])
      ensures exists a, b :: 0 <= a < b < |contents| && Collide(env, contents, a, b)
    {
      var j := MarkerRetrieves(env, contents, i, kinds[i]);
      assert i < j && Collide(env, contents, i, j);
    }
    forall a, b | 0 <= a < b < |contents| && Collide(env, contents, a, b)
      ensures !RetrievesOwn(env, contents, a, kinds[a]) || !RetrievesOwn(env, contents, b, kinds[b])
    {
      OneRetrieved(env, contents, a, b, kinds[a], kinds[b]);
    }
  }

  // Of two contents under one key at most one is retrieved.
  lemma OneRetrieved(env: Env, contents: seq<string>, a: nat, b: nat, kind: ArtifactKind, other: ArtifactKind)
    requires HexKeys(env) && a < |contents| && b < |contents| && Collide(env, contents, a, b)
    ensures !RetrievesOwn(env, contents, a, kind) || !RetrievesOwn(env, contents, b, other)
  {
    HexIsKey(env, contents[a]);
    var key := env.computeKey(contents[a]);
    MarkerParses(kind, env.estimate(contents[a]).value, contents[a], key);
    MarkerParses(other, env.estimate(contents[b]).value, contents[b], key);
    hide ParseMarker, Marker, StoreAfter, HexKeys;
  }

  // Two contents, one key: after both are offloaded, the first marker retrieves the second content.
  lemma CollidingMarker(kind: ArtifactKind)
    ensures var env := Env(s => Some(|s|), 0, s => "000000000000000000000000");
            HexKeys(env) && IsLarge(env, "a") && Collide(env, ["a", "b"], 0, 1)
            && Retrieve(StoreAfter(env, ["a", "b"]), MarkerOf(env, kind, "a")) == Some("b")
  {
    var env := Env(s => Some(|s|), 0, s => "000000000000000000000000");
    var contents := ["a", "b"];
    var j := MarkerRetrieves(env, contents, 0, kind);
    assert IsLarge(env, contents[1]) && env.computeKey(contents[1]) == env.computeKey(contents[0]);
    assert j == 1;
  }
}
