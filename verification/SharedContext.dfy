/** The class `SharedContext` of crates/crytex-compress/src/token_economy.rs, proved against ContextCache.
    The clock of each call is a parameter. */
module SharedContexts {
  import opened Wrappers
  import opened Compression
  import opened OrderedCache
  import opened ContextCache

  datatype PutResult = Stored(entry: ContextEntry) | EstimateFailed

  class SharedContext {
    const settings: Settings
    var entries: map<string, ContextEntry>
    var order: seq<string>
    var cacheHits: nat

    constructor (maxEntries: nat, ttl: nat, estimate: Estimator)
      ensures settings == Settings(maxEntries, ttl, estimate) && State() == Cache(map[], []) && cacheHits == 0
    {
      settings := Settings(maxEntries, ttl, estimate);
      entries, order, cacheHits := map[], [], 0;
    }

    function State(): Context
      reads this
    {
      Cache(entries, order)
    }

    method RemoveExpired(now: nat)
      modifies `entries, `order
      ensures State() == Expire(settings.ttl, old(State()), now)
    {
      var expired := set k | k in entries && now - entries[k].createdAt > settings.ttl;
      ghost var gone := ExpiredKeys(settings.ttl, entries, now);
      assert expired == gone;
      ghost var done: set<string> := {};
      assert Without(order, {}) == order by { WithoutNone(order); }
      while expired != {}
        invariant gone == done + expired && done !! expired
        invariant entries == old(entries) - done && order == Without(old(order), done)
        decreases expired
      {
        var key :| key in expired;
        expired := expired - {key};
        entries := entries - {key};
        Retain(key);
        WithoutTwice(old(order), done, key);
        done := done + {key};
        assert old(entries) - done == entries;
      }
      assert done == gone;
    }

    // Takes a key out of the order.
    method Retain(key: string)
      modifies `order
      ensures order == Without(old(order), {key})
    {
      var kept: seq<string> := [];
      for i := 0 to |order|
        invariant order == old(order)
        invariant Without(order, {key}) == kept + Without(order[i..], {key})
      {
        assert order[i..][1..] == order[i + 1..];
        if order[i] != key {
          kept := kept + [order[i]];
        }
      }
      order := kept;
    }

    // With `maxEntries == 0` this loop would not end: OrderedCache.EvictionEndsIff.
    method EvictIfNeeded()
      requires settings.maxEntries >= 1 && forall k :: k in entries ==> k in order
      modifies `entries, `order
      ensures State() == Evict(settings.maxEntries, old(State()))
    {
      while |entries| >= settings.maxEntries
        invariant forall k :: k in entries ==> k in order
        invariant Evict(settings.maxEntries, State()) == Evict(settings.maxEntries, old(State()))
        decreases |order|
      {
        SomeKey(State());
        var oldest := order[0];
        order := order[1..];
        entries := entries - {oldest};
      }
    }

    method Put(key: string, content: string, agent: Option<string>, now: nat) returns (r: PutResult)
      requires Agrees(Expire(settings.ttl, State(), now))
      requires PutEnds(settings, Expire(settings.ttl, State(), now), key, content, agent)
      modifies `entries, `order, `cacheHits
      ensures State() == ContextCache.Put(settings, old(State()), key, content, agent, now)
      ensures r == if NewPayload(settings, content, agent).None? then EstimateFailed else Stored(State().entries[key])
      ensures cacheHits == old(cacheHits) +
              if r.Stored? && key in Expire(settings.ttl, old(State()), now).entries then 1 else 0
    {
      RemoveExpired(now);
      var originalTokens := settings.estimate(content);
      if originalTokens.None? {
        return EstimateFailed;
      }
      var compressed := Compress(content, [], originalTokens.value / 3);
      var compressedTokens := settings.estimate(compressed);
      if compressedTokens.None? {
        return EstimateFailed;
      }
      if key in entries {
        cacheHits := cacheHits + 1;
        var existing := entries[key];
        if agent.Some? && agent.value !in existing.payload.producers {
          existing := existing.(payload := existing.payload.(producers := existing.payload.producers + [agent.value]));
          entries := entries[key := existing];
        }
        assert entries == Update(Expire(settings.ttl, old(State()), now), key, existing.payload).entries;
        return Stored(existing);
      }
      var producers := if agent.Some? then [agent.value] else [];
      var e := Entry(key, now, Payload(content, compressed, originalTokens.value, compressedTokens.value, producers));
      EvictIfNeeded();
      order := order + [key];
      entries := entries[key := e];
      r := Stored(e);
    }

    method Get(key: string, full: bool, now: nat) returns (r: Option<string>)
      modifies `entries, `order
      ensures State() == Expire(settings.ttl, old(State()), now)
      ensures r == if key !in State().entries then None
                   else Some(if full then State().entries[key].payload.original else State().entries[key].payload.compressed)
    {
      RemoveExpired(now);
      if key !in entries {
        return None;
      }
      r := Some(if full then entries[key].payload.original else entries[key].payload.compressed);
    }
  }

  lemma {:induction false} WithoutTwice(order: seq<string>, keys: set<string>, key: string)
    ensures Without(Without(order, keys), {key}) == Without(order, keys + {key})
  {
    if order != [] {
      WithoutTwice(order[1..], keys, key);
      var rest := Without(order[1..], keys);
      assert ([order[0]] + rest)[1..] == rest;
    }
  }
}
