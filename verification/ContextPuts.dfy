/** What one `put` does to the entries of the shared context, oldest first. */
module ContextPuts {
  import opened Wrappers
  import opened Compression
  import opened OrderedCache
  import opened ContextCache
  import opened ContextProducers

  // The entry for a content: the content, the front of it that is handed out, and what the two are estimated at.
  ghost predicate IsPayload(s: Settings, content: string, agent: Option<string>, p: Payload) {
    && p.original == content && IsFront(s, content, p.compressed)
    && s.estimate(content) == Some(p.originalTokens) && s.estimate(p.compressed) == Some(p.compressedTokens)
    && p.producers == if agent.Some? then [agent.value] else []
  }

  lemma NewPayloadIs(s: Settings, content: string, agent: Option<string>)
    ensures NewPayload(s, content, agent).Some? ==> IsPayload(s, content, agent, NewPayload(s, content, agent).value)
    ensures s.estimate(content).None? ==> NewPayload(s, content, agent).None?
  {
    if NewPayload(s, content, agent).Some? {
      FrontIsKept(s, content, agent);
    }
    hide Compress, IsFront;
  }

  // The d oldest entries are those that have expired.
  ghost predicate Expired(ttl: nat, q: seq<ContextEntry>, now: nat, d: nat) {
    && d <= |q| && (forall i :: 0 <= i < d ==> now - q[i].createdAt > ttl)
    && forall i :: d <= i < |q| ==> now - q[i].createdAt <= ttl
  }

  // Entry i of `live`, which is that of the key, gets another producer, and nothing else changes.
  ghost predicate Shares(live: seq<ContextEntry>, key: string, agent: Option<string>, i: nat, r: seq<ContextEntry>) {
    && i < |live| == |r| && live[i].key == r[i].key == key && r[i].createdAt == live[i].createdAt
    && r[i].payload == live[i].payload.(producers := r[i].payload.producers)
    && r[i].payload.producers ==
       (if agent.Some? && agent.value !in live[i].payload.producers then live[i].payload.producers + [agent.value]
        else live[i].payload.producers)
    && forall j :: 0 <= j < |live| && j != i ==> r[j] == live[j]
  }

  // The oldest entries leave, as many as it takes for there to be no more than allowed, and a new one comes last.
  ghost predicate Joins(s: Settings, live: seq<ContextEntry>, key: string, content: string, agent: Option<string>, now: nat,
      r: seq<ContextEntry>)
  {
    && r != [] && |r| == (if |live| < s.maxEntries then |live| + 1 else s.maxEntries)
    && r[..|r| - 1] == live[|live| + 1 - |r|..]
    && var e := r[|r| - 1];
       e.key == key && e.createdAt == now && IsPayload(s, content, agent, e.payload)
  }

  ghost predicate Knows(live: seq<ContextEntry>, key: string) {
    exists i :: 0 <= i < |live| && live[i].key == key
  }

  lemma {:induction false} DropIsExpired(ttl: nat, q: seq<ContextEntry>, now: nat) returns (d: nat)
    requires Aged(q, now)
    ensures Expired(ttl, q, now, d) && DropExpired(ttl, q, now) == q[d..]
  {
    if q != [] && now - q[0].createdAt > ttl {
      AgedTail(q, now);
      d := DropIsExpired(ttl, q[1..], now);
      d := d + 1;
    } else {
      d := 0;
    }
  }

  lemma {:induction false} TouchShares(live: seq<ContextEntry>, key: string, agent: Option<string>) returns (i: nat)
    requires HasKey(live, key)
    ensures Shares(live, key, agent, i, Touch(live, key, WithProducer(Find(live, key).payload, agent)))
  {
    if live[0].key == key {
      i := 0;
    } else {
      assert HasKey(live[1..], key) by {
        var k :| 0 <= k < |live| && live[k].key == key;
        assert live[1..][k - 1].key == key;
      }
      var k := TouchShares(live[1..], key, agent);
      i := k + 1;
      hide Touch, Find, WithProducer;
      SharesLater(live, key, agent, k, Touch(live[1..], key, WithProducer(Find(live, key).payload, agent)));
    }
  }

  lemma SharesLater(live: seq<ContextEntry>, key: string, agent: Option<string>, k: nat, r: seq<ContextEntry>)
    requires live != [] && Shares(live[1..], key, agent, k, r)
    ensures Shares(live, key, agent, k + 1, [live[0]] + r)
  {
  }

  // What `put` does to the queue: the expired entries leave first, however the call ends. Then, if the content and its front
  // can be estimated, the entry of a known key gets the agent as a producer, and a new key gets an entry.
  lemma PutEffect(s: Settings, q: seq<ContextEntry>, key: string, content: string, agent: Option<string>, now: nat)
    returns (d: nat, i: nat)
    requires s.maxEntries >= 1 && Aged(q, now)
    ensures Expired(s.ttl, q, now, d)
    ensures var live, r := q[d..], QueuePut(s, q, key, content, agent, now);
            if NewPayload(s, content, agent).None? then r == live
            else if Knows(live, key) then Shares(live, key, agent, i, r)
            else Joins(s, live, key, content, agent, now, r)
  {
    i := 0;
    d := DropIsExpired(s.ttl, q, now);
    var live := q[d..];
    assert HasKey(live, key) == Knows(live, key);
    hide NewPayload, Shares, Joins, Expired, Touch, Find, WithProducer, HasKey, Knows, Aged, LastFew, DropExpired;
    if NewPayload(s, content, agent).Some? {
      if HasKey(live, key) {
        i := TouchShares(live, key, agent);
      } else {
        NewJoins(s, live, key, content, agent, now);
      }
    }
  }

  lemma NewJoins(s: Settings, live: seq<ContextEntry>, key: string, content: string, agent: Option<string>, now: nat)
    requires s.maxEntries >= 1 && NewPayload(s, content, agent).Some?
    ensures Joins(s, live, key, content, agent, now,
              LastFew(live, s.maxEntries - 1) + [Entry(key, now, NewPayload(s, content, agent).value)])
  {
    NewPayloadIs(s, content, agent);
    hide NewPayload, IsPayload;
  }
}
