/** The agent-shared context cache of crates/crytex-compress/src/token_economy.rs: what `put` and `get` do,
    and what holds over whole runs. */
module ContextCache {
  import opened Wrappers
  import opened Compression
  import opened OrderedCache

  datatype Payload = Payload(original: string, compressed: string, originalTokens: nat, compressedTokens: nat, producers: seq<string>)

  type Context = Cache<string, Payload>
  type ContextEntry = Entry<string, Payload>

  datatype Settings = Settings(maxEntries: nat, ttl: nat, estimate: Estimator)

  function WithProducer(p: Payload, agent: Option<string>): Payload {
    if agent.Some? && agent.value !in p.producers then p.(producers := p.producers + [agent.value]) else p
  }

  // What a new entry for `content` holds; None when estimating fails.
  function NewPayload(s: Settings, content: string, agent: Option<string>): Option<Payload> {
    match s.estimate(content)
    case None => None
    case Some(tokens) =>
      var compressed := Compress(content, [], tokens / 3);
      match s.estimate(compressed)
      case None => None
      case Some(compressedTokens) =>
        Some(Payload(content, compressed, tokens, compressedTokens, if agent.Some? then [agent.value] else []))
  }

  // `put` comes to an end: it evicts only for a new entry, and with no room for any entry that would never end.
  predicate PutEnds(s: Settings, live: Context, key: string, content: string, agent: Option<string>) {
    s.maxEntries >= 1 || key in live.entries || NewPayload(s, content, agent).None?
  }

  // The cache after `put`. Estimating comes after the removal of expired entries and before the lookup.
  function Put(s: Settings, c: Context, key: string, content: string, agent: Option<string>, now: nat): Context
    requires Agrees(Expire(s.ttl, c, now)) && PutEnds(s, Expire(s.ttl, c, now), key, content, agent)
  {
    LivePut(s, Expire(s.ttl, c, now), key, content, agent, now)
  }

  function LivePut(s: Settings, live: Context, key: string, content: string, agent: Option<string>, now: nat): Context
    requires Agrees(live) && PutEnds(s, live, key, content, agent)
  {
    match NewPayload(s, content, agent)
    case None => live
    case Some(p) =>
      if key in live.entries then Update(live, key, WithProducer(live.entries[key].payload, agent))
      else Append(Evict(s.maxEntries, live), Entry(key, now, p))
  }

  // `put` on the plain queue: expired entries leave at the front, a known key gets another producer, a new
  // one joins at the back once the oldest have made room.
  ghost function QueuePut(s: Settings, q: seq<ContextEntry>, key: string, content: string, agent: Option<string>, now: nat)
    : seq<ContextEntry>
    requires s.maxEntries >= 1
  {
    LiveQueuePut(s, DropExpired(s.ttl, q, now), key, content, agent, now)
  }

  ghost function LiveQueuePut(s: Settings, live: seq<ContextEntry>, key: string, content: string, agent: Option<string>, now: nat)
    : seq<ContextEntry>
    requires s.maxEntries >= 1
  {
    match NewPayload(s, content, agent)
    case None => live
    case Some(p) =>
      if HasKey(live, key) then Touch(live, key, WithProducer(Find(live, key).payload, agent))
      else LastFew(live, s.maxEntries - 1) + [Entry(key, now, p)]
  }

  function Find(q: seq<ContextEntry>, key: string): ContextEntry
    requires HasKey(q, key)
  {
    if q[0].key == key then q[0]
    else
      assert HasKey(q[1..], key) by { var i :| 0 <= i < |q| && q[i].key == key; assert q[1..][i - 1].key == key; }
      Find(q[1..], key)
  }

  lemma {:induction false} FindAt(q: seq<ContextEntry>, key: string, i: nat)
    requires HasKey(q, key) && i < |q| && q[i].key == key && forall j :: 0 <= j < i ==> q[j].key != key
    ensures Find(q, key) == q[i]
  {
    if i > 0 {
      assert q[1..][i - 1].key == key;
      FindAt(q[1..], key, i - 1);
    }
  }

  lemma FindIsLookup(c: Context, key: string)
    requires Agrees(c) && key in c.entries
    ensures HasKey(Queue(c), key) && Find(Queue(c), key) == c.entries[key]
  {
    HasKeyIff(c, key);
    var i :| 0 <= i < |c.order| && c.order[i] == key;
    FindAt(Queue(c), key, i);
  }

  // What every operation keeps: the map and the deque agree, the cache is no larger than allowed, and
  // entries lie by age.
  ghost predicate Healthy(s: Settings, c: Context, now: nat) {
    Agrees(c) && |Queue(c)| <= s.maxEntries && Aged(Queue(c), now)
  }

  lemma HealthySize(s: Settings, c: Context, now: nat)
    requires Healthy(s, c, now)
    ensures |c.entries| == |c.order| <= s.maxEntries
  {
    AgreeingSize(c);
  }

  lemma ExpireHealthy(s: Settings, c: Context, now: nat)
    requires Healthy(s, c, now)
    ensures Healthy(s, Expire(s.ttl, c, now), now)
    ensures Queue(Expire(s.ttl, c, now)) == DropExpired(s.ttl, Queue(c), now)
  {
    ExpireIsDrop(s.ttl, c, now);
    DropAged(s.ttl, Queue(c), now);
  }

  lemma TouchRefines(s: Settings, live: Context, key: string, payload: Payload, now: nat)
    requires Healthy(s, live, now) && key in live.entries
    ensures Healthy(s, Update(live, key, payload), now) && Queue(Update(live, key, payload)) == Touch(Queue(live), key, payload)
  {
    UpdateIsTouch(live, key, payload);
    TouchAged(Queue(live), key, payload, now);
  }

  lemma EvictRefines(s: Settings, live: Context, key: string, now: nat)
    requires s.maxEntries >= 1 && Healthy(s, live, now) && key !in live.entries
    ensures var roomy := Evict(s.maxEntries, live);
            && Agrees(roomy) && Queue(roomy) == LastFew(Queue(live), s.maxEntries - 1) && key !in roomy.entries
            && Aged(Queue(roomy), now) && |Queue(roomy)| < s.maxEntries
  {
    EvictIsLastFew(s.maxEntries, live);
    LastFewAged(Queue(live), s.maxEntries - 1, now);
    StillAbsent(s.maxEntries, live, key);
  }

  lemma AppendRefines(s: Settings, roomy: Context, e: ContextEntry, now: nat)
    requires Agrees(roomy) && Aged(Queue(roomy), now) && |Queue(roomy)| < s.maxEntries
    requires e.key !in roomy.entries && e.createdAt == now
    ensures Healthy(s, Append(roomy, e), now) && Queue(Append(roomy, e)) == Queue(roomy) + [e]
  {
    AppendJoinsAtBack(roomy, e);
    AppendAged(Queue(roomy), e, now);
  }

  // `put` keeps the cache healthy and does to the queue exactly what QueuePut says.
  lemma PutRefinesQueue(s: Settings, c: Context, key: string, content: string, agent: Option<string>, now: nat)
    requires s.maxEntries >= 1 && Healthy(s, c, now)
    ensures Agrees(Expire(s.ttl, c, now))
    ensures var c' := Put(s, c, key, content, agent, now);
            Healthy(s, c', now) && Queue(c') == QueuePut(s, Queue(c), key, content, agent, now)
  {
    ExpireHealthy(s, c, now);
    LivePutRefines(s, Expire(s.ttl, c, now), key, content, agent, now);
  }

  // The same once expired entries are gone.
  lemma LivePutRefines(s: Settings, live: Context, key: string, content: string, agent: Option<string>, now: nat)
    requires s.maxEntries >= 1 && Healthy(s, live, now)
    ensures var c' := LivePut(s, live, key, content, agent, now);
            Healthy(s, c', now) && Queue(c') == LiveQueuePut(s, Queue(live), key, content, agent, now)
  {
    HasKeyIff(live, key);
    var p := NewPayload(s, content, agent);
    if p.Some? && key in live.entries {
      FindIsLookup(live, key);
      TouchRefines(s, live, key, WithProducer(live.entries[key].payload, agent), now);
    } else if p.Some? {
      EvictRefines(s, live, key, now);
      AppendRefines(s, Evict(s.maxEntries, live), Entry(key, now, p.value), now);
    }
  }

  lemma {:induction false} StillAbsent(max: nat, c: Context, key: string)
    requires max >= 1 && (forall k :: k in c.entries ==> k in c.order) && key !in c.entries
    ensures key !in Evict(max, c).entries
    decreases |c.order|
  {
    if |c.entries| >= max {
      SomeKey(c);
      StillAbsent(max, WithoutOldest(c), key);
    }
  }

  // ----- runs -----

  datatype Operation =
    | PutOp(key: string, content: string, agent: Option<string>, now: nat)
    | GetOp(key: string, full: bool, now: nat)

  function Perform(s: Settings, c: Context, op: Operation): Context
    requires s.maxEntries >= 1 && Agrees(Expire(s.ttl, c, op.now))
  {
    match op
    case PutOp(key, content, agent, now) => Put(s, c, key, content, agent, now)
    case GetOp(_, _, now) => Expire(s.ttl, c, now)
  }

  // The clock never goes back.
  ghost predicate InOrder(ops: seq<Operation>) {
    forall i, j :: 0 <= i < j < |ops| ==> ops[i].now <= ops[j].now
  }

  // The cache after a run from an empty one.
  ghost function Run(s: Settings, ops: seq<Operation>): (c: Context)
    requires s.maxEntries >= 1 && InOrder(ops)
    ensures Healthy(s, c, if ops == [] then 0 else ops[|ops| - 1].now)
  {
    if ops == [] then Cache(map[], [])
    else
      var before, op := Run(s, ops[..|ops| - 1]), ops[|ops| - 1];
      StepHealthy(s, before, if |ops| == 1 then 0 else ops[|ops| - 2].now, op);
      Perform(s, before, op)
  }

  lemma StepHealthy(s: Settings, c: Context, last: nat, op: Operation)
    requires s.maxEntries >= 1 && Healthy(s, c, last) && last <= op.now
    ensures Healthy(s, c, op.now) && Agrees(Expire(s.ttl, c, op.now)) && Healthy(s, Perform(s, c, op), op.now)
  {
    LaterAged(Queue(c), last, op.now);
    ExpireHealthy(s, c, op.now);
    if op.PutOp? {
      PutRefinesQueue(s, c, op.key, op.content, op.agent, op.now);
    }
  }

  // Operation `i` of the run creates the entry of `key`.
  ghost predicate Creates(s: Settings, ops: seq<Operation>, i: nat, key: string)
    requires s.maxEntries >= 1 && InOrder(ops) && i < |ops|
  {
    && ops[i].PutOp? && ops[i].key == key && NewPayload(s, ops[i].content, ops[i].agent).Some?
    && key !in Expire(s.ttl, Run(s, ops[..i]), ops[i].now).entries
  }

  // Operation `i` is the last one that creates it.
  ghost predicate LastCreates(s: Settings, ops: seq<Operation>, i: nat, key: string)
    requires s.maxEntries >= 1 && InOrder(ops)
  {
    i < |ops| && Creates(s, ops, i, key) && forall j :: i < j < |ops| ==> !Creates(s, ops, j, key)
  }

  // `e` is as operation `i` created it, other agents having been added since.
  ghost predicate MadeBy(s: Settings, op: Operation, e: ContextEntry)
    requires op.PutOp?
  {
    var p := NewPayload(s, op.content, op.agent);
    p.Some? && e.key == op.key && e.createdAt == op.now && e.payload == p.value.(producers := e.payload.producers)
  }

  lemma RunSnoc(s: Settings, ops: seq<Operation>)
    requires s.maxEntries >= 1 && InOrder(ops) && ops != []
    ensures var before, op := ops[..|ops| - 1], ops[|ops| - 1];
            Agrees(Expire(s.ttl, Run(s, before), op.now)) && Run(s, ops) == Perform(s, Run(s, before), op)
  {
    StepHealthy(s, Run(s, ops[..|ops| - 1]), if |ops| == 1 then 0 else ops[|ops| - 2].now, ops[|ops| - 1]);
  }

  lemma CreatesInPrefix(s: Settings, ops: seq<Operation>, n: nat, i: nat, key: string)
    requires s.maxEntries >= 1 && InOrder(ops) && i < n <= |ops|
    ensures Creates(s, ops[..n], i, key) <==> Creates(s, ops, i, key)
  {
    assert ops[..n][..i] == ops[..i];
  }

  lemma JustCreated(s: Settings, c: Context, op: Operation)
    requires s.maxEntries >= 1 && Agrees(Expire(s.ttl, c, op.now)) && op.PutOp? && NewPayload(s, op.content, op.agent).Some?
    requires op.key !in Expire(s.ttl, c, op.now).entries
    ensures op.key in Perform(s, c, op).entries && MadeBy(s, op, Perform(s, c, op).entries[op.key])
  {
  }

  // The last operation creates the entry or leaves it as it was, producers aside.
  lemma LastOperation(s: Settings, ops: seq<Operation>, key: string)
    requires s.maxEntries >= 1 && InOrder(ops) && ops != [] && key in Run(s, ops).entries
    ensures var n := |ops| - 1;
            var before := Run(s, ops[..n]);
            if Creates(s, ops, n, key) then MadeBy(s, ops[n], Run(s, ops).entries[key])
            else key in before.entries && forall made: Operation :: made.PutOp? && MadeBy(s, made, before.entries[key]) ==>
                   MadeBy(s, made, Run(s, ops).entries[key])
  {
    var n := |ops| - 1;
    RunSnoc(s, ops);
    var before, op := Run(s, ops[..n]), ops[n];
    assert Creates(s, ops, n, key) <==>
      op.PutOp? && op.key == key && NewPayload(s, op.content, op.agent).Some? && key !in Expire(s.ttl, before, op.now).entries;
    hide Expire, Perform, Agrees, Run, NewPayload, MadeBy, Creates, InOrder;
    if Creates(s, ops, n, key) {
      JustCreated(s, before, op);
    } else {
      NotNew(s, before, op, key);
    }
  }

  // Every live entry still holds what the last put that created it stored.
  lemma {:induction false} LiveEntryOrigin(s: Settings, ops: seq<Operation>, key: string) returns (i: nat)
    requires s.maxEntries >= 1 && InOrder(ops) && key in Run(s, ops).entries
    ensures LastCreates(s, ops, i, key) && MadeBy(s, ops[i], Run(s, ops).entries[key])
    decreases |ops|
  {
    assert ops != [];
    LastOperation(s, ops, key);
    var n := |ops| - 1;
    var before := ops[..n];
    assert InOrder(before);
    hide Run, MadeBy, InOrder;
    if Creates(s, ops, n, key) {
      i := n;
    } else {
      i := LiveEntryOrigin(s, before, key);
      CreatedBefore(s, ops, key, i);
    }
  }

  lemma CreatedBefore(s: Settings, ops: seq<Operation>, key: string, i: nat)
    requires s.maxEntries >= 1 && InOrder(ops) && ops != [] && InOrder(ops[..|ops| - 1])
    requires !Creates(s, ops, |ops| - 1, key) && LastCreates(s, ops[..|ops| - 1], i, key)
    ensures LastCreates(s, ops, i, key)
  {
    hide Creates, InOrder, Run;
    CreatesInPrefix(s, ops, |ops| - 1, i, key);
    forall j | i < j < |ops|
      ensures !Creates(s, ops, j, key)
    {
      if j < |ops| - 1 {
        CreatesInPrefix(s, ops, |ops| - 1, j, key);
      }
    }
  }

  // An operation that does not create the entry of `key` leaves it, producers aside, or removes it.
  lemma NotNew(s: Settings, c: Context, op: Operation, key: string)
    requires s.maxEntries >= 1 && Agrees(Expire(s.ttl, c, op.now)) && key in Perform(s, c, op).entries
    requires !(op.PutOp? && op.key == key && NewPayload(s, op.content, op.agent).Some? && key !in Expire(s.ttl, c, op.now).entries)
    ensures key in c.entries
    ensures forall made: Operation :: made.PutOp? && MadeBy(s, made, c.entries[key]) ==> MadeBy(s, made, Perform(s, c, op).entries[key])
  {
    if op.PutOp? && NewPayload(s, op.content, op.agent).Some? {
      EvictShrinks(s.maxEntries, Expire(s.ttl, c, op.now));
    }
  }

  lemma {:induction false} EvictShrinks(max: nat, c: Context)
    requires max >= 1 && forall k :: k in c.entries ==> k in c.order
    ensures forall k :: k in Evict(max, c).entries ==> k in c.entries && Evict(max, c).entries[k] == c.entries[k]
    decreases |c.order|
  {
    if |c.entries| >= max {
      SomeKey(c);
      EvictShrinks(max, WithoutOldest(c));
    }
  }

  // What `get(key, true)` returns after a run is the content of the put that created the live entry.
  lemma FullGetReturnsContent(s: Settings, ops: seq<Operation>, key: string, now: nat)
    requires s.maxEntries >= 1 && InOrder(ops) && key in Expire(s.ttl, Run(s, ops), now).entries
    ensures exists i :: 0 <= i < |ops| && LastCreates(s, ops, i, key)
                        && Expire(s.ttl, Run(s, ops), now).entries[key].payload.original == ops[i].content
  {
    var i := LiveEntryOrigin(s, ops, key);
  }
}
