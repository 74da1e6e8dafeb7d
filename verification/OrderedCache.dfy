/** A map of time-stamped entries kept beside a deque of its keys, as in `SharedContext` of
    crates/crytex-compress/src/token_economy.rs, and the plain queue the pair stands for. */
module OrderedCache {

  datatype Entry<K, P> = Entry(key: K, createdAt: nat, payload: P)

  datatype Cache<K(==), P> = Cache(entries: map<K, Entry<K, P>>, order: seq<K>)

  predicate IsExpired<K, P>(ttl: nat, e: Entry<K, P>, now: nat) {
    now - e.createdAt > ttl
  }

  function ExpiredKeys<K, P>(ttl: nat, entries: map<K, Entry<K, P>>, now: nat): set<K> {
    set k | k in entries && IsExpired(ttl, entries[k], now)
  }

  // The order without some keys.
  function Without<K>(order: seq<K>, keys: set<K>): seq<K> {
    if order == [] then []
    else if order[0] in keys then Without(order[1..], keys)
    else [order[0]] + Without(order[1..], keys)
  }

  // The cache without its expired entries.
  function Expire<K, P>(ttl: nat, c: Cache<K, P>, now: nat): Cache<K, P> {
    var gone := ExpiredKeys(ttl, c.entries, now);
    Cache(c.entries - gone, Without(c.order, gone))
  }

  function WithoutOldest<K, P>(c: Cache<K, P>): Cache<K, P>
    requires c.order != []
  {
    Cache(c.entries - {c.order[0]}, c.order[1..])
  }

  // The cache after eviction: drop from the front until there is room for one more entry.
  function Evict<K, P>(max: nat, c: Cache<K, P>): Cache<K, P>
    requires max >= 1 && forall k :: k in c.entries ==> k in c.order
    decreases |c.order|
  {
    if |c.entries| < max then c
    else
      SomeKey(c);
      Evict(max, WithoutOldest(c))
  }

  lemma SomeKey<K, P>(c: Cache<K, P>)
    requires |c.entries| >= 1 && forall k :: k in c.entries ==> k in c.order
    ensures c.order != []
  {
    assert c.entries.Keys != {};
    var k :| k in c.entries;
  }

  function Update<K, P>(c: Cache<K, P>, key: K, payload: P): Cache<K, P>
    requires key in c.entries
  {
    c.(entries := c.entries[key := c.entries[key].(payload := payload)])
  }

  function Append<K, P>(c: Cache<K, P>, e: Entry<K, P>): Cache<K, P> {
    Cache(c.entries[e.key := e], c.order + [e.key])
  }

  // ----- the map and the order agree -----

  ghost predicate Distinct<K>(order: seq<K>) {
    forall i, j :: 0 <= i < j < |order| ==> order[i] != order[j]
  }

  // `order` lists exactly the keys of `entries`, once each.
  ghost predicate Agrees<K, P>(c: Cache<K, P>) {
    && Distinct(c.order)
    && (forall i :: 0 <= i < |c.order| ==> c.order[i] in c.entries) && (forall k :: k in c.entries ==> k in c.order)
    && (forall k :: k in c.entries ==> c.entries[k].key == k)
  }

  // The live entries, oldest first: what the map and the order stand for.
  function Queue<K, P>(c: Cache<K, P>): (q: seq<Entry<K, P>>)
    requires Agrees(c)
    ensures |q| == |c.order| && forall i :: 0 <= i < |q| ==> q[i] == c.entries[c.order[i]]
  {
    seq(|c.order|, i requires 0 <= i < |c.order| => c.entries[c.order[i]])
  }

  // Older entries come first, and none is younger than `now`.
  ghost predicate Aged<K, P>(q: seq<Entry<K, P>>, now: nat) {
    && (forall i :: 0 <= i < |q| ==> q[i].createdAt <= now)
    && (forall i, j :: 0 <= i < j < |q| ==> q[i].createdAt <= q[j].createdAt)
  }

  // ----- the operations on the plain queue -----

  function DropExpired<K, P>(ttl: nat, q: seq<Entry<K, P>>, now: nat): seq<Entry<K, P>> {
    if q != [] && IsExpired(ttl, q[0], now) then DropExpired(ttl, q[1..], now) else q
  }

  function LastFew<K, P>(q: seq<Entry<K, P>>, n: nat): seq<Entry<K, P>> {
    if |q| <= n then q else q[|q| - n..]
  }

  ghost predicate HasKey<K, P>(q: seq<Entry<K, P>>, key: K) {
    exists i :: 0 <= i < |q| && q[i].key == key
  }

  function Touch<K(==), P>(q: seq<Entry<K, P>>, key: K, payload: P): seq<Entry<K, P>> {
    if q == [] then []
    else if q[0].key == key then [q[0].(payload := payload)] + q[1..]
    else [q[0]] + Touch(q[1..], key, payload)
  }

  // ----- the pair does to the queue what the operations say -----

  lemma {:induction false} OrderCounts<K>(order: seq<K>, keys: set<K>)
    requires Distinct(order) && forall k :: k in keys <==> k in order
    ensures |order| == |keys|
  {
    if order == [] {
      assert keys == {};
    } else {
      assert order == [order[0]] + order[1..] && order[0] !in order[1..];
      OrderCounts(order[1..], keys - {order[0]});
    }
  }

  lemma AgreeingSize<K, P>(c: Cache<K, P>)
    requires Agrees(c)
    ensures |c.entries| == |c.order|
  {
    assert forall k :: k in c.entries.Keys <==> k in c.order;
    OrderCounts(c.order, c.entries.Keys);
  }

  lemma OldestLeaves<K, P>(c: Cache<K, P>)
    requires Agrees(c) && c.order != []
    ensures var c' := WithoutOldest(c);
            Agrees(c') && Queue(c') == Queue(c)[1..] && |c'.entries| == |c.entries| - 1
  {
    OldestLeavesAgrees(c);
    hide Agrees, WithoutOldest;
    SameQueue(Queue(WithoutOldest(c)), Queue(c)[1..]);
  }

  lemma SameQueue<K, P>(q: seq<Entry<K, P>>, q': seq<Entry<K, P>>)
    requires |q| == |q'| && forall i :: 0 <= i < |q| ==> q[i] == q'[i]
    ensures q == q'
  {
  }

  lemma OldestLeavesAgrees<K, P>(c: Cache<K, P>)
    requires Agrees(c) && c.order != []
    ensures var c' := WithoutOldest(c);
            && Agrees(c') && |c'.entries| == |c.entries| - 1 && |c'.order| == |c.order| - 1
            && forall i :: 0 <= i < |c'.order| ==> c'.order[i] in c'.entries && c'.entries[c'.order[i]] == c.entries[c.order[i + 1]]
  {
    var c' := WithoutOldest(c);
    assert c'.entries.Keys == c.entries.Keys - {c.order[0]};
    assert |c'.entries| == |c'.entries.Keys| && |c.entries| == |c.entries.Keys|;
    forall i | 0 <= i < |c'.order|
      ensures c'.order[i] in c'.entries && c'.entries[c'.order[i]] == c.entries[c.order[i + 1]]
    {
      assert c'.order[i] == c.order[i + 1];
    }
    forall k | k in c'.entries
      ensures k in c'.order
    {
      var i :| 0 <= i < |c.order| && c.order[i] == k;
      assert c'.order[i - 1] == k;
    }
  }

  // Keys that are not listed make no difference.
  lemma {:induction false} WithoutMore<K>(order: seq<K>, keys: set<K>, absent: set<K>)
    requires forall k :: k in absent ==> k !in order
    ensures Without(order, keys) == Without(order, keys - absent)
  {
    if order != [] {
      assert order[0] in order;
      WithoutMore(order[1..], keys, absent);
    }
  }

  lemma {:induction false} WithoutNone<K>(order: seq<K>)
    ensures Without(order, {}) == order
  {
    if order != [] {
      WithoutNone(order[1..]);
    }
  }

  lemma ExpireOldest<K, P>(ttl: nat, c: Cache<K, P>, now: nat)
    requires Agrees(c) && c.order != [] && IsExpired(ttl, c.entries[c.order[0]], now)
    ensures Expire(ttl, c, now) == Expire(ttl, WithoutOldest(c), now)
  {
    var front, c' := c.order[0], WithoutOldest(c);
    var gone, gone' := ExpiredKeys(ttl, c.entries, now), ExpiredKeys(ttl, c'.entries, now);
    assert front !in c.order[1..];
    assert gone' == gone - {front};
    WithoutMore(c.order[1..], gone, {front});
    assert c.entries - gone == c'.entries - gone';
  }

  lemma ExpireNothing<K, P>(ttl: nat, c: Cache<K, P>, now: nat)
    requires Agrees(c) && Aged(Queue(c), now) && (c.order != [] ==> !IsExpired(ttl, c.entries[c.order[0]], now))
    ensures Expire(ttl, c, now) == c
  {
    var gone := ExpiredKeys(ttl, c.entries, now);
    forall k | k in c.entries
      ensures k !in gone
    {
      var i :| 0 <= i < |c.order| && c.order[i] == k;
      assert Queue(c)[0].createdAt <= Queue(c)[i].createdAt;
    }
    WithoutNone(c.order);
    assert gone == {} && c.entries - gone == c.entries;
  }

  // Expired entries are a prefix of the queue, and exactly they leave.
  lemma {:induction false} ExpireIsDrop<K, P>(ttl: nat, c: Cache<K, P>, now: nat)
    requires Agrees(c) && Aged(Queue(c), now)
    ensures Agrees(Expire(ttl, c, now)) && Queue(Expire(ttl, c, now)) == DropExpired(ttl, Queue(c), now)
    decreases |c.order|
  {
    var q := Queue(c);
    if q != [] && IsExpired(ttl, q[0], now) {
      OldestLeaves(c);
      ExpireOldest(ttl, c, now);
      AgedTail(q, now);
      hide Agrees, Aged, Expire, WithoutOldest;
      ExpireIsDrop(ttl, WithoutOldest(c), now);
    } else {
      ExpireNothing(ttl, c, now);
    }
  }

  lemma AgedTail<K, P>(q: seq<Entry<K, P>>, now: nat)
    requires q != [] && Aged(q, now)
    ensures Aged(q[1..], now)
  {
  }

  lemma LastFewOfTail<K, P>(q: seq<Entry<K, P>>, n: nat)
    requires |q| > n
    ensures LastFew(q[1..], n) == LastFew(q, n)
  {
  }

  lemma EvictStep<K, P>(max: nat, c: Cache<K, P>)
    requires max >= 1 && Agrees(c)
    ensures |c.entries| == |Queue(c)|
    ensures |c.entries| < max ==> Evict(max, c) == c
    ensures |c.entries| >= max ==> c.order != [] && Evict(max, c) == Evict(max, WithoutOldest(c))
    ensures |c.entries| >= max ==> Agrees(WithoutOldest(c)) && Queue(WithoutOldest(c)) == Queue(c)[1..]
    ensures |c.entries| >= max ==> |WithoutOldest(c).order| < |c.order|
  {
    AgreeingSize(c);
    if |c.entries| >= max {
      SomeKey(c);
      OldestLeaves(c);
      hide Agrees, Queue;
    }
  }

  lemma {:induction false} EvictAgrees<K, P>(max: nat, c: Cache<K, P>)
    requires max >= 1 && Agrees(c)
    ensures Agrees(Evict(max, c)) && |Evict(max, c).entries| < max
    decreases |c.order|
  {
    EvictStep(max, c);
    hide Agrees, WithoutOldest, Evict;
    if |c.entries| >= max {
      EvictAgrees(max, WithoutOldest(c));
    }
  }

  lemma {:induction false} EvictKeepsLast<K, P>(max: nat, c: Cache<K, P>)
    requires max >= 1 && Agrees(c) && Agrees(Evict(max, c))
    ensures Queue(Evict(max, c)) == LastFew(Queue(c), max - 1)
    decreases |c.order|
  {
    EvictStep(max, c);
    hide Agrees, WithoutOldest, Evict;
    if |c.entries| >= max {
      LastFewOfTail(Queue(c), max - 1);
      hide LastFew;
      EvictKeepsLast(max, WithoutOldest(c));
    }
  }

  // Eviction ends, is first in first out, and stops as soon as there is room.
  lemma EvictIsLastFew<K, P>(max: nat, c: Cache<K, P>)
    requires max >= 1 && Agrees(c)
    ensures Agrees(Evict(max, c)) && Queue(Evict(max, c)) == LastFew(Queue(c), max - 1)
    ensures |Evict(max, c).entries| < max
    ensures var n := if |c.order| < max then |c.order| else max - 1;
            Queue(Evict(max, c)) == Queue(c)[|c.order| - n..]
  {
    EvictAgrees(max, c);
    EvictKeepsLast(max, c);
    hide Evict, Agrees, Queue;
  }

  // One round of the eviction loop, which does nothing more once the order is empty.
  function EvictRound<K, P>(c: Cache<K, P>): Cache<K, P> {
    if c.order == [] then c else WithoutOldest(c)
  }

  function EvictRounds<K, P>(c: Cache<K, P>, n: nat): Cache<K, P>
    decreases n
  {
    if n == 0 then c else EvictRounds(EvictRound(c), n - 1)
  }

  lemma {:induction false} RoundsEmpty<K, P>(c: Cache<K, P>)
    requires Agrees(c)
    ensures |EvictRounds(c, |c.order|).entries| == 0
    decreases |c.order|
  {
    AgreeingSize(c);
    if c.order != [] {
      OldestLeaves(c);
      assert |WithoutOldest(c).order| == |c.order| - 1;
      hide Agrees;
      RoundsEmpty(WithoutOldest(c));
    }
  }

  // The loop gets to a round that leaves room if and only if there may be an entry at all.
  lemma EvictionEndsIff<K, P>(max: nat, c: Cache<K, P>)
    requires Agrees(c)
    ensures (exists n: nat :: |EvictRounds(c, n).entries| < max) <==> max >= 1
  {
    RoundsEmpty(c);
  }

  lemma HasKeyIff<K, P>(c: Cache<K, P>, key: K)
    requires Agrees(c)
    ensures HasKey(Queue(c), key) <==> key in c.entries
  {
    if key in c.entries {
      var i :| 0 <= i < |c.order| && c.order[i] == key;
      assert Queue(c)[i].key == key;
    }
  }

  lemma {:induction false} TouchAt<K, P>(q: seq<Entry<K, P>>, i: nat, payload: P)
    requires i < |q| && forall j :: 0 <= j < i ==> q[j].key != q[i].key
    ensures Touch(q, q[i].key, payload) == q[i := q[i].(payload := payload)]
  {
    if i > 0 {
      TouchAt(q[1..], i - 1, payload);
    }
  }

  lemma UpdateAgrees<K, P>(c: Cache<K, P>, key: K, payload: P) returns (i: nat)
    requires Agrees(c) && key in c.entries
    ensures i < |c.order| && c.order[i] == key && c.entries[key].key == key
    ensures var c' := Update(c, key, payload);
            && Agrees(c') && c'.order == c.order
            && forall j :: 0 <= j < |c.order| && j != i ==>
                 c.order[j] != key && c.entries[c.order[j]].key != key && c'.entries[c.order[j]] == c.entries[c.order[j]]
  {
    i :| 0 <= i < |c.order| && c.order[i] == key;
  }

  lemma UpdateIsTouch<K, P>(c: Cache<K, P>, key: K, payload: P)
    requires Agrees(c) && key in c.entries
    ensures Agrees(Update(c, key, payload)) && Queue(Update(c, key, payload)) == Touch(Queue(c), key, payload)
  {
    var q, q' := Queue(c), Queue(Update(c, key, payload));
    var i := UpdateAgrees(c, key, payload);
    hide Agrees, Queue;
    TouchAt(q, i, payload);
    SameQueue(q', q[i := q[i].(payload := payload)]);
  }

  lemma AppendJoinsAtBack<K, P>(c: Cache<K, P>, e: Entry<K, P>)
    requires Agrees(c) && e.key !in c.entries
    ensures Agrees(Append(c, e)) && Queue(Append(c, e)) == Queue(c) + [e]
  {
    var c' := Append(c, e);
    assert forall i :: 0 <= i < |c.order| ==> c'.order[i] == c.order[i];
    assert c'.order[|c.order|] == e.key;
    forall k | k in c'.entries
      ensures k in c'.order
    {
      if k != e.key {
        assert k in c.order;
      }
    }
  }

  // ----- ages -----

  lemma {:induction false} TouchKeepsAges<K, P>(q: seq<Entry<K, P>>, key: K, payload: P, i: nat)
    requires i < |q|
    ensures |Touch(q, key, payload)| == |q| && Touch(q, key, payload)[i].createdAt == q[i].createdAt
  {
    if q[0].key != key && |q| > 1 {
      TouchKeepsAges(q[1..], key, payload, if i == 0 then 0 else i - 1);
    }
  }

  lemma TouchAged<K, P>(q: seq<Entry<K, P>>, key: K, payload: P, now: nat)
    requires Aged(q, now)
    ensures Aged(Touch(q, key, payload), now) && |Touch(q, key, payload)| == |q|
  {
    if q != [] {
      TouchKeepsAges(q, key, payload, 0);
    }
    forall i: nat | i < |q|
      ensures Touch(q, key, payload)[i].createdAt == q[i].createdAt
    {
      TouchKeepsAges(q, key, payload, i);
    }
    hide Touch;
  }

  lemma AppendAged<K, P>(q: seq<Entry<K, P>>, e: Entry<K, P>, now: nat)
    requires Aged(q, now) && e.createdAt == now
    ensures Aged(q + [e], now)
  {
  }

  lemma LastFewAged<K, P>(q: seq<Entry<K, P>>, n: nat, now: nat)
    requires Aged(q, now)
    ensures Aged(LastFew(q, n), now) && |LastFew(q, n)| <= n
  {
  }

  lemma LaterAged<K, P>(q: seq<Entry<K, P>>, now: nat, later: nat)
    requires Aged(q, now) && now <= later
    ensures Aged(q, later)
  {
  }

  lemma {:induction false} DropAged<K, P>(ttl: nat, q: seq<Entry<K, P>>, now: nat)
    requires Aged(q, now)
    ensures Aged(DropExpired(ttl, q, now), now) && |DropExpired(ttl, q, now)| <= |q|
  {
    if q != [] && IsExpired(ttl, q[0], now) {
      AgedTail(q, now);
      DropAged(ttl, q[1..], now);
    }
  }

  // In a queue by age, what has expired is a prefix: dropping from the front drops every expired entry and
  // no other.
  lemma {:induction false} DropsExactlyExpired<K, P>(ttl: nat, q: seq<Entry<K, P>>, now: nat, e: Entry<K, P>)
    requires Aged(q, now)
    ensures e in DropExpired(ttl, q, now) <==> e in q && now - e.createdAt <= ttl
  {
    if q != [] && IsExpired(ttl, q[0], now) {
      AgedTail(q, now);
      DropsExactlyExpired(ttl, q[1..], now, e);
      assert q == [q[0]] + q[1..];
    }
  }
}
