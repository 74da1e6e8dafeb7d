/** Which agents a live entry of the shared context lists, and what `get` returns for it. */
module ContextProducers {
  import opened Wrappers
  import opened Numbers
  import opened Compression
  import opened OrderedCache
  import opened ContextCache

  // The agent of a put under the key, if it names one and the cache can estimate the content.
  function AgentOf(s: Settings, op: Operation, key: string): (r: seq<string>)
    ensures |r| <= 1
  {
    if op.PutOp? && op.key == key && op.agent.Some? && NewPayload(s, op.content, op.agent).Some? then [op.agent.value] else []
  }

  function Agents(s: Settings, ops: seq<Operation>, key: string): seq<string> {
    if ops == [] then [] else Agents(s, ops[..|ops| - 1], key) + AgentOf(s, ops[|ops| - 1], key)
  }

  // `some` has every element of `all` once, in the order in which they first appear there; `at` says where.
  ghost predicate AreFirsts(some: seq<string>, all: seq<string>, at: seq<nat>) {
    && |at| == |some|
    && (forall j, k :: 0 <= j < k < |at| ==> at[j] < at[k])
    && (forall j :: 0 <= j < |at| ==> at[j] < |all| && all[at[j]] == some[j] && some[j] !in all[..at[j]])
    && (forall x :: x in all ==> x in some)
  }

  lemma OneMore(some: seq<string>, all: seq<string>, at: seq<nat>, x: string) returns (at': seq<nat>)
    requires AreFirsts(some, all, at)
    ensures AreFirsts(if x in some then some else some + [x], all + [x], at')
  {
    at' := if x in some then at else at + [|all|];
    assert forall j :: 0 <= j < |at| ==> (all + [x])[..at[j]] == all[..at[j]];
    assert (all + [x])[..|all|] == all;
    if x in all {
      assert x in some;
    }
  }

  function Joined(producers: seq<string>, agent: seq<string>): seq<string>
    requires |agent| <= 1
  {
    if agent == [] || agent[0] in producers then producers else producers + agent
  }

  lemma LiveProducers(s: Settings, live: Context, op: Operation, key: string)
    requires s.maxEntries >= 1 && Agrees(live) && op.PutOp?
    requires key in LivePut(s, live, op.key, op.content, op.agent, op.now).entries
    requires op.key != key || NewPayload(s, op.content, op.agent).None? || key in live.entries
    ensures key in live.entries
    ensures LivePut(s, live, op.key, op.content, op.agent, op.now).entries[key].payload.producers
      == Joined(live.entries[key].payload.producers, AgentOf(s, op, key))
  {
    EvictShrinks(s.maxEntries, live);
    hide NewPayload, Evict, Agrees;
  }

  // An operation that does not create the entry adds at most its agent.
  lemma ProducersAfter(s: Settings, c: Context, op: Operation, key: string)
    requires s.maxEntries >= 1 && Agrees(Expire(s.ttl, c, op.now)) && key in Perform(s, c, op).entries
    requires !(op.PutOp? && op.key == key && NewPayload(s, op.content, op.agent).Some? && key !in Expire(s.ttl, c, op.now).entries)
    ensures key in c.entries
    ensures Perform(s, c, op).entries[key].payload.producers
      == Joined(c.entries[key].payload.producers, AgentOf(s, op, key))
  {
    var live := Expire(s.ttl, c, op.now);
    assert live.entries == c.entries - ExpiredKeys(s.ttl, c.entries, op.now);
    hide Expire, ExpiredKeys, Agrees, LivePut, NewPayload;
    if op.PutOp? {
      LiveProducers(s, live, op, key);
    }
  }

  lemma NewProducers(s: Settings, c: Context, op: Operation)
    requires s.maxEntries >= 1 && Agrees(Expire(s.ttl, c, op.now)) && op.PutOp? && NewPayload(s, op.content, op.agent).Some?
    requires op.key !in Expire(s.ttl, c, op.now).entries
    ensures op.key in Perform(s, c, op).entries
    ensures Perform(s, c, op).entries[op.key].payload.producers == AgentOf(s, op, op.key)
  {
  }

  lemma AgentsOneMore(s: Settings, ops: seq<Operation>, i: nat, key: string)
    requires i < |ops|
    ensures Agents(s, ops[i..], key) == Agents(s, ops[..|ops| - 1][i..], key) + AgentOf(s, ops[|ops| - 1], key)
  {
    assert ops[i..][..|ops| - i - 1] == ops[..|ops| - 1][i..];
  }

  // The last operation creates the entry with its agent, or adds that to the entry there is.
  lemma LastProducers(s: Settings, ops: seq<Operation>, key: string)
    requires s.maxEntries >= 1 && InOrder(ops) && ops != [] && key in Run(s, ops).entries
    ensures var n := |ops| - 1;
            var (before, agent, after) := (Run(s, ops[..n]), AgentOf(s, ops[n], key), Run(s, ops).entries[key].payload.producers);
            if Creates(s, ops, n, key) then after == agent
            else key in before.entries && after == Joined(before.entries[key].payload.producers, agent)
  {
    var n := |ops| - 1;
    RunSnoc(s, ops);
    var before, op := Run(s, ops[..n]), ops[n];
    assert Creates(s, ops, n, key) <==>
      op.PutOp? && op.key == key && NewPayload(s, op.content, op.agent).Some? && key !in Expire(s.ttl, before, op.now).entries;
    hide Expire, Perform, Agrees, Run, NewPayload, Creates, InOrder, AgentOf, Joined;
    if Creates(s, ops, n, key) {
      NewProducers(s, before, op);
    } else {
      ProducersAfter(s, before, op, key);
    }
  }

  lemma {:induction false} ProducersOf(s: Settings, ops: seq<Operation>, key: string) returns (i: nat, at: seq<nat>)
    requires s.maxEntries >= 1 && InOrder(ops) && key in Run(s, ops).entries
    ensures LastCreates(s, ops, i, key)
    ensures AreFirsts(Run(s, ops).entries[key].payload.producers, Agents(s, ops[i..], key), at)
    decreases |ops|
  {
    assert ops != [];
    LastProducers(s, ops, key);
    var n := |ops| - 1;
    var before, agent := ops[..n], AgentOf(s, ops[n], key);
    assert InOrder(before);
    hide Run, InOrder, Agents, AgentOf, AreFirsts, Joined;
    if Creates(s, ops, n, key) {
      i := n;
      at := FirstAgent(s, ops[n..], agent, key);
    } else {
      i, at := ProducersOf(s, before, key);
      CreatedBefore(s, ops, key, i);
      AgentsOneMore(s, ops, i, key);
      at := NextAgent(Run(s, before).entries[key].payload.producers, Agents(s, before[i..], key), at, agent);
    }
  }

  lemma FirstAgent(s: Settings, last: seq<Operation>, agent: seq<string>, key: string) returns (at: seq<nat>)
    requires |last| == 1 && agent == AgentOf(s, last[0], key)
    ensures AreFirsts(agent, Agents(s, last, key), at)
  {
    at := if agent == [] then [] else [0];
    assert last[..0] == [];
    assert Agents(s, last[..0], key) == [];
    assert Agents(s, last, key) == agent;
  }

  lemma NextAgent(some: seq<string>, all: seq<string>, at: seq<nat>, agent: seq<string>) returns (at': seq<nat>)
    requires AreFirsts(some, all, at) && |agent| <= 1
    ensures AreFirsts(Joined(some, agent), all + agent, at')
  {
    if agent == [] {
      assert all + agent == all;
      at' := at;
    } else {
      assert agent == [agent[0]];
      at' := OneMore(some, all, at, agent[0]);
    }
  }

  // After any run the producers of a live entry are the agents that have put its key, without failing, from the put that
  // created the entry on: each once, in the order of their first put.
  lemma ProducersAreAgents(s: Settings, ops: seq<Operation>, key: string)
    requires s.maxEntries >= 1 && InOrder(ops) && key in Run(s, ops).entries
    ensures exists i, at :: 0 <= i < |ops| && LastCreates(s, ops, i, key) &&
              AreFirsts(Run(s, ops).entries[key].payload.producers, Agents(s, ops[i..], key), at)
  {
    var i, at := ProducersOf(s, ops, key);
    assert i < |ops|;
    hide *;
  }

  // What the cache hands out for a live entry when not asked for the whole: of the content of the put that created it the
  // first characters, four for every three tokens estimated, or all if it has no more.
  lemma ShortGetReturnsFront(s: Settings, ops: seq<Operation>, key: string, now: nat)
    requires s.maxEntries >= 1 && InOrder(ops) && key in Expire(s.ttl, Run(s, ops), now).entries
    ensures exists i :: 0 <= i < |ops| && LastCreates(s, ops, i, key)
              && IsFront(s, ops[i].content, Expire(s.ttl, Run(s, ops), now).entries[key].payload.compressed)
  {
    var i := LiveEntryOrigin(s, ops, key);
    FrontIsKept(s, ops[i].content, ops[i].agent);
    hide Creates, Run, InOrder, IsFront, NewPayload;
  }

  predicate IsFront(s: Settings, content: string, r: string) {
    s.estimate(content).Some? &&
    var limit := Min(4 * (s.estimate(content).value / 3), USIZE_MAX);
    r == if |content| <= limit then content else content[..limit]
  }

  lemma FrontIsKept(s: Settings, content: string, agent: Option<string>)
    requires NewPayload(s, content, agent).Some?
    ensures IsFront(s, content, NewPayload(s, content, agent).value.compressed)
  {
    var budget := s.estimate(content).value / 3;
    CompressIsCut(content, [], budget);
    CutWithoutFacts(content, [], Min(4 * budget, USIZE_MAX), Compress(content, [], budget));
    hide Compress, IsCut;
  }
}
