/**
 * Nodes of a producer graph: the three-state life cycle, the per-node records
 * kept in the graph's arena, what running a producer stores, and the
 * predicates and lemmas the sequential completion cascade is proved with.
 *
 * A node's record is split in two, as configuration and execution are in the
 * source: `NodeInfo` (id, name, dependency and reverse-dependency sets, the
 * bound closure) is fixed once the graph is built; `NodeStatus` (state,
 * finished dependencies, stored output, result slot) changes while it runs.
 */
module Nodes {
  import opened Wrappers
  import opened Errors
  import opened Inputs
  import opened Outputs

  /** The states a node goes through, in this order and never back. */
  datatype NodeState = Blocked | Running | Finished

  function Rank(s: NodeState): (r: nat)
    ensures r <= 2
    ensures s == Blocked <==> r == 0
    ensures s == Finished <==> r == 2
  {
    match s
    case Blocked => 0
    case Running => 1
    case Finished => 2
  }

  /** A content-free handle that names a node of a graph by its id. */
  datatype NodeHandle = NodeHandle(nodeId: int) {

    /** The id the handle was made with: rebuilding a handle from it gives the same handle. */
    function NodeId(): (id: int)
      ensures NodeHandle(id) == this
    {
      nodeId
    }
  }

  /** What invoking a producer does: it returns an output or it throws. */
  datatype Outcome<V> = Returned(output: Output<V>) | Threw

  /** The outputs stored so far, by node id: a node that has not run has no entry. */
  type StoredOutputs<V> = map<int, Output<V>>

  /** A producer with all of its inputs bound: it reads the stored outputs when invoked. */
  type Closure<!V> = StoredOutputs<V> -> Outcome<V>

  /** The one-shot result slot's content: the produced value, or the failure it was set with. */
  datatype Resolution<V> = Fulfilled(value: V) | Broken(reason: string)

  /** The message of the error stored when a producer throws. */
  const ProducerException: string := "Exception while running producer"
  /** The message of the failure the result slot is set with when the output is an error. */
  const ProducedError: string := "Producer ran and produced an error"

  /** The output `RunProducer` stores: the returned one, or an error when the producer threw. */
  function CaptureOutcome<V>(o: Outcome<V>): (out: Output<V>)
    ensures o.Returned? ==> out == o.output
    ensures o.Threw? ==> out.IsError() && out.error == ErrorWithMessage(ProducerException)
  {
    match o
    case Returned(output) => output
    case Threw => OutputFromError(ErrorWithMessage(ProducerException))
  }

  /** How `RunProducer` resolves the result slot from the stored output. */
  function ResolutionOf<V>(out: Output<V>): (r: Resolution<V>)
    ensures r.Fulfilled? <==> out.IsValue()
    ensures r.Fulfilled? ==> r.value == out.Get()
    ensures r.Broken? ==> r.reason == ProducedError
  {
    if out.IsError() then Broken(ProducedError) else Fulfilled(out.Get())
  }

  /** A producer that throws and one that returns an error look the same to whoever waits on the result. */
  lemma ThrowLooksLikeError<V>(e: Error)
    ensures ResolutionOf(CaptureOutcome<V>(Threw)) == ResolutionOf(CaptureOutcome<V>(Returned(ErrorOutput(e))))
    ensures ResolutionOf(CaptureOutcome<V>(Threw)) == Broken(ProducedError)
  {
  }

  /**
   * The fixed part of a node: identity, dependencies and the bound producer.
   * The reverse dependencies, which grow as later nodes are added, are kept
   * beside it in a `ReverseDeps` map.
   */
  datatype NodeInfo<!V> = NodeInfo(id: int, name: string, deps: set<int>, closure: Closure<V>)

  /** `rdeps_` of every node, by node id. */
  type ReverseDeps = map<int, set<int>>

  /** The changing part of a node. `result` is `GetOutput()`, `promise` the result slot. */
  datatype NodeStatus<V> = NodeStatus(state: NodeState, finishedDeps: set<int>,
                                      result: Option<Output<V>>, promise: Option<Resolution<V>>)

  /** The status of a newly constructed node. */
  function InitialStatus<V>(): (s: NodeStatus<V>)
    ensures s.state == Blocked && s.finishedDeps == {}
    ensures s.result == None && s.promise == None
  {
    NodeStatus(Blocked, {}, None, None)
  }

  /** `CanRun` for a node whose finished dependencies are among its dependencies: all have reported. */
  lemma ReportedCount(deps: set<int>, finished: set<int>)
    requires finished <= deps
    ensures |deps| == |finished| <==> finished == deps
  {
    if forall d | d in deps :: d in finished {
      assert deps <= finished;
    } else {
      var d :| d in deps && d !in finished;
      var rest := deps - finished;
      assert deps == finished + rest && finished * rest == {};
      assert d in rest;
    }
  }

  /** Two output maps that agree on the given ids. */
  ghost predicate Agree<V>(o1: StoredOutputs<V>, o2: StoredOutputs<V>, ids: set<int>)
  {
    forall id | id in ids :: (id in o1 <==> id in o2) && (id in o1 ==> o1[id] == o2[id])
  }

  /** The closure reads the stored outputs of the given ids only. */
  ghost predicate ReadsOnly<V(!new)>(c: Closure<V>, ids: set<int>)
  {
    forall o1, o2 | Agree(o1, o2, ids) :: c(o1) == c(o2)
  }

  /** Every dependency is a node with a smaller id. */
  ghost predicate DepsBelow<V>(nodes: map<int, NodeInfo<V>>)
  {
    forall id | id in nodes :: 0 <= id && forall d | d in nodes[id].deps :: d in nodes && d < id
  }

  /**
   * The output a node stores when the graph runs it: its closure applied to
   * the outputs its dependencies store. This is the reference semantics the
   * operational cascade is proved against.
   */
  ghost function Denote<V>(nodes: map<int, NodeInfo<V>>, id: int): Output<V>
    requires DepsBelow(nodes) && id in nodes
    decreases id, 1
  {
    CaptureOutcome(nodes[id].closure(DenotedDeps(nodes, id)))
  }

  /** The outputs of the dependencies of `id` under the reference semantics. */
  ghost function DenotedDeps<V>(nodes: map<int, NodeInfo<V>>, id: int): (m: StoredOutputs<V>)
    requires DepsBelow(nodes) && id in nodes
    decreases id, 0
  {
    map d | d in nodes[id].deps :: Denote(nodes, d)
  }

  /** Changing anything of the nodes but their closures and dependency sets leaves the reference semantics alone. */
  lemma {:induction false} DenoteStable<V>(n1: map<int, NodeInfo<V>>, n2: map<int, NodeInfo<V>>, id: int)
    requires DepsBelow(n1) && DepsBelow(n2) && id in n1
    requires forall k | k in n1 :: k in n2 && n2[k].deps == n1[k].deps && n2[k].closure == n1[k].closure
    ensures Denote(n1, id) == Denote(n2, id)
    decreases id
  {
    forall d | d in n1[id].deps
      ensures Denote(n1, d) == Denote(n2, d)
    {
      DenoteStable(n1, n2, d);
    }
    assert DenotedDeps(n1, id) == DenotedDeps(n2, id);
  }

  /** The node itself and every node reachable from it along dependency edges. */
  ghost function Reach<V>(nodes: map<int, NodeInfo<V>>, id: int): set<int>
    requires DepsBelow(nodes) && id in nodes
    decreases id
  {
    {id} + set d, x | d in nodes[id].deps && x in Reach(nodes, d) :: x
  }

  /** A set of nodes that contains the dependencies of each of its members. */
  ghost predicate ClosedUnderDeps<V>(nodes: map<int, NodeInfo<V>>, s: set<int>)
  {
    forall n | n in s :: n in nodes && nodes[n].deps <= s
  }

  /** `Reach` holds the node, only nodes no larger than it, and is closed under dependencies. */
  lemma {:induction false} ReachClosed<V>(nodes: map<int, NodeInfo<V>>, id: int)
    requires DepsBelow(nodes) && id in nodes
    ensures id in Reach(nodes, id)
    ensures forall n | n in Reach(nodes, id) :: n in nodes && n <= id
    ensures forall d | d in nodes[id].deps :: Reach(nodes, d) <= Reach(nodes, id)
    ensures ClosedUnderDeps(nodes, Reach(nodes, id))
    decreases id
  {
    forall d | d in nodes[id].deps
      ensures d in Reach(nodes, d) && Reach(nodes, d) <= Reach(nodes, id)
      ensures ClosedUnderDeps(nodes, Reach(nodes, d))
      ensures forall n | n in Reach(nodes, d) :: n in nodes && n <= d
    {
      ReachClosed(nodes, d);
    }
    forall n | n in Reach(nodes, id)
      ensures n in nodes && nodes[n].deps <= Reach(nodes, id)
    {
      if n == id {
        forall d | d in nodes[id].deps
          ensures d in Reach(nodes, id)
        {
          assert d in Reach(nodes, d);
        }
      } else {
        var d :| d in nodes[id].deps && n in Reach(nodes, d);
        assert nodes[n].deps <= Reach(nodes, d);
      }
    }
  }

  /** `Reach` is the least set closed under dependencies that holds the node. */
  lemma {:induction false} ReachLeast<V>(nodes: map<int, NodeInfo<V>>, id: int, s: set<int>)
    requires DepsBelow(nodes) && id in nodes
    requires id in s && ClosedUnderDeps(nodes, s)
    ensures Reach(nodes, id) <= s
    decreases id
  {
    forall d | d in nodes[id].deps
      ensures Reach(nodes, d) <= s
    {
      ReachLeast(nodes, d, s);
    }
  }

  /** The outputs every node that has run stores. */
  function Stored<V>(status: map<int, NodeStatus<V>>): (m: StoredOutputs<V>)
    ensures m.Keys <= status.Keys
    ensures forall id | id in status :: status[id].result == if id in m then Some(m[id]) else None
  {
    map id | id in status && status[id].result.Some? :: status[id].result.value
  }

  /** The node stored its reference output and resolved its slot from it. */
  ghost predicate Produced<V>(nodes: map<int, NodeInfo<V>>, s: NodeStatus<V>, id: int)
    requires DepsBelow(nodes) && id in nodes
  {
    s.result == Some(Denote(nodes, id)) && s.promise == Some(ResolutionOf(Denote(nodes, id)))
  }

  /** The per-node invariant of the life cycle. */
  ghost predicate NodeOk<V>(nodes: map<int, NodeInfo<V>>, status: map<int, NodeStatus<V>>, id: int)
    requires DepsBelow(nodes) && id in nodes && id in status
  {
    var s := status[id];
    s.finishedDeps <= nodes[id].deps &&
    (forall d | d in s.finishedDeps :: d in status && status[d].state == Finished) &&
    (s.state != Blocked ==> s.finishedDeps == nodes[id].deps) &&
    (s.state == Blocked ==> s.result == None && s.promise == None) &&
    (s.state == Running ==> (s.result == None && s.promise == None) || Produced(nodes, s, id)) &&
    (s.state == Finished ==> Produced(nodes, s, id))
  }

  ghost predicate StatusOk<V>(nodes: map<int, NodeInfo<V>>, status: map<int, NodeStatus<V>>)
    requires DepsBelow(nodes)
  {
    status.Keys == nodes.Keys &&
    forall id {:trigger NodeOk(nodes, status, id)} | id in status :: NodeOk(nodes, status, id)
  }

  /** Reverse-dependency edges mirror dependency edges exactly. */
  ghost predicate Symmetric<V>(nodes: map<int, NodeInfo<V>>, rdeps: ReverseDeps)
  {
    rdeps.Keys == nodes.Keys &&
    (forall id | id in rdeps :: rdeps[id] <= nodes.Keys) &&
    (forall a, b | a in nodes && b in nodes :: a in nodes[b].deps <==> b in rdeps[a])
  }

  /**
   * Some element of a non-empty set of ids. Which one is left open: the
   * source walks sets of node pointers, whose order is not given.
   */
  method Pick(s: set<int>) returns (x: int)
    requires s != {}
    ensures x in s
  {
    Inhabited(s);
    x :| x in s;
  }

  lemma Inhabited(s: set<int>)
    requires s != {}
    ensures exists x :: x in s
  {
    if forall x :: x !in s {
      assert false;
    }
  }

  /** No element occurs twice. */
  ghost predicate Distinct(s: seq<int>)
  {
    forall i, j | 0 <= i < j < |s| :: s[i] != s[j]
  }

  /** Two duplicate-free sequences with no element in common append to a duplicate-free sequence. */
  lemma DistinctAppend(a: seq<int>, b: seq<int>)
    requires Distinct(a) && Distinct(b) && forall x | x in a :: x !in b
    ensures Distinct(a + b)
  {
    forall i, j | 0 <= i < j < |a + b|
      ensures (a + b)[i] != (a + b)[j]
    {
      if j >= |a| && i < |a| {
        assert (a + b)[i] in a && (a + b)[j] in b;
      }
    }
  }

  /** A reverse dependent of `id` is a node that lists `id` among its dependencies. */
  lemma ReverseDepIsDependent<V>(nodes: map<int, NodeInfo<V>>, rdeps: ReverseDeps, id: int, r: int)
    requires Symmetric(nodes, rdeps) && id in rdeps && r in rdeps[id]
    ensures r in nodes && id in nodes[r].deps
  {
  }

  /** The wiring of a graph that is being built or run. */
  ghost predicate Wired<V(!new)>(nodes: map<int, NodeInfo<V>>, rdeps: ReverseDeps, nextId: int)
  {
    0 <= nextId &&
    (forall id :: id in nodes <==> 0 <= id < nextId) &&
    (forall id | id in nodes :: nodes[id].id == id) &&
    DepsBelow(nodes) && Symmetric(nodes, rdeps) &&
    (forall id | id in nodes :: ReadsOnly(nodes[id].closure, nodes[id].deps))
  }

  /** `r1` is `r0` with node `id` registered, without reverse dependents, as a reverse dependent of each of `deps`. */
  ghost predicate Rewired(r0: ReverseDeps, r1: ReverseDeps, id: int, deps: set<int>)
  {
    r1.Keys == r0.Keys + {id} && r1[id] == {} &&
    (forall k | k in r0 && k !in deps :: r1[k] == r0[k]) &&
    (forall k | k in r0 && k in deps :: r1[k] == r0[k] + {id})
  }

  /**
   * Registering a new node whose dependencies all have smaller ids and whose
   * closure reads only its dependencies keeps the graph wired and acyclic.
   */
  lemma {:induction false} RegisterKeepsWiring<V(!new)>(n0: map<int, NodeInfo<V>>, r0: ReverseDeps, nextId: int,
                                                        info: NodeInfo<V>, r1: ReverseDeps)
    requires Wired(n0, r0, nextId) && Rewired(r0, r1, nextId, info.deps)
    requires info.id == nextId && info.deps <= n0.Keys
    requires ReadsOnly(info.closure, info.deps)
    ensures Wired(n0[nextId := info], r1, nextId + 1)
  {
    var n1 := n0[nextId := info];
    forall a, b | a in n1 && b in n1
      ensures a in n1[b].deps <==> b in r1[a]
    {
      if a != nextId && b != nextId {
        assert a in n0 && b in n0;
      }
    }
  }

  /** Registering a blocked node keeps the reference semantics of the existing nodes and their statuses valid. */
  lemma {:induction false} RegisterKeepsStatus<V>(n0: map<int, NodeInfo<V>>, s0: map<int, NodeStatus<V>>,
                                                  id: int, info: NodeInfo<V>)
    requires DepsBelow(n0) && DepsBelow(n0[id := info]) && StatusOk(n0, s0) && id !in n0
    ensures StatusOk(n0[id := info], s0[id := InitialStatus()])
  {
    var n1, s1 := n0[id := info], s0[id := InitialStatus()];
    forall k | k in s1
      ensures NodeOk(n1, s1, k)
    {
      if k != id {
        assert NodeOk(n0, s0, k);
        DenoteStable(n0, n1, k);
      }
    }
  }

  /**
   * When a running node's dependencies have all finished, invoking its closure
   * on the outputs stored so far gives its reference output.
   */
  lemma {:induction false} RunMatchesDenote<V(!new)>(nodes: map<int, NodeInfo<V>>, status: map<int, NodeStatus<V>>, id: int)
    requires DepsBelow(nodes) && StatusOk(nodes, status) && id in nodes
    requires ReadsOnly(nodes[id].closure, nodes[id].deps)
    requires status[id].finishedDeps == nodes[id].deps
    ensures CaptureOutcome(nodes[id].closure(Stored(status))) == Denote(nodes, id)
  {
    var stored, denoted := Stored(status), DenotedDeps(nodes, id);
    forall d | d in nodes[id].deps
      ensures d in stored && d in denoted && stored[d] == denoted[d]
    {
      assert NodeOk(nodes, status, id);
      assert NodeOk(nodes, status, d);
    }
    assert Agree(stored, denoted, nodes[id].deps);
  }

  /**
   * Every finished node outside `busy` has reported to each of its reverse
   * dependents. `busy` holds the nodes whose reporting loops are still under way.
   */
  ghost predicate Reported<V>(rdeps: ReverseDeps, status: map<int, NodeStatus<V>>, busy: set<int>)
  {
    forall d, r | d in rdeps && d in status && d !in busy && status[d].state == Finished && r in rdeps[d] ::
      r in status && d in status[r].finishedDeps
  }

  /** Every node with dependencies that has heard from all of them has been started, except those in `ex`. */
  ghost predicate Triggered<V>(nodes: map<int, NodeInfo<V>>, status: map<int, NodeStatus<V>>, ex: set<int>)
  {
    forall r | r in nodes && r in status && nodes[r].deps != {} &&
               status[r].finishedDeps == nodes[r].deps && status[r].state == Blocked :: r in ex
  }

  /** No node is running, except those in `ex`. */
  ghost predicate IdleExcept<V>(status: map<int, NodeStatus<V>>, ex: set<int>)
  {
    forall id | id in status && id !in ex :: status[id].state != Running
  }

  /** The state between two executions: nothing running, no report outstanding. */
  ghost predicate Quiescent<V>(nodes: map<int, NodeInfo<V>>, rdeps: ReverseDeps, status: map<int, NodeStatus<V>>)
  {
    IdleExcept(status, {}) && Reported(rdeps, status, {}) && Triggered(nodes, status, {})
  }

  /** No node has started and none has heard from a dependency. */
  ghost predicate Pristine<V>(status: map<int, NodeStatus<V>>)
  {
    forall id | id in status :: status[id] == InitialStatus()
  }

  lemma PristineIsQuiescent<V>(nodes: map<int, NodeInfo<V>>, rdeps: ReverseDeps, status: map<int, NodeStatus<V>>)
    requires Pristine(status)
    ensures Quiescent(nodes, rdeps, status)
  {
  }

  /**
   * Registering a node none of whose dependencies has finished keeps a
   * quiescent graph quiescent: no finished node owes it a report.
   */
  lemma {:induction false} QuiescentAfterRegister<V>(n0: map<int, NodeInfo<V>>, r0: ReverseDeps, s0: map<int, NodeStatus<V>>,
                                                      id: int, info: NodeInfo<V>, r1: ReverseDeps)
    requires s0.Keys == n0.Keys && id !in n0 && info.deps <= n0.Keys && Rewired(r0, r1, id, info.deps)
    ensures Quiescent(n0, r0, s0) && (forall d | d in info.deps :: s0[d].state != Finished) ==>
              Quiescent(n0[id := info], r1, s0[id := InitialStatus()])
  {
    if !(Quiescent(n0, r0, s0) && (forall d | d in info.deps :: s0[d].state != Finished)) {
      return;
    }
    var s1 := s0[id := InitialStatus()];
    forall d, r | d in r1 && d in s1 && s1[d].state == Finished && r in r1[d]
      ensures r in s1 && d in s1[r].finishedDeps
    {
      assert d in r0 && d != id && d !in info.deps;
      assert r1[d] == r0[d];
    }
  }

  /** States only advance, reports are never withdrawn, and a finished node's record is frozen. */
  ghost predicate Advanced<V>(s0: map<int, NodeStatus<V>>, s1: map<int, NodeStatus<V>>)
  {
    s0.Keys == s1.Keys &&
    forall id | id in s0 ::
      Rank(s0[id].state) <= Rank(s1[id].state) &&
      s0[id].finishedDeps <= s1[id].finishedDeps &&
      (s0[id].state == Finished ==> s1[id] == s0[id])
  }

  lemma AdvancedTransitive<V>(s0: map<int, NodeStatus<V>>, s1: map<int, NodeStatus<V>>, s2: map<int, NodeStatus<V>>)
    requires Advanced(s0, s1) && Advanced(s1, s2)
    ensures Advanced(s0, s2)
  {
  }

  /** The nodes still waiting to start. */
  ghost function BlockedIds<V>(status: map<int, NodeStatus<V>>): set<int>
  {
    set id | id in status && status[id].state == Blocked
  }

  lemma AdvancedUnblocks<V>(s0: map<int, NodeStatus<V>>, s1: map<int, NodeStatus<V>>)
    requires Advanced(s0, s1)
    ensures BlockedIds(s1) <= BlockedIds(s0)
    ensures BlockedIds(s1) < BlockedIds(s0) || BlockedIds(s1) == BlockedIds(s0)
  {
    forall id | id in BlockedIds(s1)
      ensures id in BlockedIds(s0)
    {
      assert Rank(s0[id].state) <= Rank(s1[id].state) == 0;
    }
  }

  /** `s1` differs from `s0` at most in the status of `id`. */
  ghost predicate ChangedAt<V>(s0: map<int, NodeStatus<V>>, s1: map<int, NodeStatus<V>>, id: int)
  {
    s1.Keys == s0.Keys && forall k | k in s0 && k != id :: s1[k] == s0[k]
  }

  /** The nodes that were not finished in `s0` and are finished in `s1`. */
  ghost function NewlyFinished<V>(s0: map<int, NodeStatus<V>>, s1: map<int, NodeStatus<V>>): set<int>
  {
    set d | d in s0 && d in s1 && s0[d].state != Finished && s1[d].state == Finished
  }

  /**
   * The frame of a step of the cascade: a node outside `ex` whose status
   * changed has a dependency that finished during the step. In particular a
   * root outside `ex` is left alone, as no report ever reaches it.
   */
  ghost predicate Framed<V>(nodes: map<int, NodeInfo<V>>, s0: map<int, NodeStatus<V>>, s1: map<int, NodeStatus<V>>,
                            ex: set<int>)
  {
    forall n | n in s0 && n in s1 && n in nodes && n !in ex && nodes[n].deps !! NewlyFinished(s0, s1) :: s1[n] == s0[n]
  }

  /** A change confined to one node is framed by that node. */
  lemma FramedAt<V>(nodes: map<int, NodeInfo<V>>, s0: map<int, NodeStatus<V>>, s1: map<int, NodeStatus<V>>, id: int)
    requires ChangedAt(s0, s1, id)
    ensures Framed(nodes, s0, s1, {id})
  {
  }

  /** Two framed steps make a framed step, excusing the nodes either excused. */
  lemma {:induction false} FramedTransitive<V>(nodes: map<int, NodeInfo<V>>, s0: map<int, NodeStatus<V>>,
                                               s1: map<int, NodeStatus<V>>, s2: map<int, NodeStatus<V>>,
                                               a: set<int>, b: set<int>, c: set<int>)
    requires Advanced(s0, s1) && Advanced(s1, s2)
    requires Framed(nodes, s0, s1, a) && Framed(nodes, s1, s2, b) && a <= c && b <= c
    ensures Framed(nodes, s0, s2, c)
  {
    forall d | d in NewlyFinished(s0, s1)
      ensures d in NewlyFinished(s0, s2)
    {
      assert s2[d] == s1[d];
    }
    forall d | d in NewlyFinished(s1, s2)
      ensures d in NewlyFinished(s0, s2)
    {
      assert Rank(s0[d].state) <= Rank(s1[d].state);
    }
  }

  /**
   * A node that finished in the step stops excusing its reverse dependents:
   * each of them has a dependency that finished during the step.
   */
  lemma {:induction false} FramedByFinished<V>(nodes: map<int, NodeInfo<V>>, rdeps: ReverseDeps, s0: map<int, NodeStatus<V>>,
                                               s1: map<int, NodeStatus<V>>, id: int, ex: set<int>)
    requires Symmetric(nodes, rdeps) && id in nodes && id in s0 && id in s1
    requires s0[id].state != Finished && s1[id].state == Finished
    requires Framed(nodes, s0, s1, ex + rdeps[id])
    ensures Framed(nodes, s0, s1, ex)
  {
    assert id in NewlyFinished(s0, s1);
  }

  /** In particular, a framed step leaves every root outside `ex` as it was. */
  lemma RootsKept<V>(nodes: map<int, NodeInfo<V>>, s0: map<int, NodeStatus<V>>, s1: map<int, NodeStatus<V>>,
                     ex: set<int>, n: int)
    requires Framed(nodes, s0, s1, ex) && n in s0 && n in s1 && n in nodes && n !in ex && nodes[n].deps == {}
    ensures s1[n] == s0[n]
  {
  }

  /** Moving a blocked node that has heard from all its dependencies to running keeps the invariants. */
  lemma {:induction false} StartKeeps<V>(nodes: map<int, NodeInfo<V>>, rdeps: ReverseDeps, s0: map<int, NodeStatus<V>>,
                                         s1: map<int, NodeStatus<V>>, id: int, busy: set<int>)
    requires DepsBelow(nodes) && StatusOk(nodes, s0) && id in nodes
    requires s0[id].state == Blocked && s0[id].finishedDeps == nodes[id].deps
    requires IdleExcept(s0, {}) && Reported(rdeps, s0, busy) && Triggered(nodes, s0, {id})
    requires ChangedAt(s0, s1, id) && s1[id] == s0[id].(state := Running)
    ensures StatusOk(nodes, s1) && IdleExcept(s1, {id}) && Reported(rdeps, s1, busy) && Triggered(nodes, s1, {})
    ensures Advanced(s0, s1) && BlockedIds(s1) < BlockedIds(s0)
    ensures s1[id].result == None && s1[id].promise == None
  {
    assert NodeOk(nodes, s0, id);
    forall k | k in s1
      ensures NodeOk(nodes, s1, k)
    {
      assert NodeOk(nodes, s0, k);
    }
    assert id in BlockedIds(s0) && id !in BlockedIds(s1);
    AdvancedUnblocks(s0, s1);
  }

  /** Storing a running node's reference output and resolving its slot keeps the statuses valid. */
  lemma {:induction false} StoreKeeps<V>(nodes: map<int, NodeInfo<V>>, s0: map<int, NodeStatus<V>>,
                                         s1: map<int, NodeStatus<V>>, id: int)
    requires DepsBelow(nodes) && StatusOk(nodes, s0) && id in nodes && s0[id].state == Running
    requires ChangedAt(s0, s1, id)
    requires s1[id] == s0[id].(result := Some(Denote(nodes, id)), promise := Some(ResolutionOf(Denote(nodes, id))))
    ensures StatusOk(nodes, s1)
  {
    assert NodeOk(nodes, s0, id);
    forall k | k in s1
      ensures NodeOk(nodes, s1, k)
    {
      assert NodeOk(nodes, s0, k);
    }
  }

  /**
   * Storing a running node's reference output and marking it finished keeps
   * the invariants, the node's own reports still to be made.
   */
  lemma {:induction false} FinishKeeps<V>(nodes: map<int, NodeInfo<V>>, rdeps: ReverseDeps, s0: map<int, NodeStatus<V>>,
                                          s1: map<int, NodeStatus<V>>, id: int, busy: set<int>)
    requires DepsBelow(nodes) && StatusOk(nodes, s0) && id in nodes && s0[id].state == Running
    requires IdleExcept(s0, {id}) && Reported(rdeps, s0, busy) && Triggered(nodes, s0, {})
    requires ChangedAt(s0, s1, id)
    requires s1[id] == s0[id].(state := Finished, result := Some(Denote(nodes, id)),
                               promise := Some(ResolutionOf(Denote(nodes, id))))
    ensures StatusOk(nodes, s1) && IdleExcept(s1, {}) && Triggered(nodes, s1, {})
    ensures Reported(rdeps, s1, busy + {id})
    ensures Advanced(s0, s1)
  {
    assert NodeOk(nodes, s0, id);
    forall k | k in s1
      ensures NodeOk(nodes, s1, k)
    {
      assert NodeOk(nodes, s0, k);
    }
  }

  /** Recording a report from a finished dependency keeps the invariants. */
  lemma {:induction false} ReportKeeps<V>(nodes: map<int, NodeInfo<V>>, rdeps: ReverseDeps, s0: map<int, NodeStatus<V>>,
                                          s1: map<int, NodeStatus<V>>, id: int, dep: int, busy: set<int>)
    requires DepsBelow(nodes) && StatusOk(nodes, s0) && id in nodes
    requires dep in nodes[id].deps && s0[dep].state == Finished
    requires IdleExcept(s0, {}) && Reported(rdeps, s0, busy) && Triggered(nodes, s0, {})
    requires ChangedAt(s0, s1, id) && s1[id] == s0[id].(finishedDeps := s0[id].finishedDeps + {dep})
    ensures StatusOk(nodes, s1) && IdleExcept(s1, {}) && Reported(rdeps, s1, busy) && Triggered(nodes, s1, {id})
    ensures Advanced(s0, s1)
  {
    assert NodeOk(nodes, s0, id);
    forall k | k in s1
      ensures NodeOk(nodes, s1, k)
    {
      assert NodeOk(nodes, s0, k);
    }
  }

  /** A change that leaves every state alone leaves the blocked nodes alone; one that changes nothing is the identity. */
  lemma {:induction false} SameStates<V>(s0: map<int, NodeStatus<V>>, s1: map<int, NodeStatus<V>>, id: int)
    requires ChangedAt(s0, s1, id) && id in s0 && s1[id].state == s0[id].state
    ensures BlockedIds(s1) == BlockedIds(s0)
    ensures s1[id] == s0[id] ==> s1 == s0
  {
    assert forall k | k in s1 :: s1[k].state == s0[k].state;
    if s1[id] == s0[id] {
      assert forall k | k in s1 :: s1[k] == s0[k];
    }
  }

  /** Once a finished node has reported to all of its reverse dependents, it no longer needs excusing. */
  lemma {:induction false} ReportedAll<V>(rdeps: ReverseDeps, s: map<int, NodeStatus<V>>, busy: set<int>, id: int)
    requires Reported(rdeps, s, busy + {id}) && id in rdeps
    requires forall r | r in rdeps[id] :: r in s && id in s[r].finishedDeps
    ensures Reported(rdeps, s, busy)
  {
  }

  /**
   * In a quiescent graph, a node with dependencies that have all finished has
   * finished too: each reported to it, and the last report started it.
   */
  lemma {:induction false} ReadyFinished<V>(nodes: map<int, NodeInfo<V>>, rdeps: ReverseDeps, status: map<int, NodeStatus<V>>,
                                            n: int)
    requires DepsBelow(nodes) && Symmetric(nodes, rdeps) && StatusOk(nodes, status) && Quiescent(nodes, rdeps, status)
    requires n in nodes && nodes[n].deps != {}
    requires forall d | d in nodes[n].deps :: status[d].state == Finished
    ensures status[n].state == Finished
  {
    assert NodeOk(nodes, status, n);
    forall d | d in nodes[n].deps
      ensures d in status[n].finishedDeps
    {
      assert n in rdeps[d];
    }
    assert status[n].finishedDeps == nodes[n].deps;
  }

  /**
   * In a quiescent graph, a set closed under dependencies whose roots have
   * all finished has finished entirely: the cascade reaches every node of it.
   */
  lemma {:induction false} ClosureFinished<V>(nodes: map<int, NodeInfo<V>>, rdeps: ReverseDeps, status: map<int, NodeStatus<V>>,
                                              s: set<int>, n: int)
    requires DepsBelow(nodes) && Symmetric(nodes, rdeps) && StatusOk(nodes, status) && Quiescent(nodes, rdeps, status)
    requires ClosedUnderDeps(nodes, s)
    requires forall m | m in s && nodes[m].deps == {} :: status[m].state == Finished
    requires n in s
    ensures status[n].state == Finished
    decreases n
  {
    if nodes[n].deps != {} {
      forall d | d in nodes[n].deps
        ensures status[d].state == Finished
      {
        ClosureFinished(nodes, rdeps, status, s, d);
      }
      ReadyFinished(nodes, rdeps, status, n);
    }
  }
}
