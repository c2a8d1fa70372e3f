/**
 * The producer graph: an arena of nodes keyed by id, built by adding
 * producers one at a time, and executed by calling `Start` on every node of
 * the target's transitive dependencies, of which the ready ones run, and
 * letting completions cascade to the reverse dependents.
 *
 * The methods of `Node` live here, on the graph, as methods taking a node
 * id: a node's mutable part is its entry in `status`. Execution is the
 * synchronous cascade `Start -> Run -> ReportFinished -> Start`; the ghost
 * set `busy` holds the finished nodes whose reporting loops, in enclosing
 * `Run` calls, are still under way.
 */
module Graph {
  import opened Wrappers
  import opened Errors
  import opened Inputs
  import opened Outputs
  import opened Nodes
  import opened Binding

  class ProducerGraph<V(!new)> {
    /** `next_id_`: the id the next producer gets. */
    var nextId: int
    /** `nodes_by_id_`, fixed part of each node. */
    var nodes: map<int, NodeInfo<V>>
    /** `rdeps_` of each node. */
    var rdeps: ReverseDeps
    /** `nodes_by_id_`, changing part of each node. */
    var status: map<int, NodeStatus<V>>
    /** `node_handles_`, one per node, in the order of addition. */
    var handles: seq<NodeHandle>

    ghost predicate Valid()
      reads this
    {
      Wired(nodes, rdeps, nextId) && StatusOk(nodes, status) &&
      |handles| == nextId && (forall i | 0 <= i < |handles| :: handles[i] == NodeHandle(i))
    }

    constructor ()
      ensures Valid() && Pristine(status)
      ensures nextId == 0 && nodes == map[] && rdeps == map[] && status == map[] && handles == []
    {
      nextId := 0;
      nodes := map[];
      rdeps := map[];
      status := map[];
      handles := [];
    }

    // ---------------------------------------------------------------------
    // Node queries and state changes
    // ---------------------------------------------------------------------

    /**
     * `IsDone`: the node has finished. A done node has heard from all its
     * dependencies, stored its reference output and resolved its slot from it.
     */
    predicate IsDone(id: int)
      reads this
      requires id in status
      ensures Valid() && id in nodes && IsDone(id) ==>
                status[id].finishedDeps == nodes[id].deps &&
                GetOutput(id) == Some(Denote(nodes, id)) && ResultFuture(id) == Some(ResolutionOf(Denote(nodes, id)))
    {
      assert Valid() && id in nodes ==> NodeOk(nodes, status, id);
      status[id].state == Finished
    }

    /** `CanRun`: the count of reported dependencies has reached the count of dependencies. */
    predicate CanRun(id: int)
      reads this
      requires Valid() && id in nodes
      ensures CanRun(id) <==> status[id].finishedDeps == nodes[id].deps
    {
      assert NodeOk(nodes, status, id);
      ReportedCount(nodes[id].deps, status[id].finishedDeps);
      |nodes[id].deps| == |status[id].finishedDeps|
    }

    /** `TrySetRunning`: moves a blocked node to running and says whether it did. */
    method TrySetRunning(id: int) returns (running: bool)
      requires id in status
      modifies this`status
      ensures running <==> old(status[id].state) == Blocked
      ensures status == if running then old(status)[id := old(status[id]).(state := Running)] else old(status)
    {
      if status[id].state == Blocked {
        status := status[id := status[id].(state := Running)];
        running := true;
      } else {
        running := false;
      }
    }

    /** `SetFinished`: a running node becomes finished. */
    method SetFinished(id: int)
      requires id in status && status[id].state == Running
      modifies this`status
      ensures status == old(status)[id := old(status[id]).(state := Finished)]
    {
      status := status[id := status[id].(state := Finished)];
    }

    /** `AddReverseDep`: records `rdep` as depending on `id`. */
    method AddReverseDep(id: int, rdep: int)
      requires id in rdeps
      modifies this`rdeps
      ensures rdeps == old(rdeps)[id := old(rdeps[id]) + {rdep}]
    {
      rdeps := rdeps[id := rdeps[id] + {rdep}];
    }

    /**
     * `GetOutput`: the stored output, none before the node has run. It is
     * what a bound closure reading the stored outputs finds for the node.
     */
    function GetOutput(id: int): (out: Option<Output<V>>)
      reads this
      requires Valid() && id in nodes
      ensures out == if id in Stored(status) then Some(Stored(status)[id]) else None
      ensures status[id].state == Blocked ==> out == None
      ensures status[id].state == Finished ==> out == Some(Denote(nodes, id))
    {
      assert NodeOk(nodes, status, id);
      status[id].result
    }

    /** `ResultFuture`: what waiting on the node's result slot gives, none while unset. */
    function ResultFuture(id: int): (future: Option<Resolution<V>>)
      reads this
      requires Valid() && id in nodes
      ensures status[id].state == Blocked ==> future == None
      ensures status[id].state == Finished ==> future == Some(ResolutionOf(Denote(nodes, id)))
    {
      assert NodeOk(nodes, status, id);
      status[id].promise
    }

    // ---------------------------------------------------------------------
    // Transitive dependencies
    // ---------------------------------------------------------------------

    /**
     * `TransitiveDepsInternal`: adds `id` and everything it depends on to
     * `visited`, expanding each node at most once. `expanded` lists, in
     * order, the nodes that got past the visited check and were inserted.
     */
    method TransitiveDepsInternal(id: int, visited: set<int>) returns (result: set<int>, ghost expanded: seq<int>)
      requires DepsBelow(nodes) && id in nodes
      ensures visited <= result && id in result
      ensures result <= visited + Reach(nodes, id)
      ensures forall n | n in result - visited :: n in nodes && nodes[n].deps <= result
      ensures Distinct(expanded) && forall n :: n in expanded <==> n in result && n !in visited
      decreases id
    {
      if id in visited {
        return visited, [];
      }
      ReachClosed(nodes, id);
      result := visited + {id};
      expanded := [id];
      var todo := nodes[id].deps;
      while todo != {}
        invariant todo <= nodes[id].deps
        invariant visited + {id} <= result <= visited + Reach(nodes, id)
        invariant nodes[id].deps - todo <= result
        invariant forall n | n in result - (visited + {id}) :: n in nodes && nodes[n].deps <= result
        invariant Distinct(expanded) && forall n :: n in expanded <==> n in result && n !in visited
        decreases todo
      {
        var d := Pick(todo);
        ghost var more;
        result, more := TransitiveDepsInternal(d, result);
        DistinctAppend(expanded, more);
        expanded := expanded + more;
        todo := todo - {d};
      }
    }

    /** `TransitiveDeps`: the node and every node it depends on, directly or not. */
    method TransitiveDeps(id: int) returns (result: set<int>)
      requires Valid() && id in nodes
      ensures result == Reach(nodes, id)
    {
      ghost var expanded;
      result, expanded := TransitiveDepsInternal(id, {});
      assert result - {} == result;
      ReachLeast(nodes, id, result);
    }

    // ---------------------------------------------------------------------
    // Execution cascade
    // ---------------------------------------------------------------------

    /**
     * `RunProducer`: invokes the bound producer on the stored outputs,
     * catching a throw as an error output, stores the output and resolves the
     * result slot from it.
     */
    method RunProducer(id: int)
      requires Valid() && id in nodes && status[id].state == Running
      requires status[id].result == None && status[id].promise == None
      modifies this`status
      ensures Valid()
      ensures status == old(status)[id := old(status[id]).(result := Some(Denote(nodes, id)),
                                                          promise := Some(ResolutionOf(Denote(nodes, id))))]
    {
      var outcome := nodes[id].closure(Stored(status));
      var out := CaptureOutcome(outcome);
      var resolution := ResolutionOf(out);
      assert NodeOk(nodes, status, id);
      RunMatchesDenote(nodes, status, id);
      ghost var s0 := status;
      status := status[id := status[id].(result := Some(out), promise := Some(resolution))];
      StoreKeeps(nodes, s0, status, id);
    }

    /**
     * `Start`: a node whose dependencies have all reported, and that nobody
     * has started yet, is run; otherwise nothing happens.
     */
    method Start(id: int, ghost busy: set<int>)
      requires Valid() && id in nodes
      requires IdleExcept(status, {}) && Reported(rdeps, status, busy) && Triggered(nodes, status, {id})
      modifies this`status
      ensures Valid() && IdleExcept(status, {}) && Reported(rdeps, status, busy) && Triggered(nodes, status, {})
      ensures Advanced(old(status), status)
      ensures old(status[id].finishedDeps) == nodes[id].deps ==> status[id].state == Finished
      ensures old(status[id].finishedDeps) != nodes[id].deps || old(status[id].state) != Blocked ==> status == old(status)
      ensures Framed(nodes, old(status), status, {id})
      decreases BlockedIds(status), 0
    {
      if !CanRun(id) {
        return;
      }
      ghost var s0 := status;
      var running := TrySetRunning(id);
      if !running {
        return;
      }
      StartKeeps(nodes, rdeps, s0, status, id, busy);
      ghost var s1 := status;
      FramedAt(nodes, s0, s1, id);
      Run(id, busy);
      AdvancedTransitive(s0, s1, status);
      FramedTransitive(nodes, s0, s1, status, {id}, {id}, {id});
    }

    /**
     * `Run`: runs the producer, marks the node finished and reports to each
     * reverse dependent in turn.
     */
    method Run(id: int, ghost busy: set<int>)
      requires Valid() && id in nodes
      requires status[id].state == Running && status[id].result == None && status[id].promise == None
      requires IdleExcept(status, {id}) && Reported(rdeps, status, busy) && Triggered(nodes, status, {})
      modifies this`status
      ensures Valid() && IdleExcept(status, {}) && Reported(rdeps, status, busy) && Triggered(nodes, status, {})
      ensures Advanced(old(status), status)
      ensures status[id].state == Finished
      ensures forall r | r in rdeps[id] :: r in status && id in status[r].finishedDeps
      ensures Framed(nodes, old(status), status, {id})
      decreases BlockedIds(status), 3
    {
      ghost var s0 := status;
      RunProducer(id);
      SetFinished(id);
      FinishKeeps(nodes, rdeps, s0, status, id, busy);
      ghost var s1 := status;
      AdvancedUnblocks(s0, s1);
      FramedAt(nodes, s0, s1, id);
      ReportAll(id, busy);
      AdvancedTransitive(s0, s1, status);
      ReportedAll(rdeps, status, busy, id);
      FramedTransitive(nodes, s0, s1, status, {id}, rdeps[id], {id} + rdeps[id]);
      FramedByFinished(nodes, rdeps, s0, status, id, {id});
    }

    /** The loop of `Run`: a finished node reports to each of its reverse dependents in turn. */
    method ReportAll(id: int, ghost busy: set<int>)
      requires Valid() && id in nodes && status[id].state == Finished
      requires IdleExcept(status, {}) && Reported(rdeps, status, busy + {id}) && Triggered(nodes, status, {})
      modifies this`status
      ensures Valid() && IdleExcept(status, {}) && Reported(rdeps, status, busy + {id}) && Triggered(nodes, status, {})
      ensures Advanced(old(status), status) && status[id].state == Finished
      ensures forall r | r in rdeps[id] :: r in status && id in status[r].finishedDeps
      ensures Framed(nodes, old(status), status, rdeps[id])
      decreases BlockedIds(status), 2
    {
      var todo := rdeps[id];
      while todo != {}
        invariant todo <= rdeps[id]
        invariant Valid() && IdleExcept(status, {}) && Triggered(nodes, status, {}) && Reported(rdeps, status, busy + {id})
        invariant Advanced(old(status), status) && status[id].state == Finished
        invariant forall r | r in rdeps[id] - todo :: r in status && id in status[r].finishedDeps
        invariant Framed(nodes, old(status), status, rdeps[id])
        decreases todo
      {
        var r := Pick(todo);
        ghost var s1 := status;
        AdvancedUnblocks(old(status), s1);
        ReverseDepIsDependent(nodes, rdeps, id, r);
        ReportFinished(r, id, busy + {id});
        AdvancedTransitive(old(status), s1, status);
        FramedTransitive(nodes, old(status), s1, status, rdeps[id], {r}, rdeps[id]);
        todo := todo - {r};
      }
    }

    /**
     * `ReportFinished`: dependency `dep` of node `id` has finished; once all
     * of them have, the node is started. A repeated report changes nothing.
     */
    method ReportFinished(id: int, dep: int, ghost busy: set<int>)
      requires Valid() && id in nodes && dep in nodes[id].deps && status[dep].state == Finished
      requires IdleExcept(status, {}) && Reported(rdeps, status, busy) && Triggered(nodes, status, {})
      modifies this`status
      ensures Valid() && IdleExcept(status, {}) && Reported(rdeps, status, busy) && Triggered(nodes, status, {})
      ensures Advanced(old(status), status)
      ensures dep in status[id].finishedDeps
      ensures dep in old(status[id].finishedDeps) ==> status == old(status)
      ensures Framed(nodes, old(status), status, {id})
      decreases BlockedIds(status), 1
    {
      ghost var s0 := status;
      status := status[id := status[id].(finishedDeps := status[id].finishedDeps + {dep})];
      ReportKeeps(nodes, rdeps, s0, status, id, dep, busy);
      if dep in s0[id].finishedDeps {
        assert s0[id].finishedDeps + {dep} == s0[id].finishedDeps;
      }
      SameStates(s0, status, id);
      FramedAt(nodes, s0, status, id);
      if CanRun(id) {
        ghost var s1 := status;
        Start(id, busy);
        AdvancedTransitive(s0, s1, status);
        FramedTransitive(nodes, s0, s1, status, {id}, {id}, {id});
      }
    }

    // ---------------------------------------------------------------------
    // Building the graph
    // ---------------------------------------------------------------------

    /**
     * The node constructor and its registration in the arena: the node starts
     * blocked, without reverse dependents, and it is added as a reverse
     * dependent of each dependency.
     */
    method RegisterNode(info: NodeInfo<V>)
      requires info.id !in rdeps && info.deps <= rdeps.Keys
      modifies this`nodes, this`rdeps, this`status
      ensures nodes == old(nodes)[info.id := info]
      ensures Rewired(old(rdeps), rdeps, info.id, info.deps)
      ensures status == old(status)[info.id := InitialStatus()]
    {
      var todo := info.deps;
      ghost var done: set<int> := {};
      while todo != {}
        invariant todo <= info.deps && done <= info.deps
        invariant forall k | k in info.deps :: k in done <==> k !in todo
        invariant nodes == old(nodes) && status == old(status) && rdeps.Keys == old(rdeps).Keys
        invariant forall k | k in old(rdeps) && k !in done :: rdeps[k] == old(rdeps)[k]
        invariant forall k | k in done :: rdeps[k] == old(rdeps)[k] + {info.id}
        decreases todo
      {
        var d := Pick(todo);
        AddReverseDep(d, info.id);
        todo := todo - {d};
        done := done + {d};
      }
      rdeps := rdeps[info.id := {}];
      nodes := nodes[info.id := info];
      status := status[info.id := InitialStatus()];
    }

    /** Bookkeeping common to adding any producer: a fresh id, a handle and a registered node. */
    method AddNode(name: string, deps: set<int>, closure: Closure<V>) returns (handle: NodeHandle)
      requires Valid() && deps <= nodes.Keys && ReadsOnly(closure, deps)
      modifies this
      ensures Valid()
      ensures handle.NodeId() == old(nextId) && nextId == old(nextId) + 1 && handles == old(handles) + [handle]
      ensures nodes == old(nodes)[handle.NodeId() := NodeInfo(handle.NodeId(), name, deps, closure)]
      ensures Rewired(old(rdeps), rdeps, handle.NodeId(), deps)
      ensures status == old(status)[handle.NodeId() := InitialStatus()]
      ensures !IsDone(handle.NodeId()) && (old(Pristine(status)) ==> Pristine(status))
      ensures old(Quiescent(nodes, rdeps, status)) && (forall d | d in deps :: old(status[d].state) != Finished) ==>
                Quiescent(nodes, rdeps, status)
    {
      var id := nextId;
      nextId := nextId + 1;
      ghost var n0, r0, s0 := nodes, rdeps, status;
      var info := NodeInfo(id, name, deps, closure);
      RegisterNode(info);
      handle := NodeHandle(id);
      ghost var h0 := handles;
      handles := handles + [handle];
      forall i | 0 <= i < |handles|
        ensures handles[i] == NodeHandle(i)
      {
        if i < |h0| {
          assert handles[i] == h0[i];
        }
      }
      RegisterKeepsWiring(n0, r0, id, info, rdeps);
      RegisterKeepsStatus(n0, s0, id, info);
      QuiescentAfterRegister(n0, r0, s0, id, info, rdeps);
    }

    /** A root producer without a name: it gets the default name. */
    method AddProducer(f: () -> Outcome<V>) returns (handle: NodeHandle)
      requires Valid()
      modifies this
      ensures Valid()
      ensures handle.NodeId() == old(nextId) && nextId == old(nextId) + 1 && handles == old(handles) + [handle]
      ensures nodes == old(nodes)[handle.NodeId() := NodeInfo(handle.NodeId(), CreateNodeName(handle.NodeId()), {}, RootClosure(f))]
      ensures Rewired(old(rdeps), rdeps, handle.NodeId(), {})
      ensures status == old(status)[handle.NodeId() := InitialStatus()]
      ensures !IsDone(handle.NodeId()) && (old(Pristine(status)) ==> Pristine(status))
      ensures old(Quiescent(nodes, rdeps, status)) ==> Quiescent(nodes, rdeps, status)
    {
      handle := AddNamedProducer("", f);
    }

    /** A root producer: an empty name is replaced by the default name. */
    method AddNamedProducer(name: string, f: () -> Outcome<V>) returns (handle: NodeHandle)
      requires Valid()
      modifies this
      ensures Valid()
      ensures handle.NodeId() == old(nextId) && nextId == old(nextId) + 1 && handles == old(handles) + [handle]
      ensures nodes == old(nodes)[handle.NodeId() := NodeInfo(handle.NodeId(),
                                                             if name == "" then CreateNodeName(handle.NodeId()) else name,
                                                             {}, RootClosure(f))]
      ensures Rewired(old(rdeps), rdeps, handle.NodeId(), {})
      ensures status == old(status)[handle.NodeId() := InitialStatus()]
      ensures !IsDone(handle.NodeId()) && (old(Pristine(status)) ==> Pristine(status))
      ensures old(Quiescent(nodes, rdeps, status)) ==> Quiescent(nodes, rdeps, status)
    {
      var nodeName := if name == "" then CreateNodeName(nextId) else name;
      RootReadsNothing(f);
      handle := AddNode(nodeName, {}, RootClosure(f));
    }

    /**
     * A producer with dependencies, without a name. Unlike a root producer, it
     * keeps the empty name: no default name is made for it.
     */
    method AddProducerWithDeps(f: seq<Input<V>> -> Outcome<V>, hs: seq<NodeHandle>) returns (handle: NodeHandle)
      requires Valid() && |hs| >= 1 && forall i | 0 <= i < |hs| :: hs[i].NodeId() in nodes
      modifies this
      ensures Valid()
      ensures handle.NodeId() == old(nextId) && nextId == old(nextId) + 1 && handles == old(handles) + [handle]
      ensures nodes == old(nodes)[handle.NodeId() := NodeInfo(handle.NodeId(), "", HandleIds(hs), Bind(f, hs))]
      ensures Rewired(old(rdeps), rdeps, handle.NodeId(), HandleIds(hs))
      ensures status == old(status)[handle.NodeId() := InitialStatus()]
      ensures !IsDone(handle.NodeId()) && (old(Pristine(status)) ==> Pristine(status))
      ensures old(Quiescent(nodes, rdeps, status)) && (forall i | 0 <= i < |hs| :: old(status[hs[i].NodeId()].state) != Finished) ==>
                Quiescent(nodes, rdeps, status)
    {
      handle := AddNamedProducerWithDeps("", f, hs);
    }

    /**
     * A producer with dependencies: the producer is bound to the handles, the
     * handles' ids become the node's dependencies, and the node becomes a
     * reverse dependent of each of them.
     */
    method AddNamedProducerWithDeps(name: string, f: seq<Input<V>> -> Outcome<V>, hs: seq<NodeHandle>)
      returns (handle: NodeHandle)
      requires Valid() && |hs| >= 1 && forall i | 0 <= i < |hs| :: hs[i].NodeId() in nodes
      modifies this
      ensures Valid()
      ensures handle.NodeId() == old(nextId) && nextId == old(nextId) + 1 && handles == old(handles) + [handle]
      ensures nodes == old(nodes)[handle.NodeId() := NodeInfo(handle.NodeId(), name, HandleIds(hs), Bind(f, hs))]
      ensures Rewired(old(rdeps), rdeps, handle.NodeId(), HandleIds(hs))
      ensures status == old(status)[handle.NodeId() := InitialStatus()]
      ensures !IsDone(handle.NodeId()) && (old(Pristine(status)) ==> Pristine(status))
      ensures old(Quiescent(nodes, rdeps, status)) && (forall i | 0 <= i < |hs| :: old(status[hs[i].NodeId()].state) != Finished) ==>
                Quiescent(nodes, rdeps, status)
    {
      var other := Bind(f, hs);
      var deps: set<int> := {};
      var i := 0;
      while i < |hs|
        invariant 0 <= i <= |hs|
        invariant deps == set j | 0 <= j < i :: hs[j].NodeId()
      {
        deps := deps + {hs[i].NodeId()};
        i := i + 1;
      }
      assert deps == HandleIds(hs);
      BindReadsOnly(f, hs);
      handle := AddNode(name, deps, other);
    }

    // ---------------------------------------------------------------------
    // Execution
    // ---------------------------------------------------------------------

    /**
     * `Execute`: calls `Start` on every node of the target's transitive
     * dependencies, of which only the ready ones run, and returns the
     * target's result once the cascade is over.
     */
    method Execute(handle: NodeHandle) returns (future: Option<Resolution<V>>)
      requires Valid() && Quiescent(nodes, rdeps, status) && handle.NodeId() in nodes
      modifies this`status
      ensures Valid() && Quiescent(nodes, rdeps, status) && Advanced(old(status), status)
      ensures forall n | n in Reach(nodes, handle.NodeId()) :: n in status && status[n].state == Finished
      ensures Framed(nodes, old(status), status, Reach(nodes, handle.NodeId()))
      ensures future == Some(ResolutionOf(Denote(nodes, handle.NodeId())))
    {
      var id := handle.NodeId();
      var deps := TransitiveDeps(id);
      ReachClosed(nodes, id);
      var todo := deps;
      while todo != {}
        invariant todo <= deps
        invariant Valid() && Quiescent(nodes, rdeps, status) && Advanced(old(status), status)
        invariant forall m | m in deps - todo && nodes[m].deps == {} :: status[m].state == Finished
        invariant Framed(nodes, old(status), status, deps)
        decreases todo
      {
        var n := Pick(todo);
        ghost var s1 := status;
        if nodes[n].deps == {} {
          assert NodeOk(nodes, status, n);
        }
        Start(n, {});
        AdvancedTransitive(old(status), s1, status);
        FramedTransitive(nodes, old(status), s1, status, deps, {n}, deps);
        forall m | m in deps - (todo - {n}) && nodes[m].deps == {}
          ensures status[m].state == Finished
        {
          if m != n {
            assert s1[m].state == Finished;
          }
        }
        todo := todo - {n};
      }
      forall n | n in deps
        ensures status[n].state == Finished
      {
        ClosureFinished(nodes, rdeps, status, deps, n);
      }
      future := ResultFuture(id);
    }
  }
}
