/**
 * Graphs of the shapes the repository's integration tests build, run through
 * the model, with the result each test expects proved from the reference
 * semantics. The producers' values are cases of one value type, since a
 * graph of the model holds outputs of a single type.
 */
module Scenarios {
  import opened Wrappers
  import opened Errors
  import opened Inputs
  import opened Outputs
  import opened Nodes
  import opened Binding
  import opened Graph

  /** The values the test producers make: a number, a string, a `Foo`, a vector of numbers. */
  datatype Val = IntVal(i: int) | StrVal(s: string) | FooVal(x: int) | IntsVal(xs: seq<int>)

  function ExpensiveProduceNumber(): Outcome<Val>
  {
    Returned(OutputFromValue(IntVal(7)))
  }

  function ProduceOtherNumber(): Outcome<Val>
  {
    Returned(OutputFromValue(IntVal(10)))
  }

  function ProduceString(): Outcome<Val>
  {
    Returned(OutputFromValue(StrVal("Hello")))
  }

  function ProduceFoo(): Outcome<Val>
  {
    Returned(OutputFromValue(FooVal(100)))
  }

  /** Returns `Error()`. */
  function ErrorProducer(): Outcome<Val>
  {
    Returned(OutputFromError(DefaultError()))
  }

  function ThrowingProducer(): Outcome<Val>
  {
    Threw
  }

  /** The number an input refers to; none when `get` throws. */
  function NumberOf(i: Input<Val>): Option<int>
  {
    match i.Get()
    case Got(IntVal(n)) => Some(n)
    case _ => None
  }

  /** Adds its two inputs; reading an error input throws. */
  function ExpensiveAdd(ins: seq<Input<Val>>): Outcome<Val>
  {
    if |ins| == 2 && NumberOf(ins[0]).Some? && NumberOf(ins[1]).Some? then
      Returned(OutputFromValue(IntVal(NumberOf(ins[0]).value + NumberOf(ins[1]).value)))
    else
      Threw
  }

  /** Streams "Hello world, number: " and the number into a string. */
  function MessageForNumber(ins: seq<Input<Val>>): Outcome<Val>
  {
    if |ins| == 1 && NumberOf(ins[0]).Some? then
      Returned(OutputFromValue(StrVal("Hello world, number: " + DecimalString(NumberOf(ins[0]).value))))
    else
      Threw
  }

  /** A one-element vector holding the `Foo`'s field; the string input is not read. */
  function ProduceNumbers(ins: seq<Input<Val>>): Outcome<Val>
  {
    if |ins| == 2 && ins[0].Get().Got? && ins[0].Get().value.FooVal? then
      Returned(OutputFromValue(IntsVal([ins[0].Get().value.x])))
    else
      Threw
  }

  lemma Seventeen()
    ensures DecimalString(17) == "17"
  {
    assert NatDigits(1) == "1";
  }

  /** The reference output of the basic graph's message node: (7 + 10) rendered into the message. */
  lemma BasicDenotes(nodes: map<int, NodeInfo<Val>>, left: NodeHandle, right: NodeHandle, sum: NodeHandle, message: NodeHandle)
    requires DepsBelow(nodes) && left.NodeId() in nodes && right.NodeId() in nodes
    requires sum.NodeId() in nodes && message.NodeId() in nodes
    requires nodes[left.NodeId()].closure == RootClosure(ExpensiveProduceNumber)
    requires nodes[right.NodeId()].closure == RootClosure(ProduceOtherNumber)
    requires nodes[sum.NodeId()].deps == HandleIds([left, right]) && nodes[sum.NodeId()].closure == Bind(ExpensiveAdd, [left, right])
    requires nodes[message.NodeId()].deps == HandleIds([sum]) && nodes[message.NodeId()].closure == Bind(MessageForNumber, [sum])
    ensures Denote(nodes, message.NodeId()) == OutputFromValue(StrVal("Hello world, number: 17"))
  {
    DenoteRoot(nodes, left.NodeId(), ExpensiveProduceNumber);
    DenoteRoot(nodes, right.NodeId(), ProduceOtherNumber);
    DenoteBound(nodes, sum.NodeId(), ExpensiveAdd, [left, right]);
    assert DenotedInputs(nodes, [left, right]) == [InputFromValue(IntVal(7)), InputFromValue(IntVal(10))];
    assert Denote(nodes, sum.NodeId()) == OutputFromValue(IntVal(17));
    DenoteBound(nodes, message.NodeId(), MessageForNumber, [sum]);
    assert DenotedInputs(nodes, [sum]) == [InputFromValue(IntVal(17))];
    Seventeen();
    assert "Hello world, number: " + "17" == "Hello world, number: 17";
  }

  /** `BasicGraph`: executing the message node of a graph of that shape gives the message about 7 + 10. */
  method BasicGraph(graph: ProducerGraph<Val>, left: NodeHandle, right: NodeHandle, sum: NodeHandle, message: NodeHandle)
    returns (future: Option<Resolution<Val>>)
    requires graph.Valid() && Quiescent(graph.nodes, graph.rdeps, graph.status)
    requires left.NodeId() in graph.nodes && right.NodeId() in graph.nodes
    requires sum.NodeId() in graph.nodes && message.NodeId() in graph.nodes
    requires graph.nodes[left.NodeId()].closure == RootClosure(ExpensiveProduceNumber)
    requires graph.nodes[right.NodeId()].closure == RootClosure(ProduceOtherNumber)
    requires graph.nodes[sum.NodeId()].deps == HandleIds([left, right])
    requires graph.nodes[sum.NodeId()].closure == Bind(ExpensiveAdd, [left, right])
    requires graph.nodes[message.NodeId()].deps == HandleIds([sum])
    requires graph.nodes[message.NodeId()].closure == Bind(MessageForNumber, [sum])
    modifies graph`status
    ensures future == Some(Fulfilled(StrVal("Hello world, number: 17")))
  {
    BasicDenotes(graph.nodes, left, right, sum, message);
    future := graph.Execute(message);
  }

  /** `GraphWithMixedTypes`: the vector built from the `Foo` and the string starts with the `Foo`'s 100. */
  lemma MixedTypesDenote(nodes: map<int, NodeInfo<Val>>, g: NodeHandle, f: NodeHandle, h: NodeHandle)
    requires DepsBelow(nodes) && g.NodeId() in nodes && f.NodeId() in nodes && h.NodeId() in nodes
    requires nodes[g.NodeId()].closure == RootClosure(ProduceString)
    requires nodes[f.NodeId()].closure == RootClosure(ProduceFoo)
    requires nodes[h.NodeId()].deps == HandleIds([f, g]) && nodes[h.NodeId()].closure == Bind(ProduceNumbers, [f, g])
    ensures ResolutionOf(Denote(nodes, h.NodeId())) == Fulfilled(IntsVal([100]))
  {
    DenoteRoot(nodes, g.NodeId(), ProduceString);
    DenoteRoot(nodes, f.NodeId(), ProduceFoo);
    DenoteBound(nodes, h.NodeId(), ProduceNumbers, [f, g]);
    assert DenotedInputs(nodes, [f, g]) == [InputFromValue(FooVal(100)), InputFromValue(StrVal("Hello"))];
  }

  /**
   * `ErrorGraph` and `ThrowingGraph`: a root that returns an error or throws
   * feeds the message producer, whose `get` on the error input throws; the
   * target's result slot is failed either way.
   */
  lemma UpstreamFailureDenote(nodes: map<int, NodeInfo<Val>>, f: NodeHandle, g: NodeHandle, root: () -> Outcome<Val>)
    requires root == ErrorProducer || root == ThrowingProducer
    requires DepsBelow(nodes) && f.NodeId() in nodes && g.NodeId() in nodes
    requires nodes[f.NodeId()].closure == RootClosure(root)
    requires nodes[g.NodeId()].deps == HandleIds([f]) && nodes[g.NodeId()].closure == Bind(MessageForNumber, [f])
    ensures Denote(nodes, f.NodeId()).IsError() && Denote(nodes, g.NodeId()).IsError()
    ensures ResolutionOf(Denote(nodes, g.NodeId())) == Broken(ProducedError)
  {
    DenoteRoot(nodes, f.NodeId(), root);
    DenoteBound(nodes, g.NodeId(), MessageForNumber, [f]);
    assert DenotedInputs(nodes, [f])[0].Get().Throws?;
  }

  /** A diamond: `a` depends on `b` and `c`, both of which depend on the root `d`. */
  lemma DiamondReach<V>(nodes: map<int, NodeInfo<V>>, a: int, b: int, c: int, d: int)
    requires DepsBelow(nodes) && a in nodes && b in nodes && c in nodes && d in nodes
    requires nodes[a].deps == {b, c} && nodes[b].deps == {d} && nodes[c].deps == {d} && nodes[d].deps == {}
    ensures Reach(nodes, a) == {a, b, c, d}
  {
    assert Reach(nodes, d) == {d};
    assert Reach(nodes, b) == {b, d};
    assert Reach(nodes, c) == {c, d};
  }

  /** `TransitiveDeps` of the diamond's top visits the four nodes. */
  method DiamondTransitiveDeps<V(!new)>(graph: ProducerGraph<V>, a: int, b: int, c: int, d: int) returns (all: set<int>)
    requires graph.Valid() && a in graph.nodes && b in graph.nodes && c in graph.nodes && d in graph.nodes
    requires graph.nodes[a].deps == {b, c} && graph.nodes[b].deps == {d} && graph.nodes[c].deps == {d}
    requires graph.nodes[d].deps == {}
    ensures all == {a, b, c, d}
  {
    all := graph.TransitiveDeps(a);
    DiamondReach(graph.nodes, a, b, c, d);
  }

  /**
   * Executing a node also runs its reverse dependents that are ready: the
   * cascade is not confined to the target's dependencies.
   */
  method ExecuteRunsDependents<V(!new)>(graph: ProducerGraph<V>, target: NodeHandle, dependent: int)
    returns (future: Option<Resolution<V>>)
    requires graph.Valid() && Quiescent(graph.nodes, graph.rdeps, graph.status)
    requires target.NodeId() in graph.nodes && dependent in graph.nodes
    requires graph.nodes[dependent].deps == {target.NodeId()}
    modifies graph`status
    ensures dependent in graph.status && graph.status[dependent].state == Finished
  {
    future := graph.Execute(target);
    ReachClosed(graph.nodes, target.NodeId());
    ReadyFinished(graph.nodes, graph.rdeps, graph.status, dependent);
  }

  /**
   * Executing a root leaves another root alone: `Start` is called only on the
   * target's transitive dependencies, and no report ever reaches a root.
   */
  method ExecuteLeavesOtherRoots<V(!new)>(graph: ProducerGraph<V>, target: NodeHandle, other: int)
    returns (future: Option<Resolution<V>>)
    requires graph.Valid() && Quiescent(graph.nodes, graph.rdeps, graph.status)
    requires target.NodeId() in graph.nodes && other in graph.nodes && other != target.NodeId()
    requires graph.nodes[target.NodeId()].deps == {} && graph.nodes[other].deps == {}
    modifies graph`status
    ensures other in graph.status && graph.status[other] == old(graph.status[other])
  {
    ghost var s0 := graph.status;
    future := graph.Execute(target);
    assert Reach(graph.nodes, target.NodeId()) == {target.NodeId()};
    RootsKept(graph.nodes, s0, graph.status, Reach(graph.nodes, target.NodeId()), other);
  }
}
