/**
 * The pure part of the graph builder: default node names, and the recursive
 * binding that turns a producer of n inputs plus n handles into a
 * zero-argument closure over the graph's stored outputs.
 */
module Binding {
  import opened Wrappers
  import opened Errors
  import opened Inputs
  import opened Outputs
  import opened Nodes

  /** `kDefaultNodeNamePrefix`. */
  const DefaultNodeNamePrefix: string := "unnamed"

  function DigitChar(d: nat): (c: char)
    requires d < 10
    ensures '0' <= c <= '9' && c as int - '0' as int == d
  {
    "0123456789"[d]
  }

  /** The decimal digits of a non-negative number, most significant first, without leading zeros. */
  function NatDigits(n: nat): (s: string)
    ensures |s| >= 1 && forall i | 0 <= i < |s| :: '0' <= s[i] <= '9'
    decreases n
  {
    if n < 10 then [DigitChar(n)] else NatDigits(n / 10) + [DigitChar(n % 10)]
  }

  /** What streaming an `int` into a `std::stringstream` writes. */
  function DecimalString(n: int): string
  {
    if n < 0 then "-" + NatDigits(-n) else NatDigits(n)
  }

  /** Reads back a string of decimal digits. */
  function ParseDigits(s: string): nat
    requires forall i | 0 <= i < |s| :: '0' <= s[i] <= '9'
  {
    if s == [] then 0 else ParseDigits(s[..|s| - 1]) * 10 + (s[|s| - 1] as int - '0' as int)
  }

  lemma {:induction false} ParseNatDigits(n: nat)
    ensures ParseDigits(NatDigits(n)) == n
    decreases n
  {
    if n >= 10 {
      var s := NatDigits(n);
      assert s[..|s| - 1] == NatDigits(n / 10);
      ParseNatDigits(n / 10);
    }
  }

  lemma NatDigitsInjective(m: nat, n: nat)
    requires NatDigits(m) == NatDigits(n)
    ensures m == n
  {
    ParseNatDigits(m);
    ParseNatDigits(n);
  }

  /** The rendering starts with a minus sign exactly for negative numbers. */
  lemma SignShown(n: int)
    ensures |DecimalString(n)| >= 1 && (DecimalString(n)[0] == '-' <==> n < 0)
  {
    if n >= 0 {
      assert '0' <= NatDigits(n)[0] <= '9';
    }
  }

  /** Distinct numbers print differently. */
  lemma DecimalStringInjective(a: int, b: int)
    requires DecimalString(a) == DecimalString(b)
    ensures a == b
  {
    var sa, sb := DecimalString(a), DecimalString(b);
    if a < 0 && b < 0 {
      assert NatDigits(-a) == sa[1..] == sb[1..] == NatDigits(-b);
      NatDigitsInjective(-a, -b);
    } else if a >= 0 && b >= 0 {
      NatDigitsInjective(a, b);
    } else {
      SignShown(a);
      SignShown(b);
      assert false;
    }
  }

  /** The default name of node `id`. */
  function CreateNodeName(id: int): (name: string)
    ensures |name| > |DefaultNodeNamePrefix| + 1
    ensures name[..|DefaultNodeNamePrefix| + 1] == DefaultNodeNamePrefix + "-"
    ensures name[|DefaultNodeNamePrefix| + 1..] == DecimalString(id)
  {
    DefaultNodeNamePrefix + "-" + DecimalString(id)
  }

  /** Default names never collide: the name determines the id. */
  lemma DefaultNamesDistinct(a: int, b: int)
    requires CreateNodeName(a) == CreateNodeName(b)
    ensures a == b
  {
    var k := |DefaultNodeNamePrefix| + 1;
    assert DecimalString(a) == CreateNodeName(a)[k..] == CreateNodeName(b)[k..] == DecimalString(b);
    DecimalStringInjective(a, b);
  }

  /** A producer that still waits for its trailing inputs; it may look up outputs when invoked. */
  type Open<!V> = (StoredOutputs<V>, seq<Input<V>>) -> Outcome<V>

  /** The user's producer as an open closure. */
  function Lift<V>(f: seq<Input<V>> -> Outcome<V>): Open<V>
  {
    (outs: StoredOutputs<V>, ins: seq<Input<V>>) => f(ins)
  }

  /**
   * `BindRecursive`: binds the first handle (its input is looked up when the
   * closure runs), then binds the rest of the handles to the narrower closure.
   * A node without a stored output makes the closure throw; in the source,
   * `GetOutput()` then returns null, which is dereferenced, a case the graph
   * never reaches because a closure only runs after its dependencies have
   * stored their outputs.
   */
  function BindRecursive<V>(f: Open<V>, handles: seq<NodeHandle>): Closure<V>
    requires |handles| >= 1
    decreases |handles|
  {
    var nodeId := handles[0].NodeId();
    var h := (outs: StoredOutputs<V>, tail: seq<Input<V>>) =>
      if nodeId in outs then f(outs, [outs[nodeId].AsInput()] + tail) else Threw;
    if |handles| == 1 then (outs: StoredOutputs<V>) => h(outs, [])
    else BindRecursive(h, handles[1..])
  }

  /** The closure of a root producer: it ignores the graph. */
  function RootClosure<V>(f: () -> Outcome<V>): Closure<V>
  {
    (outs: StoredOutputs<V>) => f()
  }

  /** The closure of a producer with dependencies. */
  function Bind<V>(f: seq<Input<V>> -> Outcome<V>, handles: seq<NodeHandle>): Closure<V>
    requires |handles| >= 1
  {
    BindRecursive(Lift(f), handles)
  }

  /** The ids named by a list of handles; repeated handles collapse. */
  function HandleIds(handles: seq<NodeHandle>): (ids: set<int>)
    ensures forall i | 0 <= i < |handles| :: handles[i].NodeId() in ids
    ensures forall id | id in ids :: exists i | 0 <= i < |handles| :: handles[i].NodeId() == id
  {
    set i | 0 <= i < |handles| :: handles[i].NodeId()
  }

  /** Every handle names a node that has stored its output. */
  ghost predicate AllStored<V>(outs: StoredOutputs<V>, handles: seq<NodeHandle>)
  {
    forall i | 0 <= i < |handles| :: handles[i].NodeId() in outs
  }

  /** The views of the stored outputs the handles name, in handle order. */
  function InputsOf<V>(outs: StoredOutputs<V>, handles: seq<NodeHandle>): (ins: seq<Input<V>>)
    requires AllStored(outs, handles)
    ensures |ins| == |handles|
    ensures forall i | 0 <= i < |handles| :: ins[i] == outs[handles[i].NodeId()].AsInput()
  {
    if handles == [] then [] else [outs[handles[0].NodeId()].AsInput()] + InputsOf(outs, handles[1..])
  }

  /**
   * The bound closure passes the dependencies' views positionally, in handle
   * order, read from the outputs stored when it is invoked; a missing
   * output makes the invocation throw.
   */
  lemma {:induction false} BoundInputsInOrder<V>(f: Open<V>, handles: seq<NodeHandle>, outs: StoredOutputs<V>)
    requires |handles| >= 1
    ensures BindRecursive(f, handles)(outs) ==
            if AllStored(outs, handles) then f(outs, InputsOf(outs, handles)) else Threw
    decreases |handles|
  {
    var nodeId := handles[0].NodeId();
    var h := (outs: StoredOutputs<V>, tail: seq<Input<V>>) =>
      if nodeId in outs then f(outs, [outs[nodeId].AsInput()] + tail) else Threw;
    if |handles| == 1 {
      if AllStored(outs, handles) {
        assert InputsOf(outs, handles) == [outs[nodeId].AsInput()];
      }
    } else {
      var rest := handles[1..];
      assert BindRecursive(f, handles) == BindRecursive(h, rest);
      BoundInputsInOrder(h, rest, outs);
      if AllStored(outs, handles) {
        assert AllStored(outs, rest);
        assert [outs[nodeId].AsInput()] + InputsOf(outs, rest) == InputsOf(outs, handles);
      } else if AllStored(outs, rest) {
        var i :| 0 <= i < |handles| && handles[i].NodeId() !in outs;
        if i > 0 {
          assert rest[i - 1] == handles[i];
        }
      }
    }
  }

  /** A bound producer sees exactly the user function applied to the views of its handles. */
  lemma BindCallsProducer<V>(f: seq<Input<V>> -> Outcome<V>, handles: seq<NodeHandle>, outs: StoredOutputs<V>)
    requires |handles| >= 1
    ensures Bind(f, handles)(outs) == if AllStored(outs, handles) then f(InputsOf(outs, handles)) else Threw
  {
    BoundInputsInOrder(Lift(f), handles, outs);
  }

  /** A bound producer reads only the outputs of the nodes its handles name. */
  lemma BindReadsOnly<V(!new)>(f: seq<Input<V>> -> Outcome<V>, handles: seq<NodeHandle>)
    requires |handles| >= 1
    ensures ReadsOnly(Bind(f, handles), HandleIds(handles))
  {
    var ids := HandleIds(handles);
    forall o1, o2 | Agree(o1, o2, ids)
      ensures Bind(f, handles)(o1) == Bind(f, handles)(o2)
    {
      BindCallsProducer(f, handles, o1);
      BindCallsProducer(f, handles, o2);
      assert AllStored(o1, handles) == AllStored(o2, handles);
      if AllStored(o1, handles) {
        assert InputsOf(o1, handles) == InputsOf(o2, handles);
      }
    }
  }

  /** The views of the reference outputs of the nodes the handles name, in handle order. */
  ghost function DenotedInputs<V>(nodes: map<int, NodeInfo<V>>, handles: seq<NodeHandle>): (ins: seq<Input<V>>)
    requires DepsBelow(nodes) && forall i | 0 <= i < |handles| :: handles[i].NodeId() in nodes
    ensures |ins| == |handles|
    ensures forall i | 0 <= i < |handles| :: ins[i] == Denote(nodes, handles[i].NodeId()).AsInput()
  {
    if handles == [] then [] else [Denote(nodes, handles[0].NodeId()).AsInput()] + DenotedInputs(nodes, handles[1..])
  }

  /** A root node's reference output is what its producer returns, or the error stored for a throw. */
  lemma DenoteRoot<V>(nodes: map<int, NodeInfo<V>>, id: int, f: () -> Outcome<V>)
    requires DepsBelow(nodes) && id in nodes && nodes[id].closure == RootClosure(f)
    ensures Denote(nodes, id) == CaptureOutcome(f())
  {
  }

  /**
   * A bound node's reference output is its producer applied to the views of
   * its handles' reference outputs, in handle order.
   */
  lemma DenoteBound<V>(nodes: map<int, NodeInfo<V>>, id: int, f: seq<Input<V>> -> Outcome<V>, handles: seq<NodeHandle>)
    requires DepsBelow(nodes) && id in nodes && |handles| >= 1
    requires nodes[id].deps == HandleIds(handles) && nodes[id].closure == Bind(f, handles)
    ensures forall i | 0 <= i < |handles| :: handles[i].NodeId() in nodes
    ensures Denote(nodes, id) == CaptureOutcome(f(DenotedInputs(nodes, handles)))
  {
    var outs := DenotedDeps(nodes, id);
    assert AllStored(outs, handles);
    BindCallsProducer(f, handles, outs);
    assert InputsOf(outs, handles) == DenotedInputs(nodes, handles);
  }

  lemma RootReadsNothing<V(!new)>(f: () -> Outcome<V>)
    ensures ReadsOnly(RootClosure(f), {})
  {
  }
}
