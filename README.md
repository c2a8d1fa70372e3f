# ccproducers in Dafny

A model of the core of `ccproducers`, a small C++ library that runs a DAG of
*producers*. A producer is a function computing a typed `Output` from the
`Input` views of other producers' outputs.

- `ProducerGraph` is the builder. It hands out ids consecutively from 0 and names
  unnamed roots `unnamed-<id>`. It binds each producer positionally to its
  dependencies' outputs and wires every dependency edge in both directions.
- `Execute(handle)` computes the target's transitive dependencies, calls
  `Start` on each of them, and returns the target's one-shot result slot.
- A node runs once all its dependencies have reported. Running stores the
  producer's output; a throw is stored as an error output. The result slot is
  then resolved: with the value, or as failed for an error. Finally the node
  reports to each reverse dependent, which may start it in turn.

The model has eight modules, one per concern of the source:

| module | file | models |
|---|---|---|
| `Wrappers` | `wrappers.dfy` | the optional value used for result slots and error causes |
| `Errors` | `error.dfy` | `error.h`: the error record and its recursive `ToString` |
| `Inputs` | `input.dfy` | `input.h`: the value-or-error view handed to producers |
| `Outputs` | `output.dfy` | `output.h` (with `value.h` folded in): the value-or-error result |
| `Nodes` | `node.dfy` | `node.h`/`node.cc`: states, per-node records, the reference semantics `Denote`, reachability, and the invariants of the cascade |
| `Binding` | `binding.dfy` | the pure part of `producer_graph.h`: default names and `BindRecursive` |
| `Graph` | `producer_graph.dfy` | `ProducerGraph` and the node methods of `node.cc`, as one class |
| `Scenarios` | `scenarios.dfy` | the graph shapes of `producers_integration_test.cc` |

How the model is built:

- The source keeps one heap object per node and links the objects by pointer.
  Here the graph owns maps keyed by node id:
  - `nodes` holds the fixed part of each node (id, name, dependencies, bound closure);
  - `rdeps` holds each node's `rdeps_`;
  - `status` holds the changing part (state, `finished_deps_`, stored output, result slot).
- Methods of `NodeBase` become methods of `ProducerGraph` that take a node id.
- The cascade is synchronous: `Start` calls `Run`, and `Run` reports to each
  reverse dependent through `ReportFinished`, which may call `Start`.
  Termination is the lexicographic pair (set of blocked nodes, call rank).
- Producers are closures from the stored outputs to an `Outcome`: either
  `Returned(output)` or `Threw`.
- `Denote(nodes, id)` is a reference semantics: the output a node stores when
  its dependencies store theirs. The class invariant says every finished node
  stored exactly `Denote` and resolved its slot from it.
- `Execute` is proved to finish every node of the target's closure and to
  return the target's `Denote` resolution.

Graph `Valid()` bundles these facts:

- ids are exactly `[0, nextId)`;
- every dependency has a smaller id, so the graph is acyclic;
- `a ∈ deps(b) ⇔ b ∈ rdeps(a)`;
- every closure reads only its dependencies' outputs;
- per node: `finished_deps ⊆ deps`, a node past `BLOCKED` has heard from all of
  its dependencies, a `BLOCKED` node has no output, and a finished node stored
  its `Denote` output.

## Model

| member | source | states |
|---|---|---|
| Errors.DefaultError | error.h:10 | the default error has no cause and renders as the header line followed by an empty message line |
| Errors.ErrorWithMessage | error.h:14 | the error keeps the message, has no cause, and renders as the header line and the message line |
| Errors.ErrorWithCause | error.h:13 | the message is empty and the cause is the one given; a null cause gives the default error, and a real cause renders the header, an empty line, "Caused by: " and the cause's rendering |
| Errors.MoveError | error.h:11-12 | the moved-to error has the message and cause of the source, hence the same rendering |
| Errors.RenderChain | error.h:16-24 | a chain of n errors renders as n header frames joined by n-1 "Caused by: " lines, followed by the n-1 newlines the nested renderings append |
| Errors.StartsWithHeader | error.h:16-19 | every rendering starts with "Producer error with message: " |
| Inputs.Input.Get | input.h:19-24 | `get` returns the content exactly for a value input; on an error input it throws with message "hi" |
| Inputs.InputFromValue | input.h:14 | an input made from a value is a value input, not an error input, and `get` returns that value |
| Inputs.InputFromError | input.h:15 | an input made from an error is an error input, not a value input, and `get` throws |
| Outputs.OutputFromValue | output.h:19-21 | an output made from a value is a value output, not an error, holding that content |
| Outputs.OutputFromError | output.h:22-24 | an output made from an error is an error output, not a value, holding that error |
| Outputs.Output.Get | output.h:44-48 | `get` needs a value output, and rebuilding an output from its result gives back the same output |
| Outputs.Output.AsInput | output.h:51-57 | the view has the kind of the output; a value view's `get` returns the output's content, and an error view refers to the output's error |
| Outputs.MoveConstruct | output.h:25-27 | the new output takes over the kind and the content of the one moved from |
| Outputs.MoveAssign | output.h:30-34 | after the assignment the target has the kind and content of the source, whatever it held before |
| Outputs.AsInputRoundTrip | output.h:51-62 | a view is never both or neither kind, and converting it back gives the original output |
| Nodes.Rank | node.h:18 | the three states are totally ordered: `BLOCKED` is the least and `FINISHED` the greatest |
| Nodes.NodeHandle.NodeId | node.h:24-30 | a handle built from the returned id is the same handle, so `NodeId` returns the id it was built with |
| Nodes.CaptureOutcome | node.h:138-143 | a returned output is stored as is; a throw is stored as an error output with message "Exception while running producer" |
| Nodes.ResolutionOf | node.h:146-156 | the slot is fulfilled exactly when the output is a value, and then with that value; an error output fails it with "Producer ran and produced an error" |
| Nodes.ThrowLooksLikeError | node.h:138-156 | a producer that throws and one that returns an error leave the same failed slot |
| Nodes.InitialStatus | node.cc:10-11 | a new node is `BLOCKED`, has heard from no dependency, and has no output and no resolved slot |
| Nodes.ReportedCount | node.cc:33-36 | when `finished_deps ⊆ deps`, equal sizes mean every dependency has reported |
| Nodes.DenoteStable | producer_graph.h:108-120 | a node's reference output depends only on the closures and dependency sets, so adding a node leaves the outputs of the existing nodes alone |
| Nodes.ReachClosed | node.cc:118-127 | the reachable set holds the node, only nodes no larger than it, and the dependencies of each of its members |
| Nodes.ReachLeast | node.cc:118-127 | the reachable set is contained in every dependency-closed set holding the node |
| Nodes.ReverseDepIsDependent | node.cc:10-15 | every reverse dependent of a node lists that node among its dependencies |
| Nodes.RegisterKeepsWiring | node.cc:10-15 | registering a node keeps the graph wired: ids stay consecutive, dependencies stay below, edges stay symmetric, closures stay local |
| Nodes.RegisterKeepsStatus | node.cc:10-11 | a newly registered blocked node keeps every node's status valid |
| Nodes.RunMatchesDenote | node.h:134-143 | once all dependencies have finished, invoking the closure on the stored outputs gives the node's reference output |
| Nodes.PristineIsQuiescent | producer_graph.h:39 | a graph in which nothing has started is quiescent: nothing running, no report owed, nothing ready but unstarted |
| Nodes.QuiescentAfterRegister | producer_graph.h:108-121 | adding a node none of whose dependencies has finished keeps the graph quiescent |
| Nodes.AdvancedUnblocks | node.cc:38-46 | states never go back, so the set of blocked nodes can only shrink |
| Nodes.StartKeeps | node.cc:48-61 | moving a ready blocked node to running keeps the invariants and removes it from the blocked set |
| Nodes.StoreKeeps | node.h:134-156 | storing a running node's reference output and resolving its slot keeps every status valid |
| Nodes.FinishKeeps | node.cc:65-70 | marking a running node that stored its output as finished keeps the invariants; only its own reports are then owed |
| Nodes.ReportKeeps | node.cc:82-88 | recording a finished dependency keeps the invariants; at most the reporting target has become ready |
| Nodes.SameStates | node.cc:86-88 | a report that changes no state leaves the blocked set alone, and a repeated report changes nothing |
| Nodes.ReportedAll | node.cc:23-25 | once a finished node has reported to all of its reverse dependents, it owes no report |
| Nodes.ReadyFinished | node.cc:82-94 | in a quiescent graph, a node whose dependencies have all finished has finished too |
| Nodes.ClosureFinished | producer_graph.h:44-51 | in a quiescent graph, every node of a dependency-closed set whose roots have finished has finished |
| Nodes.FramedTransitive | node.cc:82-94 | two steps of the cascade compose: if each changes only excused nodes and nodes with a dependency finished in it, so does the sequence |
| Nodes.FramedByFinished | node.cc:23-25 | a node that finished during a step no longer needs to excuse its reverse dependents: they have a dependency that finished in the step |
| Nodes.RootsKept | producer_graph.h:46-49 | such a step leaves every root outside the excused set as it was, since no report reaches a root |
| Nodes.Pick | node.cc:23-25 | the element taken from a set of nodes belongs to it; which element is left open, as the order of a set of pointers is |
| Binding.DecimalStringInjective | producer_graph.h:25-29 | different ids stream to different decimal strings |
| Binding.CreateNodeName | producer_graph.h:25-29 | the default name is "unnamed", a dash, and the decimal id |
| Binding.DefaultNamesDistinct | producer_graph.h:25-29 | two default names are equal only for equal ids |
| Binding.HandleIds | producer_graph.h:100-106 | the dependency set is exactly the ids the handles name, repeated handles collapsing |
| Binding.BoundInputsInOrder | producer_graph.h:161-192 | the bound closure calls the producer with the views of the handles' stored outputs, in handle order, read at invocation time; a missing output makes it throw |
| Binding.BindCallsProducer | producer_graph.h:161-192 | a bound producer sees the user function applied to the views of its handles, in order |
| Binding.BindReadsOnly | producer_graph.h:161-192 | a bound closure reads only the stored outputs of the nodes its handles name |
| Binding.RootReadsNothing | producer_graph.h:59-72 | the closure of a root producer reads no stored output |
| Binding.DenoteRoot | node.h:138-143 | a root node's reference output is what its producer returns, or the error stored for a throw |
| Binding.DenoteBound | producer_graph.h:169-171 | a bound node's reference output is its producer applied to its handles' reference outputs, in handle order |
| Graph.ProducerGraph.constructor | producer_graph.h:39 | a new graph has `next_id_` 0 and no nodes; it is valid and nothing in it has started |
| Graph.ProducerGraph.IsDone | node.cc:28-31 | a done node has heard from all of its dependencies, stored its reference output and resolved its slot from it |
| Graph.ProducerGraph.CanRun | node.cc:33-36 | `CanRun` compares sizes, and it holds exactly when every dependency has reported |
| Graph.ProducerGraph.TrySetRunning | node.cc:38-46 | returns true exactly when the node was `BLOCKED`, and then only its state becomes `RUNNING`; otherwise nothing changes |
| Graph.ProducerGraph.SetFinished | node.cc:65-70 | needs a `RUNNING` node, and only its state becomes `FINISHED` |
| Graph.ProducerGraph.AddReverseDep | node.cc:72-74 | inserts the reverse dependent into the node's set, and nothing else changes |
| Graph.ProducerGraph.GetOutput | node.h:128-131 | the output is exactly what a bound closure finds stored for the node (producer_graph.h:170-171); none before the node has run, and a finished node gives its reference output |
| Graph.ProducerGraph.ResultFuture | node.h:124-126 | the slot is unresolved before the node has run; a finished node's slot holds the resolution of its reference output |
| Graph.ProducerGraph.TransitiveDepsInternal | node.cc:118-127 | the visited set only grows and gains the node; every newly visited node is reachable, and its dependencies are visited too; the trace of expanded nodes lists exactly the newly visited nodes, each once |
| Graph.ProducerGraph.TransitiveDeps | node.cc:76-80 | returns exactly the nodes reachable from the node along dependency edges, the node included |
| Graph.ProducerGraph.RunProducer | node.h:134-159 | stores the node's reference output, throw captured, and resolves its slot from it; nothing else changes |
| Graph.ProducerGraph.Start | node.cc:48-63 | runs the node to `FINISHED` when all its dependencies have reported; when some has not, or it already started, nothing changes; states only advance, and any other node that changed has a dependency that finished during the call |
| Graph.ProducerGraph.Run | node.cc:17-26 | the node ends `FINISHED` with its reference output, and it is among the finished dependencies of every reverse dependent; any other node that changed has a dependency that finished during the call |
| Graph.ProducerGraph.ReportAll | node.cc:23-25 | after the loop, every reverse dependent has heard from the node, and the invariants hold; a node that changed is a reverse dependent or has a dependency that finished during the loop |
| Graph.ProducerGraph.ReportFinished | node.cc:82-94 | the dependency ends among the finished ones, a repeated report changes nothing, and states only advance; any other node that changed has a dependency that finished during the call |
| Graph.ProducerGraph.RegisterNode | node.cc:10-15 | the node is added blocked, without reverse dependents, and becomes a reverse dependent of exactly its dependencies |
| Graph.ProducerGraph.AddNode | producer_graph.h:108-122 | the new id is the old `next_id_`, which grows by one; the id maps to the new node, earlier entries are unchanged, the new node is not done, and a quiescent graph stays quiescent when none of the dependencies has finished |
| Graph.ProducerGraph.AddProducer | producer_graph.h:54-57 | a root producer without a name gets the default name "unnamed-<id>" |
| Graph.ProducerGraph.AddNamedProducer | producer_graph.h:59-82 | a root producer gets the next id, keeps a non-empty name, and gets the default name for an empty one |
| Graph.ProducerGraph.AddProducerWithDeps | producer_graph.h:85-90 | a producer with dependencies and no name keeps the empty name |
| Graph.ProducerGraph.AddNamedProducerWithDeps | producer_graph.h:92-123 | the dependencies are exactly the nodes the handles name, all with smaller ids; the closure is the producer bound to the handles in order; every dependency gains the node as a reverse dependent |
| Graph.ProducerGraph.Execute | producer_graph.h:43-51 | every node of the target's transitive dependencies ends `FINISHED`, the graph is quiescent again, and the returned slot holds the resolution of the target's reference output; a node outside those dependencies changes only if one of its own dependencies finished during the call |
| Scenarios.BasicDenotes | producers_integration_test.cc:79-90 | in the basic graph the message node outputs "Hello world, number: 17" |
| Scenarios.BasicGraph | producers_integration_test.cc:79-90 | executing the message node of the basic graph returns a slot fulfilled with "Hello world, number: 17" |
| Scenarios.MixedTypesDenote | producers_integration_test.cc:92-102 | the vector built from the `Foo` and the string is fulfilled with first element 100 |
| Scenarios.UpstreamFailureDenote | producers_integration_test.cc:104-134 | a root that returns an error or throws makes the downstream message node's slot fail |
| Scenarios.DiamondReach | node.cc:118-127 | the reachable set of a diamond's top is its four nodes |
| Scenarios.DiamondTransitiveDeps | node.cc:76-80 | `TransitiveDeps` of a diamond's top returns its four nodes |
| Scenarios.ExecuteLeavesOtherRoots | producer_graph.h:43-51 | executing a root leaves every other root as it was |
| Scenarios.ExecuteRunsDependents | node.cc:82-94 | executing a node also finishes a reverse dependent whose only dependency it is, although it is not among the target's dependencies |

## Left out

- Threads: `Start` launches `Run` with `std::async` (node.cc:61). The model calls `Run` directly, so it proves one sequential schedule of the cascade, not every interleaving the threads allow.
- The two recursive mutexes per node (node.h:104, node.h:108) serve concurrency only and are not modelled.
- `std::future`/`std::promise` blocking semantics: the result slot is a write-once `Option<Resolution>`. Waiting is not modelled. Neither is the exception `get` rethrows, nor `get_future` being callable only once.
- Debug output (`DebugPrefix`, `DebugState`, `DumpState` and the `std::cout` lines) has no effect on state and is left out.
- Template machinery is replaced by one value type `V` per graph and by a list of handles:
  - the per-arity typing of `BindRecursive`;
  - the function-pointer overloads (producer_graph.h:125-156);
  - the `static_cast`s and `unique_ptr` ownership.
- Exceptions are the `Threw` case of `Outcome`, which is always captured. It models a throw of a `std::exception`-derived type, the only kind `RunProducer` catches (node.h:140). Any other throw escapes `RunProducer` and `Run` in the source. The node then stays `RUNNING`, it reports to no one, and its result slot is never resolved; the model does not represent that case. The `std::runtime_error` inside `RunProducer` is the failed resolution `Broken(ProducedError)`.
- Moved-from husks cannot be represented: the move operations are modelled as value transfer. A moved-from `Output` has both pointers null (output.h:25-34). A moved-from `Error` keeps its cause, since moving the raw `cause_` pointer copies it, and is left with an unspecified message (error.h:11-12).
- An error holds its cause by value. The source keeps a non-owning `const Error*` (error.h:13, error.h:28). A cause that is moved from or destroyed after the chain is built would change or invalidate the rendering in the source; the model cannot show that.
- `Input`'s copy constructor (input.h:16) is value copy: inputs are values in the model.
- Pointer identity of nodes: the sets of `NodeBase*` are sets of ids. Their iteration order is chosen by `Pick`, which leaves it open.
- Ids and the arithmetic in the scenarios are unbounded integers; `int` overflow of `next_id_` is not modelled.
- Graph.ProducerGraph.AddNamedProducerWithDeps: requires every handle to name an existing node. With an unknown id the source's `nodes_by_id_[id]` inserts a null pointer, on which the node constructor then calls `AddReverseDep`, which is undefined behaviour.
- Graph.ProducerGraph.Execute: requires the handle to name an existing node (the same `operator[]` issue). It also requires the graph to be quiescent, which every graph built by the model's operations is until a node is added after one of its dependencies has finished. Such a node never hears from that dependency, so `Execute` on it would leave its slot unresolved. Once such a node exists the graph is never quiescent again, so the model then allows no further `Execute` on any target. The source still serves every target that is not downstream of that node.
- Binding.BindRecursive: a missing stored output makes the bound closure throw. In the source, `GetOutput()` would then return null, which it dereferences. The model proves that a closure is only invoked after its dependencies have stored their outputs, so this case never arises.
- `NodeWithManyInputs` (producers_integration_test.cc:136-147) adds floats and truncates them; floating point is not modelled, and the scenario is left out.
- `sleep_for` timing in the integration tests is not modelled.
