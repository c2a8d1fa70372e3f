/**
 * The immutable result of running one producer: exactly one of a value or an
 * error. The source's separate `Value<T>` holder is folded into the content.
 */
module Outputs {
  import opened Errors
  import opened Inputs

  datatype Output<V> = ValueOutput(content: V) | ErrorOutput(error: Error) {

    predicate IsError()
    {
      ErrorOutput?
    }

    predicate IsValue()
    {
      ValueOutput?
    }

    /** The stored content; only defined on a value output. */
    function Get(): (v: V)
      requires IsValue()
      ensures OutputFromValue(v) == this
    {
      content
    }

    /** A view of this output of the same kind and with the same content. */
    function AsInput(): (i: Input<V>)
      ensures i.IsError() == IsError() && i.IsValue() == IsValue()
      ensures IsValue() ==> i.Get() == Got(Get())
      ensures IsError() ==> i.error == error
    {
      if IsError() then InputFromError(error) else InputFromValue(content)
    }
  }

  /** `Output(T&&)`. */
  function OutputFromValue<V>(v: V): (o: Output<V>)
    ensures o.IsValue() && !o.IsError()
    ensures o.content == v
  {
    ValueOutput(v)
  }

  /** `Output(Error&&)`. */
  function OutputFromError<V>(e: Error): (o: Output<V>)
    ensures o.IsError() && !o.IsValue()
    ensures o.error == e
  {
    ErrorOutput(e)
  }

  /** The move constructor: the new output takes over the kind and content of `other`. */
  function MoveConstruct<V>(other: Output<V>): (o: Output<V>)
    ensures o.IsValue() == other.IsValue() && o.IsError() == other.IsError()
    ensures o.IsValue() ==> o.Get() == other.Get()
    ensures o.IsError() ==> o.error == other.error
  {
    other
  }

  /** Move assignment: whatever `target` held is dropped and it takes over `other`. */
  function MoveAssign<V>(target: Output<V>, other: Output<V>): (o: Output<V>)
    ensures o.IsValue() == other.IsValue() && o.IsError() == other.IsError()
    ensures o.IsValue() ==> o.Get() == other.Get()
    ensures o.IsError() ==> o.error == other.error
  {
    MoveConstruct(other)
  }

  /** The view of an output is never neither or both kinds, and it round-trips its content. */
  lemma AsInputRoundTrip<V>(o: Output<V>)
    ensures o.AsInput().IsValue() != o.AsInput().IsError()
    ensures o.AsInput().Get().Got? ==> OutputFromValue(o.AsInput().Get().value) == o
    ensures o.AsInput().Get().Throws? ==> OutputFromError(o.AsInput().error) == o
  {
  }
}
