/**
 * The read-only view of an upstream output handed to a downstream producer.
 * The source holds a pointer to either the value or the error; the model holds
 * the content that pointer designates, which never changes once produced.
 */
module Inputs {
  import opened Errors

  /** What `get` on an input gives back: the value, or the exception it throws. */
  datatype Fallible<V> = Got(value: V) | Throws(what: string)

  /** The message of the exception `get` throws on an error input. */
  const GetFault: string := "hi"

  datatype Input<V> = ValueInput(content: V) | ErrorInput(error: Error) {

    predicate IsError()
    {
      ErrorInput?
    }

    predicate IsValue()
    {
      ValueInput?
    }

    /** The referenced value; on an error input it throws instead of returning. */
    function Get(): (r: Fallible<V>)
      ensures r.Got? <==> IsValue()
      ensures r.Got? ==> this == ValueInput(r.value)
      ensures r.Throws? ==> r.what == GetFault
    {
      if IsError() then Throws(GetFault) else Got(content)
    }
  }

  /** `Input(const Value<T>*)`. */
  function InputFromValue<V>(v: V): (i: Input<V>)
    ensures i.IsValue() && !i.IsError()
    ensures i.Get() == Got(v)
  {
    ValueInput(v)
  }

  /** `Input(const Error*)`. */
  function InputFromError<V>(e: Error): (i: Input<V>)
    ensures i.IsError() && !i.IsValue()
    ensures i.Get() == Throws(GetFault) && i.error == e
  {
    ErrorInput(e)
  }
}
