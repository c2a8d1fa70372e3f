/**
 * The producer error record: a message plus an optional causing error, and its
 * multi-line rendering that walks the whole causal chain.
 */
module Errors {
  import opened Wrappers

  /** The first line of every rendered error frame. */
  const Header: string := "Producer error with message: "
  /** The line that introduces the rendering of a cause. */
  const CausedBy: string := "Caused by: "

  datatype Error = Error(message: string, cause: Option<Error>) {

    /** The rendering: a header line, the message line, then the cause's rendering if any. */
    function ToString(): string
    {
      Header + "\n" + message + "\n" +
      match cause
      case None => ""
      case Some(c) => CausedBy + "\n" + c.ToString() + "\n"
    }
  }

  /** `Error()`: an empty message and no cause. */
  function DefaultError(): (e: Error)
    ensures e.cause == None
    ensures e.ToString() == Header + "\n" + "\n"
  {
    Error("", None)
  }

  /** `Error(message)`: the given message and no cause. */
  function ErrorWithMessage(message: string): (e: Error)
    ensures e.cause == None && e.message == message
    ensures e.ToString() == Header + "\n" + message + "\n"
  {
    Error(message, None)
  }

  /**
   * `Error(const Error* cause)`: an empty message and the given cause; a null
   * pointer gives an error without a cause, like `Error()`.
   */
  function ErrorWithCause(cause: Option<Error>): (e: Error)
    ensures e.cause == cause && e.message == ""
    ensures cause.None? ==> e == DefaultError()
    ensures cause.Some? ==> e.ToString() == Header + "\n" + "\n" + CausedBy + "\n" + cause.value.ToString() + "\n"
  {
    Error("", cause)
  }

  /** The move constructor: the new error takes over the message and the cause. */
  function MoveError(other: Error): (e: Error)
    ensures e.message == other.message && e.cause == other.cause
    ensures e.ToString() == other.ToString()
  {
    Error(other.message, other.cause)
  }

  /** The messages along the causal chain, outermost first. */
  function Messages(e: Error): (ms: seq<string>)
    ensures |ms| >= 1 && ms[0] == e.message
  {
    [e.message] + match e.cause
                  case None => []
                  case Some(c) => Messages(c)
  }

  /** A flat rendering of a chain of messages: one frame per message, consecutive frames joined by a cause line. */
  function Frames(ms: seq<string>): string
    requires |ms| >= 1
  {
    Header + "\n" + ms[0] + "\n" + if |ms| == 1 then "" else CausedBy + "\n" + Frames(ms[1..])
  }

  function Newlines(n: nat): string
  {
    if n == 0 then "" else Newlines(n - 1) + "\n"
  }

  /**
   * The rendering of a chain of n errors is n header frames joined by n - 1
   * "Caused by" lines, closed by the n - 1 newlines the nested renderings append.
   */
  lemma {:induction false} RenderChain(e: Error)
    ensures e.ToString() == Frames(Messages(e)) + Newlines(|Messages(e)| - 1)
  {
    match e.cause
    case None =>
    case Some(c) =>
      RenderChain(c);
      var ms := Messages(c);
      assert Messages(e) == [e.message] + ms;
      assert Messages(e)[1..] == ms;
      var head, link := Header + "\n" + e.message + "\n", CausedBy + "\n";
      var frames, tail := Frames(ms), Newlines(|ms| - 1);
      assert e.ToString() == head + (link + (frames + tail) + "\n");
      FramesCons(e.message, ms);
      assert Newlines(|ms|) == tail + "\n";
      Regroup(head, link, frames, tail, "\n");
  }

  lemma FramesCons(m: string, ms: seq<string>)
    requires |ms| >= 1
    ensures Frames([m] + ms) == Header + "\n" + m + "\n" + (CausedBy + "\n" + Frames(ms))
  {
    assert ([m] + ms)[1..] == ms;
  }

  lemma Regroup(a: string, b: string, c: string, d: string, e: string)
    ensures a + (b + (c + d) + e) == (a + (b + c)) + (d + e)
  {
  }

  /** Every rendering starts with the header line, whatever the chain. */
  lemma StartsWithHeader(e: Error)
    ensures |e.ToString()| > |Header| && e.ToString()[..|Header|] == Header
  {
    var rest := "\n" + e.message + "\n" + match e.cause
                                         case None => ""
                                         case Some(c) => CausedBy + "\n" + c.ToString() + "\n";
    assert e.ToString() == Header + rest;
  }
}
