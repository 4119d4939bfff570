/** Shared value types of the model: Java's fixed-width integers, bytes, and the
    error results that stand for the exceptions the Java code throws. */
module Common {

  /** A Java byte read as unsigned, as Cassandra's unsigned comparisons and the hex codec see it. */
  type byte = b: int | 0 <= b < 256

  /** The remaining content of a java.nio.ByteBuffer. */
  type bytes = seq<byte>

  /** Java `long` and `int`. */
  type int64 = n: int | -0x8000_0000_0000_0000 <= n < 0x8000_0000_0000_0000
  type int32 = n: int | -0x8000_0000 <= n < 0x8000_0000

  /** The exceptions the modelled code can raise (thrown by it or by the library calls it makes). */
  datatype Error =
    | MalformedComposite      // BufferUnderflowException or too many components while splitting a composite
    | IndexOutOfBounds        // ArrayIndexOutOfBoundsException / IndexOutOfBoundsException
    | NullPointer             // NullPointerException (a missing field, a null bound, a null Boolean)
    | ClassCast               // ClassCastException
    | UnsupportedOperation    // UnsupportedOperationException
    | IllegalArgument         // IllegalArgumentException (a Lucene field built with a null value)
    | InvalidHex              // NumberFormatException from the hex decoder
    | MarshalFailure          // MarshalException from a Cassandra type's compose
    | QueryParse(query: string) // ParseException rethrown as RuntimeException

  datatype Option<+T> = None | Some(value: T)

  datatype Result<+T> = Ok(value: T) | Err(error: Error) {
    predicate IsFailure() { Err? }
    function PropagateFailure<U>(): Result<U>
      requires Err?
    {
      Err(error)
    }
    function Extract(): T
      requires Ok?
    {
      value
    }
  }

  /** The outcome of a `void` Java method that may throw. */
  datatype Outcome = Pass | Fail(error: Error)

  /** The values of a sequence of results, in order, as a loop that stops at the first
      failure collects them: the first failing result decides the error. */
  function Collect<T>(results: seq<Result<T>>): (r: Result<seq<T>>)
    ensures r.Ok? ==> |r.value| == |results| && forall i :: 0 <= i < |results| ==> results[i] == Ok(r.value[i])
    ensures r.Err? <==> exists i :: 0 <= i < |results| && results[i].Err?
  {
    if results == [] then Ok([])
    else
      var front := results[..|results| - 1];
      assert forall i :: 0 <= i < |front| ==> front[i] == results[i];
      var init :- Collect(front);
      var last :- results[|results| - 1];
      Ok(init + [last])
  }

  /** One more successful result extends the collected values by its value. */
  lemma CollectSnoc<T>(results: seq<Result<T>>, i: nat, values: seq<T>)
    requires i < |results| && Collect(results[..i]) == Ok(values) && results[i].Ok?
    ensures Collect(results[..i + 1]) == Ok(values + [results[i].value])
  {
    assert results[..i + 1][..i] == results[..i];
  }

  /** When every earlier result succeeded, the first failing one's error is the error
      of the whole sequence. */
  lemma {:induction false} CollectFailsAt<T>(results: seq<Result<T>>, i: nat)
    requires i < |results| && Collect(results[..i]).Ok? && results[i].Err?
    ensures Collect(results) == Err(results[i].error)
    decreases |results|
  {
    if i + 1 == |results| {
      assert results[..|results| - 1] == results[..i];
    } else {
      assert results[..|results| - 1][..i] == results[..i];
      CollectFailsAt(results[..|results| - 1], i);
    }
  }
}
