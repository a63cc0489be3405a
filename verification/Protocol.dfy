/** Values shared by every component: optional values, results and the kinds of protocol error. */
module Protocol {

  datatype Option<+T> = None | Some(value: T)

  /** A front and what follows it; nothing when nothing follows. */
  function Behind<T>(front: seq<T>, rest: Option<seq<T>>): Option<seq<T>> {
    if rest.None? then None else Some(front + rest.value)
  }

  lemma NothingBehind<T>(rest: Option<seq<T>>)
    ensures Behind([], rest) == rest
  {
    if rest.Some? {
      assert [] + rest.value == rest.value;
    }
  }

  lemma BehindTwice<T>(a: seq<T>, b: seq<T>, rest: Option<seq<T>>)
    ensures Behind(a, Behind(b, rest)) == Behind(a + b, rest)
  {
    if rest.Some? {
      assert a + (b + rest.value) == a + b + rest.value;
    }
  }

  /** The kinds of protocol error the modelled components raise. */
  datatype ErrorKind = Truncated | Malformed | LimitExceeded | InvalidState | Unsupported

  /** A call that returns a value or throws. */
  datatype Result<+T> = Ok(value: T) | Err(kind: ErrorKind) {
    predicate IsFailure() {
      Err?
    }

    function PropagateFailure<U>(): Result<U>
      requires Err?
    {
      Err(kind)
    }

    function Extract(): T
      requires Ok?
    {
      value
    }
  }

  type byte = b: int | 0 <= b < 256
  type Bytes = seq<byte>

  function Min(a: int, b: int): int {
    if a <= b then a else b
  }

  function Max(a: int, b: int): int {
    if a <= b then b else a
  }
}
