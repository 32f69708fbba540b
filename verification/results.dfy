/** Failure-compatible wrappers shared by every module of the model.

    The Rust code reports every failure by panicking (`panic!`, `unwrap`,
    `assert_eq!`). The model turns each panic site into an `Err` carrying
    an `Error` that names the site and the offending text. */
module Results {

  /** The value returned by a lookup that may find nothing (`Option` in Rust). */
  datatype Option<+T> = None | Some(value: T) {
    function GetOr(default: T): T {
      match this
      case Some(v) => v
      case None => default
    }
  }

  /** One constructor per panic site of the tree module. */
  datatype Error =
    | NameMismatch(name: string)          // from_string: the regex does not match
    | ClusterNotU8(digits: string)        // from_string: `caps["c"].parse::<u8>().unwrap()`
    | UnknownCompression(token: string)   // CompressionType::from_str: the `_` arm
    | MissingEquals(segment: string)      // parse_path: `key_value(part).unwrap()`
    | SegmentCountMismatch(expectedCount: nat, foundCount: nat)  // build_partition: first assert_eq!
    | KeyMismatch(expectedKey: string, foundKey: string)     // build_partition: second assert_eq!

  /** Either the value an operation returns or the panic it raises. */
  datatype Result<+T> = Ok(value: T) | Err(error: Error) {
    predicate IsFailure() {
      Err?
    }

    function PropagateFailure<U>(): Result<U>
      requires Err?
    {
      Err(error)
    }

    function Extract(): T
      requires Ok?
    {
      value
    }
  }

  /** Applies `f` to every element in order and stops at the first failure,
      as a chain of panicking calls inside an iterator does. */
  function CollectAll<T, U>(f: T -> Result<U>, xs: seq<T>): (r: Result<seq<U>>)
    ensures r.Ok? <==> forall i | 0 <= i < |xs| :: f(xs[i]).Ok?
    ensures r.Ok? ==> |r.value| == |xs| && forall i | 0 <= i < |xs| :: f(xs[i]) == Ok(r.value[i])
    ensures r.Err? ==> exists i | 0 <= i < |xs| ::
                         && f(xs[i]).Err? && r.error == f(xs[i]).error
                         && forall j | 0 <= j < i :: f(xs[j]).Ok?
  {
    if |xs| == 0 then Ok([])
    else
      match f(xs[0])
      case Err(e) => Err(e)
      case Ok(y) =>
        match CollectAll(f, xs[1..])
        case Err(e) =>
          assert forall i | 0 <= i < |xs| - 1 :: xs[1..][i] == xs[i + 1];
          Err(e)
        case Ok(ys) =>
          assert forall i | 1 <= i < |xs| :: xs[i] == xs[1..][i - 1];
          Ok([y] + ys)
  }
}
