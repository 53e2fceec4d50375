/** Value types shared by all components. */
module Common {
  type Byte = bv8

  datatype Option<+T> = None | Some(value: T)

  /** Error kinds the components report; the message text is not modelled. */
  datatype Error =
    | Internal | MalformedObject | ObjectNotFound | ObjectKindMismatch | HashMismatch | ChunkDigestMismatch
    | FrameDigestMismatch | ChainTooDeep | BlockFactorMismatch | InvalidPermutation | TensorNotInBufferLayout
    | ShapeMismatch | AncestorInvariantViolated | NotImplemented | TooManyHops | NotSafetensors

  datatype Result<+T> = Ok(value: T) | Err(error: Error) {
    predicate IsFailure() { Err? }
    function PropagateFailure<U>(): Result<U> requires Err? { Err(error) }
    function Extract(): T requires Ok? { value }
  }

  function Min(a: int, b: int): int { if a <= b then a else b }
  function Max(a: int, b: int): int { if a >= b then a else b }

  predicate Distinct<T(==)>(s: seq<T>) {
    forall i, j :: 0 <= i < j < |s| ==> s[i] != s[j]
  }

  /** `p` is a bijection on [0, n), listed. */
  predicate IsPermutation(p: seq<int>, n: nat) {
    |p| == n && (forall i :: 0 <= i < n ==> 0 <= p[i] < n) && Distinct(p)
  }
}
