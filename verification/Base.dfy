/** Result shapes and elementary facts shared by the whole model. */
module Base {
  /** A database or domain identifier. The order on identifiers stands for the
      order on canonical UUID strings, which compare like the numbers they write. */
  type Id = nat

  /** An instant or a duration, in microseconds. */
  type Time = int

  const HOUR: Time := 3_600_000_000

  datatype Option<+T> = None | Some(value: T)

  /** What a service call comes to: a value, or the exception it raises. */
  datatype Outcome<+T, +E> = Ok(value: T) | Err(error: E)

  function Min(a: int, b: int): int { if a <= b then a else b }

  function Max(a: int, b: int): int { if a <= b then b else a }

  lemma SubsetIsSmaller<T>(xs: set<T>, ys: set<T>)
    requires xs <= ys
    ensures |xs| <= |ys|
  {
    assert ys == xs + (ys - xs);
    assert |ys| == |xs| + |ys - xs|;
  }

  lemma QuotientIsAProportion(a: real, best: real)
    requires 0.0 <= a <= best
    ensures best != 0.0 ==> 0.0 <= a / best <= 1.0 && (a / best == 1.0 <==> a == best)
  {
  }
}
