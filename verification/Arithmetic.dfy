/** The little arithmetic that several parts of the model share. */
module Arithmetic {

  const SECOND := 1_000_000_000

  function Larger(a: int, b: int): int { if a < b then b else a }

  lemma MultiplesInOrder(a: int, b: int, width: int)
    requires width > 0
    ensures a * width < b * width <==> a < b
  {
    assert (b - a) * width == b * width - a * width;
  }

  /** Division with rest is unique. */
  lemma RestOfMultiple(a: int, width: int, rest: int)
    requires 0 <= rest < width
    ensures (a * width + rest) % width == rest
  {
    var q := (a * width + rest) / width;
    MultiplesInOrder(a, q + 1, width);
    MultiplesInOrder(q, a + 1, width);
  }
}
