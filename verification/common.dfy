/** Shared value types and arithmetic. */
module Common {
  datatype Option<+T> = None | Some(value: T)

  function Min(a: int, b: int): int {
    if a <= b then a else b
  }

  function Max(a: int, b: int): int {
    if a >= b then a else b
  }

  /** The elements of all lists, in order. */
  function Flatten<T>(lists: seq<seq<T>>): seq<T> {
    if lists == [] then [] else Flatten(lists[..|lists| - 1]) + lists[|lists| - 1]
  }

  lemma MulMonotone(a: int, b: int, c: int)
    requires a <= b && c >= 0
    ensures a * c <= b * c
  {
    assert 0 <= (b - a) * c;
  }

  /** Quotient and remainder are what division makes them. */
  lemma DivMod(n: int, size: int, q: int, r: int)
    requires n == q * size + r && 0 <= r < size
    ensures n / size == q && n % size == r
  {
    var q' := n / size;
    assert n == q' * size + n % size;
    assert (q + 1) * size == q * size + size && (q' + 1) * size == q' * size + size;
    if q' > q {
      MulMonotone(q + 1, q', size);
    } else if q' < q {
      MulMonotone(q' + 1, q, size);
    }
  }
}
