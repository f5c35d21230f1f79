/** The random source of the engine, modelled as an explicit oracle.

    Every stochastic step of the engine reads the next element of a stream of
    uniform draws in [0, 1).  `rand()` is the next draw itself; `randint(n)` is
    the next draw scaled to n buckets.  A finite stream may run out, so every
    consuming operation returns a `Draw`: the value and the unconsumed rest,
    or `Exhausted`.
 */
module Draws {

  /** A value of `np.random.rand()`. */
  type Unit = u: real | 0.0 <= u < 1.0

  /** Outcome of an operation that consumes draws. */
  datatype Draw<+T> = Drawn(value: T, rest: seq<Unit>) | Exhausted

  /** `np.random.randint(n)` driven by the draw `u`: bucket Floor(u * n). */
  function RandInt(u: Unit, n: nat): (r: int)
    requires n >= 1
    ensures 0 <= r < n
  {
    var x := u * (n as real);
    assert 0.0 <= x by {
      assert 0.0 <= u && 0.0 <= n as real;
    }
    assert x < n as real by {
      assert u * (n as real) < 1.0 * (n as real);
    }
    x.Floor
  }
}
