/** Folding a step function over the fixed-width stripes of a byte string.

    All three hash families of the repository (XXH32, XXH64 and the long form of XXH3) consume
    their input stripe by stripe.  `Fold` is the reference meaning shared by their one-shot
    loops and by their streaming states; it never mentions buffers, blocks or call boundaries. */
module StripeFold {

  type Byte = b: nat | b < 0x100

  type Bytes = seq<Byte>

  /** Applies `step` to every stripe of `w` bytes of `data`, first stripe first. */
  function Fold<S>(step: (S, Bytes) -> S, init: S, w: nat, data: Bytes): S
    requires w > 0
    decreases |data|
  {
    if |data| < w then init
    else step(Fold(step, init, w, data[..|data| - w]), data[|data| - w..])
  }

  /** Cutting the input at a stripe boundary: the second part continues where the first stopped. */
  lemma {:induction false} FoldAppend<S>(step: (S, Bytes) -> S, init: S, w: nat, a: Bytes, b: Bytes, n: nat)
    requires w > 0 && |b| == n * w
    ensures Fold(step, init, w, a + b) == Fold(step, Fold(step, init, w, a), w, b)
    decreases n
  {
    if n == 0 {
      assert a + b == a;
    } else {
      assert |b| == (n - 1) * w + w;
      var front, last := b[..|b| - w], b[|b| - w..];
      assert (a + b)[..|a + b| - w] == a + front;
      assert (a + b)[|a + b| - w..] == last;
      FoldAppend(step, init, w, a, front, n - 1);
    }
  }

}
