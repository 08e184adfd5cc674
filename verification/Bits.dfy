/** Unsigned words as naturals: exclusive-or, shifts, masks and rotations, bit by bit. */
module Bits {
  import opened Arithmetic

  function Xor(a: nat, b: nat): nat {
    if a == 0 && b == 0 then 0 else 2 * Xor(a / 2, b / 2) + (a + b) % 2
  }

  /** `a >> k` */
  function Shr(a: nat, k: nat): nat {
    if k == 0 then a else Shr(a / 2, k - 1)
  }

  /** `a << k`, before any truncation */
  function Shl(a: nat, k: nat): nat {
    if k == 0 then a else 2 * Shl(a, k - 1)
  }

  /** The low `k` bits of `a`. */
  function Low(a: nat, k: nat): nat {
    if k == 0 then 0 else 2 * Low(a / 2, k - 1) + a % 2
  }

  function Pow2(k: nat): (p: nat)
    ensures p > 0
  {
    if k == 0 then 1 else 2 * Pow2(k - 1)
  }

  predicate Fits(a: nat, k: nat) {
    Shr(a, k) == 0
  }

  // ---- algebra of exclusive-or ----

  lemma XorHalf(a: nat, b: nat)
    ensures Xor(a, b) / 2 == Xor(a / 2, b / 2) && Xor(a, b) % 2 == (a + b) % 2
  {
  }

  lemma {:induction false} XorCommutes(a: nat, b: nat)
    ensures Xor(a, b) == Xor(b, a)
  {
    if a != 0 || b != 0 {
      XorCommutes(a / 2, b / 2);
    }
  }

  lemma {:induction false} XorZero(a: nat)
    ensures Xor(a, 0) == a && Xor(0, a) == a
  {
    if a != 0 {
      XorZero(a / 2);
    }
  }

  lemma {:induction false} XorSelf(a: nat)
    ensures Xor(a, a) == 0
  {
    if a != 0 {
      XorSelf(a / 2);
    }
  }

  lemma {:induction false} XorAssociates(a: nat, b: nat, c: nat)
    ensures Xor(Xor(a, b), c) == Xor(a, Xor(b, c))
    decreases a + b + c
  {
    hide Xor;
    if a == 0 {
      XorZero(b);
      XorZero(Xor(b, c));
    } else {
      var l, r := Xor(Xor(a, b), c), Xor(a, Xor(b, c));
      XorHalf(a, b);
      XorHalf(b, c);
      XorHalf(Xor(a, b), c);
      XorHalf(a, Xor(b, c));
      XorAssociates(a / 2, b / 2, c / 2);
      Parity(Xor(a, b), a + b, c);
      Parity(Xor(b, c), b + c, a);
      assert l / 2 == r / 2 && l % 2 == r % 2;
    }
  }

  lemma Parity(x: nat, y: nat, z: nat)
    requires x % 2 == y % 2
    ensures (x + z) % 2 == (y + z) % 2
  {
  }

  /** Applying the same key twice gives the word back. */
  lemma XorCancels(a: nat, k: nat)
    ensures Xor(Xor(a, k), k) == a
  {
    hide Xor;
    XorAssociates(a, k, k);
    XorSelf(k);
    XorZero(a);
  }

  lemma XorInjective(a: nat, b: nat, k: nat)
    requires Xor(a, k) == Xor(b, k)
    ensures a == b
  {
    hide Xor;
    XorCancels(a, k);
    XorCancels(b, k);
  }

  lemma {:induction false} XorBelow(a: nat, b: nat, k: nat)
    requires a < Pow2(k) && b < Pow2(k)
    ensures Xor(a, b) < Pow2(k)
  {
    hide Xor;
    if k == 0 {
      XorZero(0);
    } else {
      XorHalf(a, b);
      XorBelow(a / 2, b / 2, k - 1);
    }
  }

  lemma WordSizes()
    ensures Pow2(8) == 0x100 && Pow2(16) == 0x1_0000
    ensures Pow2(32) == 0x1_0000_0000 && Pow2(64) == 0x1_0000_0000_0000_0000
  {
    assert Pow2(8) == 0x100;
    Pow2Add(8, 8);
    Pow2Add(16, 16);
    Pow2Add(32, 32);
  }

  lemma {:induction false} Pow2Add(j: nat, k: nat)
    ensures Pow2(j + k) == Pow2(j) * Pow2(k)
  {
    if j > 0 {
      Pow2Add(j - 1, k);
      assert Pow2(j + k) == 2 * Pow2(j - 1 + k);
      assert 2 * (Pow2(j - 1) * Pow2(k)) == 2 * Pow2(j - 1) * Pow2(k);
    }
  }

  // ---- bitwise operations distribute over exclusive-or ----

  lemma {:induction false} XorShr(a: nat, b: nat, k: nat)
    ensures Shr(Xor(a, b), k) == Xor(Shr(a, k), Shr(b, k))
  {
    hide Xor;
    if k > 0 {
      XorHalf(a, b);
      XorShr(a / 2, b / 2, k - 1);
    }
  }

  lemma LowHalf(a: nat, k: nat)
    requires k > 0
    ensures Low(a, k) / 2 == Low(a / 2, k - 1) && Low(a, k) % 2 == a % 2
  {
  }

  lemma LowZero(a: nat)
    ensures Low(a, 0) == 0
  {
  }

  lemma SameBits(x: nat, y: nat)
    requires x / 2 == y / 2 && x % 2 == y % 2
    ensures x == y
  {
  }

  lemma {:induction false} XorLow(a: nat, b: nat, k: nat)
    ensures Low(Xor(a, b), k) == Xor(Low(a, k), Low(b, k))
  {
    hide Xor, Low;
    if k == 0 {
      XorZero(0);
      LowZero(a);
      LowZero(b);
      LowZero(Xor(a, b));
    } else {
      XorHalf(a, b);
      XorLow(a / 2, b / 2, k - 1);
      LowHalf(Xor(a, b), k);
      LowHalf(a, k);
      LowHalf(b, k);
      XorHalf(Low(a, k), Low(b, k));
      Parity(Low(a, k), a, Low(b, k));
      Parity(Low(b, k), b, a);
      SameBits(Low(Xor(a, b), k), Xor(Low(a, k), Low(b, k)));
    }
  }

  // ---- splitting a word ----

  lemma {:induction false} ShlAdd(a: nat, b: nat, k: nat)
    ensures Shl(a + b, k) == Shl(a, k) + Shl(b, k)
  {
    if k > 0 {
      ShlAdd(a, b, k - 1);
    }
  }

  /** A word is its high part above its low part. */
  lemma {:induction false} SplitWord(a: nat, k: nat)
    ensures a == Shl(Shr(a, k), k) + Low(a, k)
  {
    if k > 0 {
      SplitWord(a / 2, k - 1);
    }
  }

  /** Parts above and below bit `k` do not meet, so joining them is an exclusive-or. */
  lemma {:induction false} XorDisjoint(h: nat, l: nat, k: nat)
    requires Fits(l, k)
    ensures Xor(Shl(h, k), l) == Shl(h, k) + l
  {
    hide Xor;
    if k == 0 {
      XorZero(h);
    } else {
      XorDisjoint(h, l / 2, k - 1);
      XorHalf(Shl(h, k), l);
    }
  }

  /** Shifts are divisions and masks are remainders by a power of two. */
  lemma {:induction false} ShrIsDiv(a: nat, k: nat)
    ensures Shr(a, k) == a / Pow2(k) && Low(a, k) == a % Pow2(k)
    ensures Low(a, k) < Pow2(k)
  {
    LowBelow(a, k);
    SplitWord(a, k);
    ShlIsMul(Shr(a, k), k);
    DivModUnique(a, Pow2(k), Shr(a, k), Low(a, k));
  }

  lemma {:induction false} LowBelow(a: nat, k: nat)
    ensures Low(a, k) < Pow2(k)
  {
    if k > 0 {
      LowBelow(a / 2, k - 1);
    }
  }

  lemma {:induction false} ShlIsMul(a: nat, k: nat)
    ensures Shl(a, k) == a * Pow2(k)
  {
    if k > 0 {
      ShlIsMul(a, k - 1);
      Double(a, Pow2(k - 1));
    }
  }

  lemma Double(a: nat, p: nat)
    ensures a * (2 * p) == 2 * (a * p)
  {
  }

  // ---- x ^ (x >> k) ----

  function XorShift(x: nat, k: nat): nat {
    Xor(x, Shr(x, k))
  }

  lemma {:induction false} ShrSmaller(x: nat, k: nat)
    requires k > 0 && x > 0
    ensures Shr(x, k) < x
  {
    ShrAtMost(x / 2, k - 1);
  }

  lemma {:induction false} ShrAtMost(x: nat, k: nat)
    ensures Shr(x, k) <= x
  {
    if k > 0 {
      ShrAtMost(x / 2, k - 1);
    }
  }

  /** Rebuilds a word from its xor-shift, high bits first. */
  function UnXorShift(z: nat, k: nat): nat
    requires k > 0
  {
    if z == 0 then 0
    else
      assert Shr(z, k) < z by { ShrSmaller(z, k); }
      Xor(z, UnXorShift(Shr(z, k), k))
  }

  lemma {:induction false} UnXorShiftInverts(x: nat, k: nat)
    requires k > 0
    ensures UnXorShift(XorShift(x, k), k) == x
    decreases x
  {
    hide Xor;
    XorZero(0);
    ShrAtMost(0, k);
    if x > 0 {
      ShrSmaller(x, k);
      XorShr(x, Shr(x, k), k);
      UnXorShiftInverts(Shr(x, k), k);
      XorCancels(x, Shr(x, k));
    }
  }

  lemma XorShiftInjective(x: nat, y: nat, k: nat)
    requires k > 0 && XorShift(x, k) == XorShift(y, k)
    ensures x == y
  {
    UnXorShiftInverts(x, k);
    UnXorShiftInverts(y, k);
  }

  // ---- bitwise or and and ----

  function Or(a: nat, b: nat): nat {
    if a == 0 && b == 0 then 0
    else 2 * Or(a / 2, b / 2) + (if a % 2 == 1 || b % 2 == 1 then 1 else 0)
  }

  function And(a: nat, b: nat): nat {
    if a == 0 || b == 0 then 0
    else 2 * And(a / 2, b / 2) + (if a % 2 == 1 && b % 2 == 1 then 1 else 0)
  }

  lemma OrHalf(a: nat, b: nat)
    ensures Or(a, b) / 2 == Or(a / 2, b / 2)
    ensures Or(a, b) % 2 == if a % 2 == 1 || b % 2 == 1 then 1 else 0
  {
  }

  lemma AndHalf(a: nat, b: nat)
    ensures And(a, b) / 2 == And(a / 2, b / 2)
    ensures And(a, b) % 2 == if a % 2 == 1 && b % 2 == 1 then 1 else 0
  {
  }

  lemma {:induction false} OrZero(a: nat)
    ensures Or(a, 0) == a && Or(0, a) == a
  {
    if a != 0 {
      OrZero(a / 2);
    }
  }

  /** The parts above and below bit `k` are or-ed separately. */
  lemma {:induction false} OrParts(h: nat, l: nat, h': nat, l': nat, k: nat)
    requires l < Pow2(k) && l' < Pow2(k)
    ensures Or(h * Pow2(k) + l, h' * Pow2(k) + l') == Or(h, h') * Pow2(k) + Or(l, l')
  {
    hide Or;
    if k == 0 {
      OrZero(0);
    } else {
      var p := Pow2(k - 1);
      Double(h, p);
      Double(h', p);
      Double(Or(h, h'), p);
      OrParts(h, l / 2, h', l' / 2, k - 1);
      OrHalf(l, l');
      var x, y := h * Pow2(k) + l, h' * Pow2(k) + l';
      OrHalf(x, y);
      assert x / 2 == h * p + l / 2 && y / 2 == h' * p + l' / 2 && x % 2 == l % 2 && y % 2 == l' % 2;
      SameBits(Or(x, y), Or(h, h') * Pow2(k) + Or(l, l'));
    }
  }

  /** Words that do not meet are or-ed by adding them. */
  lemma OrIsSum(h: nat, l: nat, k: nat)
    requires l < Pow2(k)
    ensures Or(h * Pow2(k), l) == h * Pow2(k) + l == Or(l, h * Pow2(k))
  {
    hide Or;
    OrParts(h, 0, 0, l, k);
    OrParts(0, l, h, 0, k);
    OrZero(h);
    OrZero(l);
  }

  function Ones(w: nat): nat {
    if w == 0 then 0 else 2 * Ones(w - 1) + 1
  }

  /** A mask of `w` ones starting at bit `j` cuts out a field. */
  lemma {:induction false} AndMask(x: nat, j: nat, w: nat)
    ensures And(x, Shl(Ones(w), j)) == Shl(Low(Shr(x, j), w), j)
    decreases j, w
  {
    hide And;
    if j > 0 {
      AndMask(x / 2, j - 1, w);
      AndHalf(x, Shl(Ones(w), j));
    } else if w > 0 {
      AndMask(x / 2, 0, w - 1);
      AndHalf(x, Ones(w));
    } else {
      AndWithZero(x);
    }
  }

  lemma AndWithZero(x: nat)
    ensures And(x, 0) == 0
  {
  }
}
