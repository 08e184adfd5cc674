/** Integers as the bytes of their object representation, lowest byte first. */
module LittleEndian {
  import opened StripeFold

  /** The `n`-byte representation of an integer; negative values in two's complement. */
  function IntBytes(value: int, n: nat): (p: Bytes)
    ensures |p| == n
    decreases n
  {
    if n == 0 then [] else [value % 0x100] + IntBytes(value / 0x100, n - 1)
  }

  /** The number of values of an `n`-byte type. */
  function Range(n: nat): nat {
    if n == 0 then 1 else 0x100 * Range(n - 1)
  }

  /** The unsigned value of a representation. */
  function ValueOf(p: Bytes): (v: nat)
    ensures v < Range(|p|)
  {
    if p == [] then 0 else p[0] + 0x100 * ValueOf(p[1..])
  }

  lemma {:induction false} ValueOfIntBytes(v: nat, n: nat)
    requires v < Range(n)
    ensures ValueOf(IntBytes(v, n)) == v
    decreases n
  {
    if n > 0 {
      ValueOfIntBytes(v / 0x100, n - 1);
      var p := IntBytes(v, n);
      assert p[0] == v % 0x100 && p[1..] == IntBytes(v / 0x100, n - 1);
    }
  }

  /** A negative value is represented like the unsigned one that is larger by the number of values. */
  lemma {:induction false} TwosComplement(v: int, n: nat)
    requires 0 - Range(n) <= v < 0
    ensures IntBytes(v, n) == IntBytes(v + Range(n), n)
    decreases n
  {
    if n > 0 {
      var r := Range(n - 1);
      assert (v + 0x100 * r) % 0x100 == v % 0x100 && (v + 0x100 * r) / 0x100 == v / 0x100 + r;
      TwosComplement(v / 0x100, n - 1);
    }
  }

  /** The first four bytes, and what follows them. */
  lemma FirstFour(v: int, n: nat)
    requires n >= 4
    ensures IntBytes(v, n) == [v % 0x100, v / 0x100 % 0x100, v / 0x100 / 0x100 % 0x100, v / 0x100 / 0x100 / 0x100 % 0x100]
                              + IntBytes(v / 0x100 / 0x100 / 0x100 / 0x100, n - 4)
  {
    var v1, v2, v3 := v / 0x100, v / 0x100 / 0x100, v / 0x100 / 0x100 / 0x100;
    assert IntBytes(v, n) == [v % 0x100] + IntBytes(v1, n - 1);
    assert IntBytes(v1, n - 1) == [v1 % 0x100] + IntBytes(v2, n - 2);
    assert IntBytes(v2, n - 2) == [v2 % 0x100] + IntBytes(v3, n - 3);
    assert IntBytes(v3, n - 3) == [v3 % 0x100] + IntBytes(v3 / 0x100, n - 4);
  }

  /** Values of one integer type, signed or unsigned, have distinct representations. */
  lemma {:induction false} IntBytesInjective(v: int, w: int, n: nat)
    requires IntBytes(v, n) == IntBytes(w, n)
    requires 0 - Range(n) < v - w < Range(n)
    ensures v == w
    decreases n
  {
    if n > 0 {
      var p, q := IntBytes(v, n), IntBytes(w, n);
      assert p[0] == q[0] && p[1..] == q[1..];
      assert p[1..] == IntBytes(v / 0x100, n - 1) && q[1..] == IntBytes(w / 0x100, n - 1);
      IntBytesInjective(v / 0x100, w / 0x100, n - 1);
    }
  }
}
