/** The hash helpers the rest of the repository uses: strings in one or many pieces, and
    primitive values. */
module HashFunctions {
  import opened StripeFold
  import opened LittleEndian
  import opened XxhWords
  import opened Xxh3Long
  import opened Xxh3Short
  import opened Xxh3OneShot
  import opened Xxh3Injective
  import S = Xxh3State

  // ---- strings ----

  datatype StringLengthAndHash = StringLengthAndHash(length: nat, hashValue: Word64)

  function Concat(pieces: seq<Bytes>): Bytes {
    if pieces == [] then [] else pieces[0] + Concat(pieces[1..])
  }

  /** The piece iterator callers hand in. */
  class PieceIterator {
    const pieces: seq<Bytes>
    var next: nat

    ghost predicate Valid()
      reads this
    {
      next <= |pieces|
    }

    constructor (pieces: seq<Bytes>)
      ensures Valid() && this.pieces == pieces && next == 0
    {
      this.pieces := pieces;
      next := 0;
    }

    predicate HasMore()
      requires Valid()
      reads this
    {
      next < |pieces|
    }

    method GetAndAdvance() returns (piece: Bytes)
      requires Valid() && HasMore()
      modifies this
      ensures Valid() && next == old(next) + 1 && piece == pieces[old(next)]
    {
      piece := pieces[next];
      next := next + 1;
    }
  }

  method HashString(k: Kernel, s: Bytes) returns (h: Word64)
    ensures h == Hash(k, DEFAULT, s)
  {
    h := Xxh3Hash(k, s);
  }

  /** Feeds all remaining pieces to a state. */
  method FeedPieces(state: S.State, iterator_: PieceIterator) returns (totalLength: nat)
    requires iterator_.Valid() && state.Valid() && state.fed == []
    requires |Concat(iterator_.pieces[iterator_.next..])| < 0x1_0000_0000_0000_0000
    modifies iterator_, state, state.buffer
    ensures state.Valid() && state.mode == old(state.mode)
    ensures state.fed == Concat(old(iterator_.pieces[iterator_.next..])) && totalLength == |state.fed|
  {
    hide S.State.Valid;
    totalLength := 0;
    ghost var whole := Concat(iterator_.pieces[iterator_.next..]);
    while iterator_.HasMore()
      invariant iterator_.Valid() && state.Valid() && state.mode == old(state.mode)
      invariant state.fed + Concat(iterator_.pieces[iterator_.next..]) == whole
      invariant totalLength == |state.fed|
      decreases |iterator_.pieces| - iterator_.next
    {
      ghost var rest := iterator_.pieces[iterator_.next..];
      assert rest[1..] == iterator_.pieces[iterator_.next + 1..];
      assert Concat(rest) == rest[0] + Concat(rest[1..]);
      var str := iterator_.GetAndAdvance();
      totalLength := totalLength + |str|;
      var err := state.Update(str);
      assert err == S.OK;
    }
    assert iterator_.pieces[iterator_.next..] == [];
    assert state.fed == whole;
  }

  /** However a string is cut into pieces, the result is the hash and length of the whole string. */
  method HashMultiPieceString(k: Kernel, iterator_: PieceIterator) returns (r: StringLengthAndHash)
    requires iterator_.Valid()
    requires |Concat(iterator_.pieces[iterator_.next..])| < 0x1_0000_0000_0000_0000
    modifies iterator_
    ensures var whole := Concat(old(iterator_.pieces[iterator_.next..]));
            r.length == |whole| && r.hashValue == Hash(k, DEFAULT, whole)
  {
    hide Hash, S.State.Valid, S.State.Allocated;
    var state := new S.State(k);
    var err := state.Reset();
    assert err == S.OK;
    var totalLength := FeedPieces(state, iterator_);
    var hash := state.Digest();
    r := StringLengthAndHash(totalLength, hash);
  }

  // ---- primitive values ----

  /** The representation has the byte order that the hash reads: four and eight bytes are read as the
      value itself. */
  lemma RepresentationIsRead(v: nat)
    ensures v < 0x1_0000_0000 ==> ReadLE32(IntBytes(v, 4)) == v
    ensures v < 0x1_0000_0000_0000_0000 ==> ReadLE64(IntBytes(v, 8)) == v
  {
    hide ReadLE32, WriteLE32, IntBytes;
    if v < 0x1_0000_0000 {
      FourBytes(v);
      ReadWrite32(v);
    }
    if v < 0x1_0000_0000_0000_0000 {
      EightBytes(v);
      ReadWrite64(v);
    }
  }

  lemma FourBytes(v: Word32)
    ensures IntBytes(v, 4) == WriteLE32(v)
  {
    FirstFour(v, 4);
  }

  lemma EightBytes(v: Word64)
    ensures IntBytes(v, 8) == WriteLE64(v)
  {
    FirstFour(v, 8);
    FourBytes(v / 0x1_0000_0000);
    assert v / 0x100 / 0x100 / 0x100 / 0x100 == v / 0x1_0000_0000;
    var low := v % 0x1_0000_0000;
    assert low % 0x100 == v % 0x100 && low / 0x100 % 0x100 == v / 0x100 % 0x100;
    assert low / 0x100 / 0x100 % 0x100 == v / 0x100 / 0x100 % 0x100;
    assert low / 0x100 / 0x100 / 0x100 == v / 0x100 / 0x100 / 0x100 % 0x100;
  }

  function HashPrimitive(value: int, n: nat): Word64
    requires 1 <= n <= 8
  {
    HashShort(IntBytes(value, n), K_SECRET, 0)
  }

  /** `HashPrimitiveTypes` on an `n`-byte integer. */
  method HashInteger(k: Kernel, value: int, n: nat) returns (h: Word64)
    requires 1 <= n <= 8
    ensures h == HashPrimitive(value, n)
  {
    hide HashShort, HashLong;
    h := Xxh3Hash(k, IntBytes(value, n));
  }

  /** Distinct integers of one type of at most 8 bytes never collide. */
  lemma HashPrimitiveInjective(v: int, w: int, n: nat)
    requires 1 <= n <= 8 && 0 - Range(n) < v - w < Range(n)
    ensures HashPrimitive(v, n) == HashPrimitive(w, n) ==> v == w
  {
    hide HashShort;
    if HashPrimitive(v, n) == HashPrimitive(w, n) {
      if n <= 3 {
        Len1to3Injective(IntBytes(v, n), IntBytes(w, n), K_SECRET, 0);
      } else {
        Len4to8Injective(IntBytes(v, n), IntBytes(w, n), K_SECRET, 0);
      }
      IntBytesInjective(v, w, n);
    }
  }

  // Floating-point values are known by their bit patterns.

  datatype Float = Float(bits: nat, exponentBits: nat, fractionBits: nat)

  /** IEEE 754 double and single precision. */
  predicate IsFloat(f: Float) {
    && (f.exponentBits, f.fractionBits) in {(11, 52), (8, 23)}
    && f.bits < Range(Width(f))
  }

  function Width(f: Float): nat {
    (1 + f.exponentBits + f.fractionBits) / 8
  }

  function SignBit(f: Float): nat
    requires IsFloat(f)
  {
    if f.fractionBits == 52 then 0x8000_0000_0000_0000 else 0x8000_0000
  }

  function Infinity(f: Float): nat
    requires IsFloat(f)
  {
    if f.fractionBits == 52 then 0x7FF0_0000_0000_0000 else 0x7F80_0000
  }

  predicate IsZero(f: Float)
    requires IsFloat(f)
  {
    f.bits % SignBit(f) == 0
  }

  predicate IsNaN(f: Float)
    requires IsFloat(f)
  {
    f.bits % SignBit(f) > Infinity(f)
  }

  /** Arithmetic equality of two values of one format: NaN equals nothing, the two zeros are equal. */
  predicate FloatEquals(f: Float, g: Float)
    requires IsFloat(f) && IsFloat(g) && f.fractionBits == g.fractionBits
  {
    !IsNaN(f) && !IsNaN(g) && (f.bits == g.bits || (IsZero(f) && IsZero(g)))
  }

  function Normalize(f: Float): nat
    requires IsFloat(f)
  {
    if IsZero(f) then 0 else f.bits
  }

  /** The two zeros are the bit patterns 0 and the sign bit alone; both are hashed as 0, everything else
      as it is. */
  lemma NormalizedZeros(f: Float)
    requires IsFloat(f)
    ensures var negativeZero := if f.exponentBits == 11 then 0x8000_0000_0000_0000 else 0x8000_0000;
            && (IsZero(f) <==> f.bits == 0 || f.bits == negativeZero)
            && Normalize(f) == if f.bits == negativeZero then 0 else f.bits
    ensures Width(f) == if f.exponentBits == 11 then 8 else 4
  {
    Widths();
  }

  /** NaN has all bits of the exponent set, and some of the fraction. */
  lemma NaNs(f: Float)
    requires IsFloat(f)
    ensures f.exponentBits == 11 ==> (IsNaN(f) <==>
              f.bits / 0x10_0000_0000_0000 % 0x800 == 0x7FF && f.bits % 0x10_0000_0000_0000 != 0)
    ensures f.exponentBits == 8 ==> (IsNaN(f) <==>
              f.bits / 0x80_0000 % 0x100 == 0xFF && f.bits % 0x80_0000 != 0)
  {
    Widths();
  }

  /** The formats that occur: all patterns of 64 bits, and all of 32. */
  lemma Formats(bits: nat)
    ensures IsFloat(Float(bits, 11, 52)) <==> bits < 0x1_0000_0000_0000_0000
    ensures IsFloat(Float(bits, 8, 23)) <==> bits < 0x1_0000_0000
  {
    Widths();
  }

  lemma Widths()
    ensures Range(8) == 0x1_0000_0000_0000_0000 && Range(4) == 0x1_0000_0000
  {
    assert Range(2) == 0x1_0000 && Range(4) == 0x1_0000_0000 && Range(6) == 0x1_0000_0000_0000;
  }

  /** `HashPrimitiveTypes` on a floating-point value. */
  method HashFloat(k: Kernel, f: Float) returns (h: Word64)
    requires IsFloat(f)
    ensures h == HashPrimitive(Normalize(f), Width(f))
  {
    var bits := f.bits;
    if IsZero(f) {
      bits := 0;
    }
    h := HashInteger(k, bits, Width(f));
  }

  /** On numbers, equal hashes mean equal values and conversely. */
  lemma FloatHashIffEqual(f: Float, g: Float)
    requires IsFloat(f) && IsFloat(g) && f.fractionBits == g.fractionBits
    requires !IsNaN(f) && !IsNaN(g)
    ensures HashPrimitive(Normalize(f), Width(f)) == HashPrimitive(Normalize(g), Width(g)) <==> FloatEquals(f, g)
  {
    hide HashPrimitive;
    assert Width(f) == Width(g) && 1 <= Width(f) <= 8;
    if HashPrimitive(Normalize(f), Width(f)) == HashPrimitive(Normalize(g), Width(g)) {
      HashPrimitiveInjective(Normalize(f), Normalize(g), Width(f));
    }
  }
}
