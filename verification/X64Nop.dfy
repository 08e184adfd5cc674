/** Multi-byte x86-64 NOPs: the table, the fill routine, and a decoder for the instructions that may
    stand in padding. */
module X64Nop {
  import opened StripeFold

  // ---- the table ----

  const TABLE: seq<Bytes> := [
    [0x90],
    [0x66, 0x90],
    [0x0F, 0x1F, 0x00],
    [0x0F, 0x1F, 0x40, 0x00],
    [0x0F, 0x1F, 0x44, 0x00, 0x00],
    [0x66, 0x0F, 0x1F, 0x44, 0x00, 0x00],
    [0x0F, 0x1F, 0x80, 0x00, 0x00, 0x00, 0x00],
    [0x0F, 0x1F, 0x84, 0x00, 0x00, 0x00, 0x00, 0x00],
    [0x66, 0x0F, 0x1F, 0x84, 0x00, 0x00, 0x00, 0x00, 0x00],
    [0x66, 0x2E, 0x0F, 0x1F, 0x84, 0x00, 0x00, 0x02, 0x00, 0x00],
    [0x66, 0x66, 0x2E, 0x0F, 0x1F, 0x84, 0x00, 0x00, 0x02, 0x00, 0x00],
    [0x66, 0x66, 0x66, 0x2E, 0x0F, 0x1F, 0x84, 0x00, 0x00, 0x02, 0x00, 0x00],
    [0x66, 0x66, 0x66, 0x66, 0x2E, 0x0F, 0x1F, 0x84, 0x00, 0x00, 0x02, 0x00, 0x00],
    [0x66, 0x66, 0x66, 0x66, 0x66, 0x2E, 0x0F, 0x1F, 0x84, 0x00, 0x00, 0x02, 0x00, 0x00],
    [0x66, 0x66, 0x66, 0x66, 0x66, 0x66, 0x2E, 0x0F, 0x1F, 0x84, 0x00, 0x00, 0x02, 0x00, 0x00]]

  /** `GetX64MultiByteNOPInst` */
  function NopInst(instLength: nat): (p: Bytes)
    requires 1 <= instLength <= 15
    ensures |p| == instLength
  {
    TABLE[instLength - 1]
  }

  // ---- decoding ----

  datatype Inst = Nop(length: nat) | ShortJump(displacement: int) | Unknown

  function At(p: Bytes, i: nat): nat {
    if i < |p| then p[i] else 0
  }

  /** The operand-size and segment prefixes in front of an instruction. */
  function Prefixes(p: Bytes): nat {
    if p != [] && (p[0] == 0x66 || p[0] == 0x2E) then 1 + Prefixes(p[1..]) else 0
  }

  /** Bytes after the ModR/M byte: the SIB byte and the displacement. */
  function AddressBytes(modRm: nat, sib: nat): nat {
    var mod, rm := modRm / 0x40, modRm % 8;
    if mod == 3 then 0
    else
      (if rm == 4 then 1 else 0)
      + (if mod == 1 then 1
         else if mod == 2 then 4
         else if rm == 5 || (rm == 4 && sib % 8 == 5) then 4 else 0)
  }

  /** The instruction at the start of `p`: a NOP (opcodes 90, and 0F 1F /0), a jump with an 8-bit
      displacement, or something else.  No instruction is longer than 15 bytes. */
  function Decode(p: Bytes): Inst {
    var n := Prefixes(p);
    if At(p, n) == 0x90 && n < 15 then Nop(n + 1)
    else if At(p, n) == 0x0F && At(p, n + 1) == 0x1F && At(p, n + 2) / 8 % 8 == 0
            && n + 3 + AddressBytes(At(p, n + 2), At(p, n + 3)) <= 15 then
      Nop(n + 3 + AddressBytes(At(p, n + 2), At(p, n + 3)))
    else if n == 0 && At(p, 0) == 0xEB then
      ShortJump(if At(p, 1) < 0x80 then At(p, 1) else At(p, 1) - 0x100)
    else Unknown
  }

  lemma {:induction false} PrefixesAre(p: Bytes, n: nat)
    requires n < |p| && (forall i :: 0 <= i < n ==> p[i] == 0x66 || p[i] == 0x2E)
    requires p[n] != 0x66 && p[n] != 0x2E
    ensures Prefixes(p) == n
  {
    if n > 0 {
      PrefixesAre(p[1..], n - 1);
    }
  }

  /** An instruction is known from its first bytes. */
  lemma DecodeNop(p: Bytes, n: nat, modRm: nat, sib: nat, k: nat)
    requires n + 3 <= k <= 15 && k <= |p| && (forall i :: 0 <= i < n ==> p[i] == 0x66 || p[i] == 0x2E)
    requires p[n] == 0x0F && p[n + 1] == 0x1F && p[n + 2] == modRm && modRm / 8 % 8 == 0
    requires At(p, n + 3) == sib || (modRm % 8 != 4)
    requires k == n + 3 + AddressBytes(modRm, sib)
    ensures Decode(p) == Nop(k)
  {
    hide Prefixes;
    PrefixesAre(p, n);
  }

  function NumPrefixes(k: nat): nat {
    if k == 6 || k == 9 then 1 else if k >= 10 then k - 8 else 0
  }

  /** A table entry from three bytes on: prefixes, the opcode, and the address bytes it announces. */
  predicate IsLongNop(q: Bytes, n: nat) {
    && n + 3 <= |q| <= 15
    && (forall i :: 0 <= i < n ==> q[i] == 0x66 || q[i] == 0x2E)
    && q[n] == 0x0F && q[n + 1] == 0x1F && q[n + 2] / 8 % 8 == 0
    && |q| == n + 3 + AddressBytes(q[n + 2], 0)
    && (q[n + 2] % 8 == 4 ==> n + 3 < |q| && q[n + 3] == 0)
  }

  lemma IntelShapes(k: nat)
    requires 3 <= k <= 9
    ensures IsLongNop(TABLE[k - 1], NumPrefixes(k))
  {
  }

  lemma LongShapes(k: nat)
    requires 10 <= k <= 12
    ensures IsLongNop(TABLE[k - 1], NumPrefixes(k))
  {
  }

  lemma LongestShapes(k: nat)
    requires 13 <= k <= 15
    ensures IsLongNop(TABLE[k - 1], NumPrefixes(k))
  {
  }

  /** Every table entry is one NOP of its length, whatever bytes follow it. */
  lemma TableIsNops(k: nat, rest: Bytes)
    requires 1 <= k <= 15
    ensures Decode(NopInst(k) + rest) == Nop(k)
  {
    hide Prefixes, Decode, NumPrefixes;
    if k <= 2 {
      ShortNops(k, NopInst(k) + rest);
    } else {
      if k < 10 {
        IntelShapes(k);
      } else if k < 13 {
        LongShapes(k);
      } else {
        LongestShapes(k);
      }
      LongNopFirst(NopInst(k), NumPrefixes(k), rest);
    }
  }

  lemma LongNopFirst(q: Bytes, n: nat, rest: Bytes)
    requires IsLongNop(q, n)
    ensures Decode(q + rest) == Nop(|q|)
  {
    hide Prefixes, Decode, AddressBytes;
    DecodeNop(q + rest, n, q[n + 2], 0, |q|);
  }

  lemma ShortNops(k: nat, p: Bytes)
    requires k <= |p| && (k == 1 || (k == 2 && p[0] == 0x66)) && p[k - 1] == 0x90
    ensures Decode(p) == Nop(k)
  {
    hide Prefixes;
    PrefixesAre(p, k - 1);
  }

  // ---- filling ----

  /** As many 15-byte NOPs as fit, and then one for the rest. */
  function Nops(n: nat): (p: Bytes)
    ensures |p| == n
  {
    if n == 0 then []
    else
      var k := if n < 15 then n else 15;
      NopInst(k) + Nops(n - k)
  }

  lemma {:induction false} NopsMore(n: nat, k: nat)
    requires 1 <= k <= 15 && k <= n && (k == 15 || k == n)
    ensures Nops(n) == NopInst(k) + Nops(n - k)
  {
  }

  /** `FillAddressRangeWithX64MultiByteNOPs` */
  method FillWithNops(mem: array<Byte>, start: nat, count: nat)
    requires start + count <= mem.Length
    modifies mem
    ensures mem[start..start + count] == Nops(count)
    ensures mem[..start] == old(mem[..start]) && mem[start + count..] == old(mem[start + count..])
  {
    hide Nops, NopInst;
    var addr, length := start, count;
    ghost var done: Bytes := [];
    assert done + Nops(count) == Nops(count);
    while length > 0
      invariant addr + length == start + count && start <= addr
      invariant mem[..addr] == old(mem[..start]) + done && done + Nops(length) == Nops(count)
      invariant mem[start + count..] == old(mem[start + count..])
    {
      var instLen := if 15 < length then 15 else length;
      var inst := NopInst(instLen);
      NopsMore(length, instLen);
      assert (done + inst) + Nops(length - instLen) == done + (inst + Nops(length - instLen));
      assert old(mem[..start]) + (done + inst) == old(mem[..start]) + done + inst;
      Store(mem, addr, inst);
      done := done + inst;
      length := length - instLen;
      addr := addr + instLen;
    }
    assert Nops(0) == [];
    assert mem[start..start + count] == mem[..start + count][start..];
    assert mem[..start] == mem[..start + count][..start];
  }

  method Store(mem: array<Byte>, off: nat, data: Bytes)
    requires off + |data| <= mem.Length
    modifies mem
    ensures mem[..off + |data|] == old(mem[..off]) + data
    ensures mem[off + |data|..] == old(mem[off + |data|..])
    ensures forall i :: off + |data| <= i <= mem.Length ==> mem[i..] == old(mem[i..])
  {
    forall i | 0 <= i < |data| {
      mem[off + i] := data[i];
    }
  }

  // ---- executing padding ----

  /** Where execution of padding first arrives at or behind `end`, if it consists of NOPs and forward
      jumps only. */
  function Land(code: Bytes, pos: nat, end: nat): int
    decreases end - pos
  {
    if pos >= end then pos
    else if pos > |code| then -1
    else
      match Decode(code[pos..])
      case Nop(n) => if n > 0 then Land(code, pos + n, end) else -1
      case ShortJump(d) => if d >= 0 then Land(code, pos + 2 + d, end) else -1
      case Unknown => -1
  }

  lemma LandNop(code: Bytes, pos: nat, end: nat, k: nat)
    requires pos < end && pos <= |code| && k > 0 && Decode(code[pos..]) == Nop(k)
    ensures Land(code, pos, end) == Land(code, pos + k, end)
  {
    hide Decode;
  }

  lemma LandThere(code: Bytes, end: nat)
    ensures Land(code, end, end) == end
  {
  }

  /** Filled padding is executed as whole NOPs and left exactly at its end. */
  lemma {:induction false} NopsLand(code: Bytes, pos: nat, n: nat)
    requires pos + n <= |code| && code[pos..pos + n] == Nops(n)
    ensures Land(code, pos, pos + n) == pos + n
    decreases n
  {
    hide Decode, Nops, NopInst, Land;
    if n == 0 {
      LandThere(code, pos);
    } else {
      var k := if n < 15 then n else 15;
      NopsMore(n, k);
      FirstNop(code, pos, n, k, Nops(n - k));
      TableIsNops(k, Nops(n - k) + code[pos + n..]);
      LandNop(code, pos, pos + n, k);
      NopsLand(code, pos + k, n - k);
    }
  }

  lemma FirstNop(code: Bytes, pos: nat, n: nat, k: nat, rest: Bytes)
    requires 1 <= k <= 15 && k <= n && pos + n <= |code| && |rest| == n - k && code[pos..pos + n] == NopInst(k) + rest
    ensures code[pos..] == NopInst(k) + (rest + code[pos + n..])
    ensures code[pos + k..pos + k + (n - k)] == rest
  {
    hide NopInst;
    assert code[pos..] == code[pos..pos + n] + code[pos + n..];
    assert code[pos + k..pos + k + (n - k)] == code[pos..pos + n][k..];
  }

  /** A short jump over the rest of the padding. */
  lemma JumpLands(code: Bytes, pos: nat, n: nat)
    requires 2 <= n <= 129 && pos + n <= |code| && code[pos] == 0xEB && code[pos + 1] == n - 2
    ensures Land(code, pos, pos + n) == pos + n
  {
    assert Prefixes(code[pos..]) == 0;
    assert Decode(code[pos..]) == ShortJump(n - 2);
  }
}
