/** Base64 (RFC 4648, sections 4 and 5): encoding with either alphabet, decoding, and breaking the
    text into lines (RFC 2045, section 6.8, and PEM). */
module Base64 {
  import opened Arithmetic
  import opened StripeFold
  import opened Wrappers

  const NEWLINE: Byte := 10

  // ---- characters ----

  /** The character of a six-bit value; the alphabets differ in the last two. */
  function CharOf(v: nat, url: bool): (c: Byte)
    requires v < 64
  {
    if v < 26 then 65 + v
    else if v < 52 then 97 + (v - 26)
    else if v < 62 then 48 + (v - 52)
    else if v == 62 then (if url then 45 else 43)
    else if url then 95 else 47
  }

  function Trailing(url: bool): Byte {
    if url then 46 else 61
  }

  predicate IsTrailing(c: Byte) {
    c == 46 || c == 61
  }

  /** `pos_of_char`: throws on characters of neither alphabet. */
  function PosOfChar(c: Byte): (v: Option<nat>)
    ensures v.Some? ==> v.value < 64
  {
    if 65 <= c <= 90 then Some(c - 65)
    else if 97 <= c <= 122 then Some(c - 97 + (90 - 65) + 1)
    else if 48 <= c <= 57 then Some(c - 48 + (90 - 65) + (122 - 97) + 2)
    else if c == 43 || c == 45 then Some(62)
    else if c == 47 || c == 95 then Some(63)
    else None
  }

  /** Every character stands for its value, and is neither padding nor a line break. */
  lemma CharStands(v: nat, url: bool)
    requires v < 64
    ensures PosOfChar(CharOf(v, url)) == Some(v)
    ensures !IsTrailing(CharOf(v, url)) && CharOf(v, url) != NEWLINE
  {
  }

  /** No other character is read, and only the two padding characters end a group early. */
  lemma NothingElseStands(c: Byte, v: nat)
    ensures PosOfChar(c) == Some(v) <==> v < 64 && (c == CharOf(v, false) || c == CharOf(v, true))
    ensures IsTrailing(c) <==> c == '=' as int || c == '.' as int
  {
  }

  // ---- specification ----

  /** The four characters of a group of one to three bytes. */
  function EncodeGroup(g: Bytes, url: bool): (r: Bytes)
    requires 1 <= |g| <= 3
    ensures |r| == 4
  {
    var b0: nat, b1: nat, b2: nat := g[0], if |g| > 1 then g[1] else 0, if |g| > 2 then g[2] else 0;
    [CharOf(b0 / 4, url),
     CharOf(b0 % 4 * 16 + b1 / 16, url),
     if |g| > 1 then CharOf(b1 % 16 * 4 + b2 / 64, url) else Trailing(url),
     if |g| > 2 then CharOf(b2 % 64, url) else Trailing(url)]
  }

  function Encode(s: Bytes, url: bool): (r: Bytes)
    ensures |r| == (|s| + 2) / 3 * 4
  {
    if s == [] then []
    else if |s| <= 3 then EncodeGroup(s, url)
    else EncodeGroup(s[..3], url) + Encode(s[3..], url)
  }

  // ---- what is written ----

  predicate InAlphabet(c: Byte, url: bool) {
    || 'A' as int <= c <= 'Z' as int || 'a' as int <= c <= 'z' as int || '0' as int <= c <= '9' as int
    || if url then c == '-' as int || c == '_' as int else c == '+' as int || c == '/' as int
  }

  /** The number of padding characters: to the next multiple of three bytes. */
  function Padding(s: Bytes): (n: nat)
    ensures n < 3 && (|s| + n) % 3 == 0
  {
    (3 - |s| % 3) % 3
  }

  predicate AllInAlphabet(r: Bytes, url: bool) {
    forall k :: 0 <= k < |r| ==> InAlphabet(r[k], url)
  }

  predicate AllPadding(r: Bytes, url: bool) {
    forall k :: 0 <= k < |r| ==> r[k] == (if url then '.' else '=') as int
  }

  /** The text consists of characters of the alphabet asked for, and of as much padding at its end as
      the number of bytes needs. */
  lemma {:induction false} EncodedCharacters(s: Bytes, url: bool)
    ensures var r := Encode(s, url);
            Padding(s) <= |r| && AllInAlphabet(r[..|r| - Padding(s)], url) && AllPadding(r[|r| - Padding(s)..], url)
    decreases |s|
  {
    hide InAlphabet, EncodeGroup, Padding, AllInAlphabet, AllPadding;
    if |s| > 3 {
      var first, rest := EncodeGroup(s[..3], url), Encode(s[3..], url);
      EncodedCharacters(s[3..], url);
      GroupCharacters(s[..3], url);
      SamePadding(s);
      assert first[..4] == first;
      InFront(first, rest, Padding(s), url);
    } else if s != [] {
      GroupCharacters(s, url);
      LastPadding(s);
    } else {
      NoText(url);
    }
  }

  lemma LastPadding(s: Bytes)
    requires 1 <= |s| <= 3
    ensures Padding(s) == 3 - |s|
  {
  }

  lemma NoText(url: bool)
    ensures Padding([]) == 0 && AllInAlphabet([], url) && AllPadding([], url)
  {
  }

  lemma SamePadding(s: Bytes)
    requires |s| > 3
    ensures Padding(s[3..]) == Padding(s)
  {
  }

  lemma InFront(a: Bytes, r: Bytes, pad: nat, url: bool)
    requires pad <= |r| && AllInAlphabet(a, url) && AllInAlphabet(r[..|r| - pad], url)
    ensures AllInAlphabet((a + r)[..|a + r| - pad], url) && (a + r)[|a + r| - pad..] == r[|r| - pad..]
  {
    hide InAlphabet;
    var n := |r| - pad;
    assert (a + r)[..|a| + n] == a + r[..n];
  }

  lemma GroupCharacters(g: Bytes, url: bool)
    requires 1 <= |g| <= 3
    ensures AllInAlphabet(EncodeGroup(g, url)[..1 + |g|], url) && AllPadding(EncodeGroup(g, url)[1 + |g|..], url)
  {
  }

  /** Test vectors of RFC 4648, section 10, and both last characters of the two alphabets. */
  lemma TestVectors()
    ensures Encode(ASCII_FOOBAR[..1], false) == [90, 103, 61, 61] // "Zg=="
    ensures Encode(ASCII_FOOBAR[..2], false) == [90, 109, 56, 61] // "Zm8="
    ensures Encode(ASCII_FOOBAR[..3], false) == [90, 109, 57, 118] // "Zm9v"
    ensures Encode(ASCII_FOOBAR, false) == [90, 109, 57, 118, 89, 109, 70, 121] // "Zm9vYmFy"
    ensures Encode([0xFB, 0xFF], false) == [43, 47, 56, 61] // "+/8="
    ensures Encode([0xFB, 0xFF], true) == [45, 95, 56, 46] // "-_8."
  {
    assert ASCII_FOOBAR[..3] == [102, 111, 111] && ASCII_FOOBAR[3..] == [98, 97, 114];
    assert Encode(ASCII_FOOBAR[3..], false) == [89, 109, 70, 121];
  }

  const ASCII_FOOBAR: Bytes := [102, 111, 111, 98, 97, 114]

  /** A character of a C++ string; the position behind the last one holds a zero byte. */
  function At(s: Bytes, i: nat): Byte
    requires i <= |s|
  {
    if i < |s| then s[i] else 0
  }

  /** One group of up to four characters; the next one is read only after those before it were good. */
  function DecodeGroup(s: Bytes): (r: Option<Bytes>)
    requires s != []
  {
    var p1 := PosOfChar(At(s, 1));
    if p1.None? then None
    else
      var p0 := PosOfChar(At(s, 0));
      if p0.None? then None
      else
        var first: Bytes := [p0.value * 4 + p1.value / 16];
        if |s| == 1 then None
        else if IsTrailing(At(s, 2)) then Some(first)
        else
          var p2 := PosOfChar(At(s, 2));
          if p2.None? then None
          else
            var second := first + [p1.value % 16 * 16 + p2.value / 4];
            if |s| == 2 then None
            else if IsTrailing(At(s, 3)) then Some(second)
            else
              var p3 := PosOfChar(At(s, 3));
              if p3.None? then None else Some(second + [p2.value % 4 * 64 + p3.value])
  }

  function Decode(s: Bytes): Option<Bytes> {
    if s == [] then Some([])
    else
      var g := DecodeGroup(s);
      if g.None? then None
      else
        var rest := Decode(s[if |s| < 4 then |s| else 4..]);
        if rest.None? then None else Some(g.value + rest.value)
  }

  // ---- round trip ----

  /** What four readable characters, or fewer and padding, decode to. */
  lemma DecodeValues(s: Bytes, v0: nat, v1: nat, v2: nat, v3: nat, g: Bytes)
    requires |s| >= 4 && 1 <= |g| <= 3 && v0 < 64 && v1 < 64 && v2 < 64 && v3 < 64
    requires PosOfChar(s[0]) == Some(v0) && PosOfChar(s[1]) == Some(v1)
    requires if |g| == 1 then IsTrailing(s[2]) else !IsTrailing(s[2]) && PosOfChar(s[2]) == Some(v2)
    requires if |g| <= 2 then IsTrailing(s[3]) else !IsTrailing(s[3]) && PosOfChar(s[3]) == Some(v3)
    requires g[0] == v0 * 4 + v1 / 16
    requires |g| > 1 ==> g[1] == v1 % 16 * 16 + v2 / 4
    requires |g| > 2 ==> g[2] == v2 % 4 * 64 + v3
    ensures DecodeGroup(s) == Some(g)
  {
    hide PosOfChar, IsTrailing;
    assert DecodeGroup(s).Some?;
    assert DecodeGroup(s).value == g;
  }

  lemma GroupStands(g: Bytes, rest: Bytes, url: bool)
    requires 1 <= |g| <= 3
    ensures DecodeGroup(EncodeGroup(g, url) + rest) == Some(g)
  {
    hide CharOf, PosOfChar, IsTrailing;
    var b0: nat, b1: nat, b2: nat := g[0], if |g| > 1 then g[1] else 0, if |g| > 2 then g[2] else 0;
    CharStands(b0 / 4, url);
    CharStands(b0 % 4 * 16 + b1 / 16, url);
    CharStands(b1 % 16 * 4 + b2 / 64, url);
    CharStands(b2 % 64, url);
    assert IsTrailing(Trailing(url)) by { TrailingIsTrailing(url); }
    var s := EncodeGroup(g, url) + rest;
    assert At(s, 0) == EncodeGroup(g, url)[0] && At(s, 1) == EncodeGroup(g, url)[1];
    assert At(s, 2) == EncodeGroup(g, url)[2] && At(s, 3) == EncodeGroup(g, url)[3];
    Recombine(b0, b1, b2);
    DecodeValues(s, b0 / 4, b0 % 4 * 16 + b1 / 16, b1 % 16 * 4 + b2 / 64, b2 % 64, g);
  }

  lemma TrailingIsTrailing(url: bool)
    ensures IsTrailing(Trailing(url)) && Trailing(url) != NEWLINE
  {
  }

  lemma Recombine(b0: nat, b1: nat, b2: nat)
    requires b0 < 0x100 && b1 < 0x100 && b2 < 0x100
    ensures b0 / 4 * 4 + (b0 % 4 * 16 + b1 / 16) / 16 == b0
    ensures (b0 % 4 * 16 + b1 / 16) % 16 * 16 + (b1 % 16 * 4 + b2 / 64) / 4 == b1
    ensures (b1 % 16 * 4 + b2 / 64) % 4 * 64 + b2 % 64 == b2
  {
  }

  /** Whatever bytes are encoded, with either alphabet, decoding gives them back. */
  lemma {:induction false} RoundTrip(s: Bytes, url: bool)
    ensures Decode(Encode(s, url)) == Some(s)
    decreases |s|
  {
    hide DecodeGroup, EncodeGroup;
    if s != [] {
      var g := if |s| <= 3 then s else s[..3];
      var rest := s[|g|..];
      assert s == g + rest;
      var e := EncodeGroup(g, url);
      assert Encode(s, url) == e + Encode(rest, url);
      GroupStands(g, Encode(rest, url), url);
      RoundTrip(rest, url);
      assert (e + Encode(rest, url))[4..] == Encode(rest, url);
    }
  }

  // ---- the loops ----

  function NextPos(pos: nat): nat {
    (pos + 3) % 0x1_0000_0000
  }

  /** The body of the encoding loop. */
  method EncodeStep(s: Bytes, pos: nat, url: bool) returns (chunk: Bytes)
    requires pos < |s| < 0x1_0000_0000 && pos % 3 == 0
    ensures chunk == EncodeGroup(s[pos..if pos + 3 <= |s| then pos + 3 else |s|], url)
  {
    hide CharOf, Trailing;
    MultipleOfThree(pos);
    ghost var g := s[pos..if pos + 3 <= |s| then pos + 3 else |s|];
    assert g[0] == s[pos] && (|g| > 1 ==> g[1] == s[pos + 1]) && (|g| > 2 ==> g[2] == s[pos + 2]);
    assert 0 / 16 == 0 && 0 / 64 == 0;
    var b0: nat := s[pos];
    chunk := [CharOf(b0 / 4, url)];
    if (pos + 1) % 0x1_0000_0000 < |s| {
      var b1: nat := s[pos + 1];
      chunk := chunk + [CharOf(b0 % 4 * 16 + b1 / 16, url)];
      if (pos + 2) % 0x1_0000_0000 < |s| {
        var b2: nat := s[pos + 2];
        chunk := chunk + [CharOf(b1 % 16 * 4 + b2 / 64, url)];
        chunk := chunk + [CharOf(b2 % 64, url)];
      } else {
        chunk := chunk + [CharOf(b1 % 16 * 4, url)];
        chunk := chunk + [Trailing(url)];
      }
    } else {
      chunk := chunk + [CharOf(b0 % 4 * 16, url)];
      chunk := chunk + [Trailing(url)];
      chunk := chunk + [Trailing(url)];
    }
  }

  /** A position that is a multiple of three and below the largest 32-bit number does not wrap. */
  lemma MultipleOfThree(pos: nat)
    requires pos % 3 == 0 && pos < 0xFFFF_FFFF
    ensures pos + 3 <= 0xFFFF_FFFF
    ensures (pos + 1) % 0x1_0000_0000 == pos + 1 && (pos + 2) % 0x1_0000_0000 == pos + 2 && NextPos(pos) == pos + 3
    ensures (pos + 3) % 3 == 0
  {
  }

  /** What is still to be written from `pos` on. */
  function Remaining(s: Bytes, pos: nat, url: bool): Bytes {
    if pos < |s| then Encode(s[pos..], url) else []
  }

  lemma EncodeRest(s: Bytes, pos: nat, url: bool)
    requires pos < |s|
    ensures Remaining(s, pos, url)
         == EncodeGroup(s[pos..if pos + 3 <= |s| then pos + 3 else |s|], url) + Remaining(s, pos + 3, url)
  {
    hide EncodeGroup;
    if pos + 3 < |s| {
      assert s[pos..][..3] == s[pos..pos + 3] && s[pos..][3..] == s[pos + 3..];
    } else {
      assert s[pos..] == s[pos..|s|];
    }
  }

  /** `base64_encode`; its position is a 32-bit word. */
  method EncodeLoop(s: Bytes, url: bool) returns (ret: Bytes)
    requires |s| < 0x1_0000_0000
    ensures ret == Encode(s, url)
  {
    hide EncodeGroup, Encode, Remaining, NextPos;
    ret := [];
    var pos: nat := 0;
    RemainingEnds(s, url);
    while pos < |s|
      invariant pos % 3 == 0 && pos <= 0xFFFF_FFFF
      invariant ret + Remaining(s, pos, url) == Encode(s, url)
      decreases |s| - pos
    {
      EncodeRest(s, pos, url);
      MultipleOfThree(pos);
      var chunk := EncodeStep(s, pos, url);
      ghost var rest := Remaining(s, pos + 3, url);
      assert ret + (chunk + rest) == (ret + chunk) + rest;
      ret := ret + chunk;
      pos := NextPos(pos);
    }
    RemainingNothing(s, pos, url);
  }

  lemma RemainingEnds(s: Bytes, url: bool)
    ensures [] + Remaining(s, 0, url) == Encode(s, url)
  {
    assert s[0..] == s;
  }

  lemma RemainingNothing(s: Bytes, pos: nat, url: bool)
    requires pos >= |s|
    ensures Remaining(s, pos, url) == []
  {
  }

  /** The position after `n` rounds. */
  function PosAfter(n: nat): (pos: nat)
    ensures pos < 0x1_0000_0000
  {
    if n == 0 then 0 else NextPos(PosAfter(n - 1))
  }

  lemma {:induction false} PosIs(n: nat)
    requires 3 * n < 0x1_0000_0000
    ensures PosAfter(n) == 3 * n
  {
    if n > 0 {
      PosIs(n - 1);
    }
  }

  /** The encoding loop ends exactly for inputs of less than 2^32 bytes: the largest 32-bit number is
      a multiple of three, and no longer input is ever passed. */
  lemma EncodeEndsIff(length: nat)
    ensures (exists n :: PosAfter(n) >= length) <==> length < 0x1_0000_0000
  {
    if length < 0x1_0000_0000 {
      var n := (length + 2) / 3;
      PosIs(n);
      assert PosAfter(n) >= length;
    }
  }

  /** `decode` without removal of line breaks; errors end it. */
  method DecodeLoop(s: Bytes) returns (r: Option<Bytes>)
    ensures r == Decode(s)
  {
    hide DecodeGroup;
    if s == [] {
      return Some([]);
    }
    var ret: Bytes := [];
    var pos := 0;
    assert s[0..] == s && forall r: Option<Bytes> :: r.Some? ==> [] + r.value == r.value;
    while pos < |s|
      invariant 0 <= pos
      invariant pos < |s| ==> Decode(s) == Prepend(ret, Decode(s[pos..]))
      invariant pos >= |s| ==> Decode(s) == Some(ret)
    {
      var rest := s[pos..];
      var group := DecodeStep(rest);
      if group.None? {
        return None;
      }
      assert rest[if |rest| < 4 then |rest| else 4..] == if pos + 4 < |s| then s[pos + 4..] else [];
      PrependTwice(ret, group.value);
      assert Decode([]) == Some([]) && ret + group.value + [] == ret + group.value;
      assert Decode(rest) == Prepend(group.value, Decode(if pos + 4 < |s| then s[pos + 4..] else []));
      ret := ret + group.value;
      pos := pos + 4;
    }
    r := Some(ret);
  }

  function Prepend(a: Bytes, r: Option<Bytes>): Option<Bytes> {
    if r.None? then None else Some(a + r.value)
  }

  lemma PrependTwice(a: Bytes, b: Bytes)
    ensures forall r :: Prepend(a, Prepend(b, r)) == Prepend(a + b, r)
  {
    forall r ensures Prepend(a, Prepend(b, r)) == Prepend(a + b, r) {
      if r.Some? {
        assert a + (b + r.value) == a + b + r.value;
      }
    }
  }

  /** The body of the loop: no character beyond the terminating zero is ever read. */
  method DecodeStep(s: Bytes) returns (r: Option<Bytes>)
    requires s != []
    ensures r == DecodeGroup(s)
  {
    hide PosOfChar, IsTrailing;
    ZeroIsBad();
    var p1 := PosOfChar(At(s, 1));
    if p1.None? {
      return None;
    }
    var p0 := PosOfChar(At(s, 0));
    if p0.None? {
      return None;
    }
    var ret: Bytes := [p0.value * 4 + p1.value / 16];
    if !IsTrailing(At(s, 2)) {
      var p2 := PosOfChar(At(s, 2));
      if p2.None? {
        return None;
      }
      ret := ret + [p1.value % 16 * 16 + p2.value / 4];
      if !IsTrailing(At(s, 3)) {
        var p3 := PosOfChar(At(s, 3));
        if p3.None? {
          return None;
        }
        ret := ret + [p2.value % 4 * 64 + p3.value];
      }
    }
    r := Some(ret);
  }

  lemma ZeroIsBad()
    ensures PosOfChar(0).None? && !IsTrailing(0)
  {
  }

  // ---- line breaks ----

  function Broken(s: Bytes, distance: nat): Bytes
    requires distance > 0
  {
    if |s| <= distance then s else s[..distance] + [NEWLINE] + Broken(s[distance..], distance)
  }

  /** One round of the loop: a break at the position, which moves on by a line and the break. */
  function NextBreak(text: Bytes, pos: nat, distance: nat): (Bytes, nat)
    requires pos <= |text|
  {
    (text[..pos] + [NEWLINE] + text[pos..], pos + (distance + 1))
  }

  /** Text and position after `n` rounds, or where the loop ended before. */
  function AfterBreaks(str: Bytes, distance: nat, n: nat): (Bytes, nat) {
    if n == 0 then (str, distance)
    else
      var (text, pos) := AfterBreaks(str, distance, n - 1);
      if pos < |text| then NextBreak(text, pos, distance) else (text, pos)
  }

  predicate BreaksDone(str: Bytes, distance: nat, n: nat) {
    var (text, pos) := AfterBreaks(str, distance, n);
    pos >= |text|
  }

  /** `insert_linebreaks`: the text grows while it is walked. */
  method InsertLinebreaks(str: Bytes, distance: nat) returns (r: Bytes)
    requires distance > 0
    ensures r == Broken(str, distance)
    ensures exists n :: BreaksDone(str, distance, n) && r == AfterBreaks(str, distance, n).0
  {
    r := str;
    ghost var n := 0;
    if |str| == 0 {
      assert BreaksDone(str, distance, n);
      return;
    }
    var pos := distance;
    ghost var done, rest: Bytes := [], str;
    while pos < |r|
      invariant r == done + rest && pos == |done| + distance && done + Broken(rest, distance) == Broken(str, distance)
      invariant (r, pos) == AfterBreaks(str, distance, n)
      decreases |rest|
    {
      LineBroken(done, rest, distance);
      done, rest := done + (rest[..distance] + [NEWLINE]), rest[distance..];
      r := r[..pos] + [NEWLINE] + r[pos..];
      pos := pos + (distance + 1);
      n := n + 1;
    }
    assert BreaksDone(str, distance, n);
  }

  /** A break behind the first line of the rest. */
  lemma LineBroken(done: Bytes, rest: Bytes, distance: nat)
    requires 0 < distance < |rest|
    ensures var line, pos, r := rest[..distance] + [NEWLINE], |done| + distance, done + rest;
            && r[..pos] + [NEWLINE] + r[pos..] == (done + line) + rest[distance..]
            && (done + line) + Broken(rest[distance..], distance) == done + Broken(rest, distance)
  {
    assert Broken(rest, distance) == rest[..distance] + [NEWLINE] + Broken(rest[distance..], distance);
  }

  /** As long as the loop goes on, every round moves the position by a line and a break, and the text
      grows by the break. */
  lemma {:induction false} BreaksAre(str: Bytes, distance: nat, n: nat)
    requires forall k: nat :: k < n ==> !BreaksDone(str, distance, k)
    ensures AfterBreaks(str, distance, n).1 == distance + n * (distance + 1) && |AfterBreaks(str, distance, n).0| == |str| + n
  {
    if n > 0 {
      BreaksAre(str, distance, n - 1);
      assert !BreaksDone(str, distance, n - 1);
    }
  }

  /** The loop ends exactly when lines are not empty, or there is no text. */
  lemma LinebreaksEndIff(str: Bytes, distance: nat)
    ensures (exists n :: BreaksDone(str, distance, n)) <==> distance > 0 || str == []
  {
    hide AfterBreaks;
    if distance > 0 || str == [] {
      if forall k: nat :: k < |str| ==> !BreaksDone(str, distance, k) {
        BreaksAre(str, distance, |str|);
        assert |str| * (distance + 1) == |str| * distance + |str| && |str| * distance + distance >= |str|;
        assert BreaksDone(str, distance, |str|);
      }
    } else {
      NeverDone(str);
    }
  }

  lemma NeverDone(str: Bytes)
    requires str != []
    ensures forall n: nat :: !BreaksDone(str, 0, n)
  {
    forall n: nat ensures !BreaksDone(str, 0, n) {
      NotDoneBy(str, n);
    }
  }

  lemma {:induction false} NotDoneBy(str: Bytes, n: nat)
    requires str != []
    ensures forall k: nat :: k <= n ==> !BreaksDone(str, 0, k)
  {
    if n > 0 {
      NotDoneBy(str, n - 1);
    }
    BreaksAre(str, 0, n);
  }

  function Without(s: Bytes, c: Byte): Bytes {
    if s == [] then [] else (if s[0] == c then [] else [s[0]]) + Without(s[1..], c)
  }

  lemma {:induction false} WithoutAppend(a: Bytes, b: Bytes, c: Byte)
    ensures Without(a + b, c) == Without(a, c) + Without(b, c)
  {
    if a == [] {
      assert a + b == b;
    } else {
      assert (a + b)[1..] == a[1..] + b;
      WithoutAppend(a[1..], b, c);
    }
  }

  lemma {:induction false} WithoutNothing(s: Bytes, c: Byte)
    requires c !in s
    ensures Without(s, c) == s
  {
    if s != [] {
      WithoutNothing(s[1..], c);
      assert s == [s[0]] + s[1..];
    }
  }

  /** Removing the line breaks undoes breaking the text. */
  lemma {:induction false} BrokenUndone(s: Bytes, distance: nat)
    requires distance > 0 && NEWLINE !in s
    ensures Without(Broken(s, distance), NEWLINE) == s
    decreases |s|
  {
    hide Without;
    if |s| <= distance {
      WithoutNothing(s, NEWLINE);
    } else {
      var line, rest := s[..distance], s[distance..];
      BrokenUndone(rest, distance);
      LineUndone(line, Broken(rest, distance));
      assert s == line + rest;
    }
  }

  lemma LineUndone(line: Bytes, rest: Bytes)
    requires NEWLINE !in line
    ensures Without(line + [NEWLINE] + rest, NEWLINE) == line + Without(rest, NEWLINE)
  {
    hide Without;
    WithoutNothing(line, NEWLINE);
    WithoutAppend(line + [NEWLINE], rest, NEWLINE);
    WithoutAppend(line, [NEWLINE], NEWLINE);
    WithoutOne(NEWLINE);
    assert line + [] == line;
  }

  lemma WithoutOne(c: Byte)
    ensures Without([c], c) == []
  {
    assert [c][1..] == [];
  }

  /** All lines but the last have the given length, and the last is not longer. */
  lemma {:induction false} LineLengths(s: Bytes, distance: nat, i: nat)
    requires distance > 0 && NEWLINE !in s && i < |Broken(s, distance)|
    ensures Broken(s, distance)[i] == NEWLINE <==> i % (distance + 1) == distance
    ensures Broken(s, distance)[|Broken(s, distance)| - 1] != NEWLINE
    decreases |s|
  {
    if |s| <= distance {
      SmallMod(i, distance + 1);
    } else {
      var rest := s[distance..];
      var d := distance + 1;
      if i < d {
        SmallMod(i, d);
        LineLengths(rest, distance, 0);
      } else {
        LineLengths(rest, distance, i - d);
        ModShift(i, d);
      }
    }
  }

  lemma SmallMod(i: nat, m: nat)
    requires i < m
    ensures i % m == i
  {
  }

  lemma ModShift(i: nat, m: nat)
    requires m > 0 && i >= m
    ensures (i - m) % m == i % m
  {
    var q, r := (i - m) / m, (i - m) % m;
    assert i == (q + 1) * m + r;
    DivModUnique(i, m, q + 1, r);
  }

  lemma {:induction false} EncodedHasNoNewline(s: Bytes, url: bool)
    ensures NEWLINE !in Encode(s, url)
    decreases |s|
  {
    hide EncodeGroup;
    if s != [] {
      var g := if |s| <= 3 then s else s[..3];
      GroupHasNoNewline(g, url);
      if |s| > 3 {
        EncodedHasNoNewline(s[3..], url);
      }
    }
  }

  lemma GroupHasNoNewline(g: Bytes, url: bool)
    requires 1 <= |g| <= 3
    ensures NEWLINE !in EncodeGroup(g, url)
  {
    hide CharOf, Trailing;
    var b0: nat, b1: nat, b2: nat := g[0], if |g| > 1 then g[1] else 0, if |g| > 2 then g[2] else 0;
    CharStands(b0 / 4, url);
    CharStands(b0 % 4 * 16 + b1 / 16, url);
    CharStands(b1 % 16 * 4 + b2 / 64, url);
    CharStands(b2 % 64, url);
    TrailingIsTrailing(url);
  }

  /** `std::remove` and `erase`. */
  method RemoveNewlines(s: Bytes) returns (r: Bytes)
    ensures r == Without(s, NEWLINE)
  {
    r := [];
    for i := 0 to |s|
      invariant r + Without(s[i..], NEWLINE) == Without(s, NEWLINE)
    {
      assert s[i..][1..] == s[i + 1..];
      if s[i] != NEWLINE {
        assert r + ([s[i]] + Without(s[i + 1..], NEWLINE)) == (r + [s[i]]) + Without(s[i + 1..], NEWLINE);
        r := r + [s[i]];
      }
    }
    assert s[|s|..] == [];
  }

  /** `base64_decode` */
  method Base64Decode(s: Bytes, removeLinebreaks: bool) returns (r: Option<Bytes>)
    ensures r == Decode(if removeLinebreaks then Without(s, NEWLINE) else s)
  {
    if s == [] {
      return Some([]);
    }
    var copy := s;
    if removeLinebreaks {
      copy := RemoveNewlines(s);
    }
    r := DecodeLoop(copy);
  }

  /** Encoding, breaking into lines as PEM (64) and MIME (76) do, and decoding gives the bytes back. */
  method EncodeWithLineBreaks(s: Bytes, lineLength: nat) returns (text: Bytes)
    requires |s| < 0x1_0000_0000 && lineLength > 0
    ensures Decode(Without(text, NEWLINE)) == Some(s)
    ensures forall i :: 0 <= i < |text| ==> (text[i] == NEWLINE <==> i % (lineLength + 1) == lineLength)
    ensures text != [] ==> text[|text| - 1] != NEWLINE
  {
    hide Encode, Decode, Without, Broken;
    var encoded := EncodeLoop(s, false);
    text := InsertLinebreaks(encoded, lineLength);
    EncodedHasNoNewline(s, false);
    BrokenUndone(encoded, lineLength);
    RoundTrip(s, false);
    forall i | 0 <= i < |text|
      ensures text[i] == NEWLINE <==> i % (lineLength + 1) == lineLength
      ensures text[|text| - 1] != NEWLINE
    {
      LineLengths(encoded, lineLength, i);
    }
    if text != [] {
      LineLengths(encoded, lineLength, 0);
    }
  }
}
