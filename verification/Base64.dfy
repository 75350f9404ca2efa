/**
 The inline base64 codec of the RTSP client (stubs/rtsp_client.cpp), RFC 4648 section 4. The
 decoder shifts six bits at a time through a 32-bit accumulator that is never reset.
 */
module Base64 {
  import opened Bytes

  const PAD: byte := 61
  const U32 := 0x1_0000_0000

  // ---------- Encoding ----------

  function Letter(v: nat): byte
    requires v < 64
  {
    if v < 26 then 65 + v
    else if v < 52 then 97 + (v - 26)
    else if v < 62 then 48 + (v - 52)
    else if v == 62 then 43 else 47
  }

  /** The four six-bit digits of a 24-bit group. */
  function Digit(v: nat, i: nat): (d: nat)
    requires i < 4
    ensures d < 64
  {
    if i == 0 then v / 262144 % 64 else if i == 1 then v / 4096 % 64 else if i == 2 then v / 64 % 64 else v % 64
  }

  function Group(b0: byte, b1: byte, b2: byte): nat {
    var x: int, y: int, z: int := b0, b1, b2;
    x * 65536 + y * 256 + z
  }

  function Encode(x: bytes): bytes {
    if |x| >= 3 then
      var v := Group(x[0], x[1], x[2]);
      [Letter(Digit(v, 0)), Letter(Digit(v, 1)), Letter(Digit(v, 2)), Letter(Digit(v, 3))] + Encode(x[3..])
    else if |x| == 1 then
      var v := Group(x[0], 0, 0);
      [Letter(Digit(v, 0)), Letter(Digit(v, 1)), PAD, PAD]
    else if |x| == 2 then
      var v := Group(x[0], x[1], 0);
      [Letter(Digit(v, 0)), Letter(Digit(v, 1)), Letter(Digit(v, 2)), PAD]
    else []
  }

  method EncodeBytes(data: bytes) returns (out: bytes)
    ensures out == Encode(data)
  {
    hide Letter, Digit, Group;
    out := [];
    var i, n := 0, |data|;
    assert data[0..] == data;
    while i + 3 <= n
      invariant i <= n && out + Encode(data[i..]) == Encode(data)
    {
      var v := Group(data[i], data[i + 1], data[i + 2]);
      assert data[i..][3..] == data[i + 3..];
      out := out + [Letter(Digit(v, 0)), Letter(Digit(v, 1)), Letter(Digit(v, 2)), Letter(Digit(v, 3))];
      i := i + 3;
    }
    if i + 1 == n {
      var v := Group(data[i], 0, 0);
      out := out + [Letter(Digit(v, 0)), Letter(Digit(v, 1)), PAD, PAD];
    } else if i + 2 == n {
      var v := Group(data[i], data[i + 1], 0);
      out := out + [Letter(Digit(v, 0)), Letter(Digit(v, 1)), Letter(Digit(v, 2)), PAD];
    }
  }

  // ---------- Decoding ----------

  predicate IsSkipped(c: byte) {
    c == 13 || c == 10 || c == 32
  }

  function Value(c: byte): (v: Option<nat>)
    ensures v.Some? ==> v.value < 64
  {
    if 65 <= c <= 90 then Some(c - 65)
    else if 97 <= c <= 122 then Some(c - 97 + 26)
    else if 48 <= c <= 57 then Some(c - 48 + 52)
    else if c == 43 then Some(62)
    else if c == 47 then Some(63)
    else None
  }

  /** The accumulator, the number of bits waiting in it, and the bytes produced. */
  datatype Acc = Acc(buf: nat, bits: nat, out: bytes)

  /** The 32-bit shift drops what leaves the top. Bits wait in pairs below a byte. */
  function Shift(a: Acc, v: nat): (r: Acc)
    requires v < 64 && a.bits < 8
    ensures r.buf < U32 && r.bits < 8
  {
    var buf := a.buf * 64 % U32 + v;
    if a.bits + 6 >= 8
    then Acc(buf, a.bits - 2, a.out + [buf / Power(a.bits - 2) % 256])
    else Acc(buf, a.bits + 6, a.out)
  }

  function Power(n: nat): (p: nat)
    ensures p > 0
  {
    if n == 0 then 1 else 2 * Power(n - 1)
  }

  function DecodeFrom(a: Acc, s: bytes): Option<bytes>
    requires a.bits < 8
    decreases |s|
  {
    if s == [] || s[0] == PAD then Some(a.out)
    else if IsSkipped(s[0]) then DecodeFrom(a, s[1..])
    else match Value(s[0])
      case None => None
      case Some(v) => DecodeFrom(Shift(a, v), s[1..])
  }

  function Decode(s: bytes): Option<bytes> {
    DecodeFrom(Acc(0, 0, []), s)
  }

  method DecodeBytes(s: bytes) returns (r: Option<bytes>)
    ensures r == Decode(s)
  {
    hide Value;
    var buf: nat, bits: nat, out: bytes := 0, 0, [];
    var i := 0;
    assert s[0..] == s;
    while i < |s|
      invariant i <= |s| && buf < U32 && bits < 8
      invariant DecodeFrom(Acc(buf, bits, out), s[i..]) == Decode(s)
    {
      var c := s[i];
      assert s[i..][1..] == s[i + 1..];
      i := i + 1;
      if c == PAD { return Some(out); }
      if IsSkipped(c) { continue; }
      var v := Value(c);
      if v == None { return None; }
      buf := buf * 64 % U32 + v.value;
      bits := bits + 6;
      if bits >= 8 {
        bits := bits - 8;
        out := out + [buf / Power(bits) % 256];
      }
    }
    return Some(out);
  }

  // ---------- Round trip ----------

  lemma LetterReadsBack(v: nat)
    requires v < 64
    ensures Value(Letter(v)) == Some(v) && Letter(v) != PAD && !IsSkipped(Letter(v))
  {
  }

  lemma DecodeLetter(a: Acc, v: nat, rest: bytes)
    requires v < 64 && a.bits < 8
    ensures DecodeFrom(a, [Letter(v)] + rest) == DecodeFrom(Shift(a, v), rest)
  {
    hide Letter, Shift, Value;
    LetterReadsBack(v);
    assert ([Letter(v)] + rest)[1..] == rest;
  }

  lemma LowBits(r: nat, k: int, low: nat)
    requires low < 16384 && r == k * 16384 + low
    ensures r % 16384 == low
  {
    QuotientRemainder(r, 16384, k, low);
  }

  /** The 14 low bits are all that later output can see, and the wrap does not reach them. */
  lemma WrapHarmless(buf: nat, v: nat)
    requires v < 64
    ensures (buf * 64 % U32 + v) % 16384 == buf % 256 * 64 + v
  {
    var w, q := buf * 64 % U32, buf * 64 / U32;
    var a, b := buf / 256, buf % 256;
    LowBits(w + v, a - 262144 * q, b * 64 + v);
  }

  /** A number whose low 12 bits are two digits. */
  ghost predicate EndsIn(buf: nat, d0: nat, d1: nat) {
    buf % 4096 == d0 * 64 + d1
  }

  lemma ShiftedEndsIn(buf: nat, d0: nat, d1: nat)
    requires d0 < 64 && d1 < 64 && buf % 64 == d0
    ensures EndsIn(buf * 64 % U32 + d1, d0, d1)
  {
    WrapHarmless(buf, d1);
    var r, m := buf * 64 % U32 + d1, buf % 256;
    QuotientRemainder(buf, 64, buf / 256 * 4 + m / 64, m % 64);
    QuotientRemainder(r, 4096, r / 16384 * 4 + m / 64, d0 * 64 + d1);
  }

  lemma QuotientRemainder(x: nat, n: nat, q: nat, r: nat)
    requires n > 0 && r < n && x == q * n + r
    ensures x / n == q && x % n == r
  {
    var q', r' := x / n, x % n;
    assert x == n * q' + r';
    assert (q' - q) * n == r - r' by { Distribute(q', q, n); }
    SmallMultiple(q' - q, n);
  }

  lemma Distribute(a: int, b: int, n: int)
    ensures (a - b) * n == n * a - b * n
  {
  }

  lemma SmallMultiple(k: int, n: int)
    requires -n < k * n < n
    ensures k == 0
  {
  }

  lemma TopEight(buf: nat, d0: nat, d1: nat)
    requires d0 < 64 && d1 < 64 && EndsIn(buf, d0, d1)
    ensures buf / 16 % 256 == d0 * 4 + d1 / 16
  {
    var k := buf / 4096;
    QuotientRemainder(buf, 16, k * 256 + d0 * 4 + d1 / 16, d1 % 16);
    QuotientRemainder(buf / 16, 256, k, d0 * 4 + d1 / 16);
  }

  lemma MiddleEight(buf: nat, d0: nat, d1: nat)
    requires d0 < 64 && d1 < 64 && EndsIn(buf, d0, d1)
    ensures buf / 4 % 256 == d0 % 16 * 16 + d1 / 4
  {
    var k, h := buf / 4096, d0 / 16;
    QuotientRemainder(buf, 4, k * 1024 + d0 * 16 + d1 / 4, d1 % 4);
    QuotientRemainder(buf / 4, 256, k * 4 + h, d0 % 16 * 16 + d1 / 4);
  }

  lemma LowEight(buf: nat, d0: nat, d1: nat)
    requires d0 < 64 && d1 < 64 && EndsIn(buf, d0, d1)
    ensures buf % 256 == d0 % 4 * 64 + d1
  {
    var k, h := buf / 4096, d0 / 4;
    QuotientRemainder(buf, 256, k * 16 + h, d0 % 4 * 64 + d1);
  }

  lemma ShiftFirst(a: Acc, d: nat)
    requires a.bits == 0 && d < 64
    ensures var r := Shift(a, d); r.bits == 6 && r.out == a.out && r.buf % 64 == d
  {
    WrapHarmless(a.buf, d);
    LastDigit(a.buf * 64 % U32 + d, a.buf % 256, d);
  }

  lemma LastDigit(r: nat, m: nat, d: nat)
    requires d < 64 && r % 16384 == m * 64 + d
    ensures r % 64 == d
  {
    QuotientRemainder(r, 64, r / 16384 * 256 + m, d);
  }

  lemma ShiftOut(a: Acc, d: nat)
    requires 2 <= a.bits < 8 && d < 64
    ensures var buf := a.buf * 64 % U32 + d;
            Shift(a, d) == Acc(buf, a.bits - 2, a.out + [buf / Power(a.bits - 2) % 256])
    ensures Power(0) == 1 && Power(2) == 4 && Power(4) == 16
  {
  }

  /** A digit that completes a byte. */
  lemma ShiftNext(a: Acc, d0: nat, d: nat)
    requires (a.bits == 6 || a.bits == 4 || a.bits == 2) && d0 < 64 && d < 64 && a.buf % 64 == d0
    ensures var r := Shift(a, d);
            r.bits == a.bits - 2 && r.buf % 64 == d &&
            r.out == a.out + [if a.bits == 6 then d0 * 4 + d / 16
                              else if a.bits == 4 then d0 % 16 * 16 + d / 4
                              else d0 % 4 * 64 + d]
  {
    hide Shift, Power;
    var buf := a.buf * 64 % U32 + d;
    ShiftOut(a, d);
    ShiftedEndsIn(a.buf, d0, d);
    TopEight(buf, d0, d);
    MiddleEight(buf, d0, d);
    LowEight(buf, d0, d);
    WrapHarmless(a.buf, d);
    LastDigit(buf, a.buf % 256, d);
  }

  /** A whole group from a byte boundary: three bytes out, nothing pending, whatever the
      accumulator held. */
  lemma GroupReadsBack(a: Acc, b0: byte, b1: byte, b2: byte)
    requires a.bits == 0
    ensures var v := Group(b0, b1, b2);
            var r2 := Shift(Shift(a, Digit(v, 0)), Digit(v, 1));
            var r3 := Shift(r2, Digit(v, 2));
            var r4 := Shift(r3, Digit(v, 3));
            r2.out == a.out + [b0] && r2.bits == 4 &&
            r3.out == a.out + [b0, b1] && r3.bits == 2 &&
            r4.out == a.out + [b0, b1, b2] && r4.bits == 0
  {
    hide Group, Digit, Shift;
    var v := Group(b0, b1, b2);
    GroupDigits(b0, b1, b2);
    var d0, d1, d2, d3 := Digit(v, 0), Digit(v, 1), Digit(v, 2), Digit(v, 3);
    var r1 := Shift(a, d0);
    var r2 := Shift(r1, d1);
    var r3 := Shift(r2, d2);
    ShiftFirst(a, d0);
    ShiftNext(r1, d0, d1);
    ShiftNext(r2, d1, d2);
    ShiftNext(r3, d2, d3);
    assert a.out + [b0] + [b1] == a.out + [b0, b1];
    assert a.out + [b0, b1] + [b2] == a.out + [b0, b1, b2];
  }

  lemma GroupDigits(b0: byte, b1: byte, b2: byte)
    ensures var v := Group(b0, b1, b2);
            Digit(v, 0) * 4 + Digit(v, 1) / 16 == b0 &&
            Digit(v, 1) % 16 * 16 + Digit(v, 2) / 4 == b1 &&
            Digit(v, 2) % 4 * 64 + Digit(v, 3) == b2
  {
    hide Group;
    FirstDigits(b0, b1, b2);
    LastDigits(b0, b1, b2);
  }

  lemma FirstDigits(x: int, y: int, z: int)
    requires 0 <= x < 256 && 0 <= y < 256 && 0 <= z < 256
    ensures var v := Group(x, y, z); Digit(v, 0) == x / 4 && Digit(v, 1) == x % 4 * 16 + y / 16
  {
    var v := Group(x, y, z);
    QuotientRemainder(v, 262144, x / 4, x % 4 * 65536 + y * 256 + z);
    QuotientRemainder(v, 4096, x * 16 + y / 16, y % 16 * 256 + z);
    QuotientRemainder(x * 16 + y / 16, 64, x / 4, x % 4 * 16 + y / 16);
  }

  lemma LastDigits(x: int, y: int, z: int)
    requires 0 <= x < 256 && 0 <= y < 256 && 0 <= z < 256
    ensures var v := Group(x, y, z); Digit(v, 2) == y % 16 * 4 + z / 64 && Digit(v, 3) == z % 64
  {
    var v := Group(x, y, z);
    QuotientRemainder(v, 64, x * 1024 + y * 4 + z / 64, z % 64);
    QuotientRemainder(x * 1024 + y * 4 + z / 64, 64, x * 16 + y / 16, y % 16 * 4 + z / 64);
  }

  lemma {:induction false} EncodeDecodes(a: Acc, x: bytes)
    requires a.bits == 0
    ensures DecodeFrom(a, Encode(x)) == Some(a.out + x)
    decreases |x|
  {
    hide Letter, Digit, Group, Shift, DecodeFrom;
    if |x| == 0 {
      NothingMore(a, []);
      assert a.out + x == a.out;
    } else {
      var b1: byte := if |x| > 1 then x[1] else 0;
      var b2: byte := if |x| > 2 then x[2] else 0;
      var v := Group(x[0], b1, b2);
      GroupReadsBack(a, x[0], b1, b2);
      var r1 := Shift(a, Digit(v, 0));
      var r2 := Shift(r1, Digit(v, 1));
      var r3 := Shift(r2, Digit(v, 2));
      var r4 := Shift(r3, Digit(v, 3));
      if |x| == 1 {
        var ds := [Digit(v, 0), Digit(v, 1)];
        DecodeLetters(a, ds, [PAD, PAD]);
        assert Encode(x) == Letters(ds) + [PAD, PAD];
        NothingMore(r2, [PAD, PAD]);
        assert x == [x[0]];
      } else if |x| == 2 {
        var ds := [Digit(v, 0), Digit(v, 1), Digit(v, 2)];
        DecodeLetters(a, ds, [PAD]);
        assert Encode(x) == Letters(ds) + [PAD];
        NothingMore(r3, [PAD]);
        assert x == [x[0], x[1]];
      } else {
        var ds := [Digit(v, 0), Digit(v, 1), Digit(v, 2), Digit(v, 3)];
        DecodeLetters(a, ds, Encode(x[3..]));
        assert Encode(x) == Letters(ds) + Encode(x[3..]);
        EncodeDecodes(r4, x[3..]);
        assert a.out + [x[0], x[1], x[2]] + x[3..] == a.out + x;
      }
    }
  }

  lemma NothingMore(a: Acc, s: bytes)
    requires a.bits < 8 && (s == [] || s[0] == PAD)
    ensures DecodeFrom(a, s) == Some(a.out)
  {
  }

  /** Two to four letters of a group in front of the rest. */
  lemma DecodeLetters(a: Acc, ds: seq<nat>, rest: bytes)
    requires a.bits < 8 && 2 <= |ds| <= 4 && forall i :: 0 <= i < |ds| ==> ds[i] < 64
    ensures var r2 := Shift(Shift(a, ds[0]), ds[1]);
            DecodeFrom(a, Letters(ds) + rest) ==
            if |ds| == 2 then DecodeFrom(r2, rest)
            else if |ds| == 3 then DecodeFrom(Shift(r2, ds[2]), rest)
            else DecodeFrom(Shift(Shift(r2, ds[2]), ds[3]), rest)
    ensures Letters(ds) == [Letter(ds[0]), Letter(ds[1])] +
            (if |ds| == 2 then [] else if |ds| == 3 then [Letter(ds[2])] else [Letter(ds[2]), Letter(ds[3])])
  {
    hide Letter, Shift, DecodeFrom;
    var r1 := Shift(a, ds[0]);
    LettersHead(ds, rest);
    LettersHead(ds[1..], rest);
    DecodeLetter(a, ds[0], Letters(ds[1..]) + rest);
    DecodeLetter(r1, ds[1], Letters(ds[2..]) + rest);
    if |ds| > 2 {
      var r2 := Shift(r1, ds[1]);
      LettersHead(ds[2..], rest);
      DecodeLetter(r2, ds[2], Letters(ds[3..]) + rest);
      if |ds| > 3 {
        LettersHead(ds[3..], rest);
        DecodeLetter(Shift(r2, ds[2]), ds[3], Letters(ds[4..]) + rest);
        assert Letters(ds[4..]) + rest == rest;
      } else {
        assert Letters(ds[3..]) + rest == rest;
      }
    } else {
      assert Letters(ds[2..]) + rest == rest;
    }
  }

  function Letters(ds: seq<nat>): bytes
    requires forall i :: 0 <= i < |ds| ==> ds[i] < 64
  {
    if ds == [] then [] else [Letter(ds[0])] + Letters(ds[1..])
  }

  lemma LettersHead(ds: seq<nat>, rest: bytes)
    requires ds != [] && forall i :: 0 <= i < |ds| ==> ds[i] < 64
    ensures Letters(ds) == [Letter(ds[0])] + Letters(ds[1..])
    ensures Letters(ds) + rest == [Letter(ds[0])] + (Letters(ds[1..]) + rest)
  {
    hide Letter;
    Joined([Letter(ds[0])], Letters(ds[1..]), rest);
  }

  /** base64_decode(base64_encode(x)) succeeds and is x. */
  lemma RoundTrip(x: bytes)
    ensures Decode(Encode(x)) == Some(x)
  {
    hide Encode, DecodeFrom;
    EncodeDecodes(Acc(0, 0, []), x);
    assert [] + x == x;
  }

  function WithoutSpace(s: bytes): bytes {
    if s == [] then [] else (if IsSkipped(s[0]) then [] else [s[0]]) + WithoutSpace(s[1..])
  }

  /** Line breaks and blanks anywhere change nothing. */
  lemma {:induction false} SpaceIgnored(a: Acc, s: bytes)
    requires a.bits < 8
    ensures DecodeFrom(a, s) == DecodeFrom(a, WithoutSpace(s))
    decreases |s|
  {
    hide Shift, Value;
    if s != [] && s[0] != PAD {
      var rest := WithoutSpace(s[1..]);
      if IsSkipped(s[0]) {
        assert WithoutSpace(s) == rest;
        SpaceIgnored(a, s[1..]);
      } else {
        assert WithoutSpace(s)[1..] == rest;
        match Value(s[0]) {
          case None =>
          case Some(v) => SpaceIgnored(Shift(a, v), s[1..]);
        }
      }
    }
  }

  // ---------- The alphabet and the groups of the standard ----------

  /** Table 1 of RFC 4648. */
  function Sign(d: nat): byte
    requires d < 64
  {
    if d < 26 then "ABCDEFGHIJKLMNOPQRSTUVWXYZ"[d] as int % 256
    else if d < 52 then "abcdefghijklmnopqrstuvwxyz"[d - 26] as int % 256
    else if d < 62 then "0123456789"[d - 52] as int % 256
    else "+/"[d - 62] as int % 256
  }

  lemma UpperIs(i: nat)
    requires i < 26
    ensures "ABCDEFGHIJKLMNOPQRSTUVWXYZ"[i] == 'A' + i as char
  {
  }

  lemma LowerIs(i: nat)
    requires i < 26
    ensures "abcdefghijklmnopqrstuvwxyz"[i] == 'a' + i as char
  {
  }

  lemma LetterIs(v: nat)
    requires v < 64
    ensures Letter(v) == Sign(v)
  {
    if v < 26 { UpperIs(v); } else if v < 52 { LowerIs(v - 26); }
  }

  lemma ValueIff(c: byte, v: nat)
    ensures Value(c) == Some(v) <==> v < 64 && c == Sign(v)
  {
    hide Sign;
    if v < 64 {
      LetterIs(v);
      LetterReadsBack(v);
    }
    if Value(c) == Some(v) { assert c == Letter(v); }
  }

  /** The letters for three bytes: six bits each, the highest first. */
  function FourSigns(a: byte, b: byte, c: byte): (s: bytes)
    ensures |s| == 4
  {
    [Sign(a / 4), Sign(a % 4 * 16 + b / 16), Sign(b % 16 * 4 + c / 64), Sign(c % 64)]
  }

  /** Three bytes are four letters; of one or two bytes at the end the bits are filled up with zeros and
      the letters with equals signs. */
  lemma {:induction false} EncodeGroups(x: bytes)
    ensures x == [] ==> Encode(x) == []
    ensures |x| == 1 ==> Encode(x) == FourSigns(x[0], 0, 0)[..2] + Ascii("==")
    ensures |x| == 2 ==> Encode(x) == FourSigns(x[0], x[1], 0)[..3] + Ascii("=")
    ensures |x| >= 3 ==> Encode(x) == FourSigns(x[0], x[1], x[2]) + Encode(x[3..])
  {
    hide Letter, Digit, Group, Sign, FourSigns;
    if x != [] { GroupLetters(x[0], if |x| > 1 then x[1] else 0, if |x| > 2 then x[2] else 0); }
  }

  lemma GroupLetters(a: byte, b: byte, c: byte)
    ensures var v := Group(a, b, c);
            FourSigns(a, b, c) == [Letter(Digit(v, 0)), Letter(Digit(v, 1)), Letter(Digit(v, 2)), Letter(Digit(v, 3))]
  {
    hide Letter, Digit, Group, Sign;
    var v := Group(a, b, c);
    FirstDigits(a, b, c);
    LastDigits(a, b, c);
    LetterIs(Digit(v, 0));
    LetterIs(Digit(v, 1));
    LetterIs(Digit(v, 2));
    LetterIs(Digit(v, 3));
  }

  /** What a text spells: letters up to the first equals sign, with any line breaks and blanks. */
  ghost predicate Spells(s: bytes, ds: seq<nat>)
    decreases |s|
  {
    if s == [] || s[0] as char == '=' then ds == []
    else if s[0] as char in {'\r', '\n', ' '} then Spells(s[1..], ds)
    else ds != [] && ds[0] < 64 && s[0] == Sign(ds[0]) && Spells(s[1..], ds[1..])
  }

  function Byte(v: int): byte {
    v % 256
  }

  /** The bytes of groups of four digits; bits left over at the end are dropped. */
  function Packed(ds: seq<nat>): bytes {
    if |ds| <= 1 then []
    else if |ds| == 2 then [Byte(ds[0] * 4 + ds[1] / 16)]
    else if |ds| == 3 then [Byte(ds[0] * 4 + ds[1] / 16), Byte(ds[1] % 16 * 16 + ds[2] / 4)]
    else
      [Byte(ds[0] * 4 + ds[1] / 16), Byte(ds[1] % 16 * 16 + ds[2] / 4), Byte(ds[2] % 4 * 64 + ds[3])] + Packed(ds[4..])
  }

  /** The same from inside a group whose last digit was `d`, when `bits` of it are still to come. */
  function PackedFrom(bits: nat, d: nat, ds: seq<nat>): bytes
    decreases |ds|
  {
    if ds == [] then []
    else
      (if bits == 6 then [Byte(d * 4 + ds[0] / 16)]
       else if bits == 4 then [Byte(d % 16 * 16 + ds[0] / 4)]
       else if bits == 2 then [Byte(d % 4 * 64 + ds[0])] else []) +
      PackedFrom(if bits == 0 then 6 else if bits >= 2 then bits - 2 else 0, ds[0], ds[1..])
  }

  lemma {:induction false} PackedIs(ds: seq<nat>, d: nat)
    ensures PackedFrom(0, d, ds) == Packed(ds)
    decreases |ds|
  {
    if |ds| >= 1 {
      FourSteps(ds, d);
      if |ds| >= 4 { PackedIs(ds[4..], ds[3]); }
    }
  }

  lemma FourSteps(ds: seq<nat>, d: nat)
    requires ds != []
    ensures |ds| < 4 ==> PackedFrom(0, d, ds) == Packed(ds)
    ensures |ds| >= 4 ==>
              PackedFrom(0, d, ds) ==
              [Byte(ds[0] * 4 + ds[1] / 16), Byte(ds[1] % 16 * 16 + ds[2] / 4), Byte(ds[2] % 4 * 64 + ds[3])] +
              PackedFrom(0, ds[3], ds[4..])
  {
    hide Byte, PackedFrom;
    OneStep(0, d, ds);
    if |ds| >= 2 {
      assert ds[1..][0] == ds[1] && ds[1..][1..] == ds[2..];
      OneStep(6, ds[0], ds[1..]);
    }
    if |ds| >= 3 {
      assert ds[2..][0] == ds[2] && ds[2..][1..] == ds[3..];
      OneStep(4, ds[1], ds[2..]);
    }
    if |ds| >= 4 {
      assert ds[3..][0] == ds[3] && ds[3..][1..] == ds[4..];
      OneStep(2, ds[2], ds[3..]);
    }
    NoneLeft(6, ds[0]);
    if |ds| == 2 { NoneLeft(4, ds[1]); }
    if |ds| == 3 { NoneLeft(2, ds[2]); }
  }

  lemma NoneLeft(bits: nat, d: nat)
    ensures PackedFrom(bits, d, []) == []
  {
  }

  lemma OneStep(bits: nat, d: nat, ds: seq<nat>)
    requires ds != []
    ensures var rest := PackedFrom(if bits == 0 then 6 else if bits >= 2 then bits - 2 else 0, ds[0], ds[1..]);
            PackedFrom(bits, d, ds) ==
              if bits == 6 then [Byte(d * 4 + ds[0] / 16)] + rest
              else if bits == 4 then [Byte(d % 16 * 16 + ds[0] / 4)] + rest
              else if bits == 2 then [Byte(d % 4 * 64 + ds[0])] + rest else rest
  {
    hide Byte;
  }

  lemma {:induction false} DecodeSteps(a: Acc, d: nat, s: bytes, ds: seq<nat>)
    requires a.bits in {0, 2, 4, 6} && d < 64 && (a.bits > 0 ==> a.buf % 64 == d) && Spells(s, ds)
    ensures DecodeFrom(a, s) == Some(a.out + PackedFrom(a.bits, d, ds))
    decreases |s|
  {
    hide Shift, Value, Sign;
    if s == [] || s[0] == PAD {
      assert a.out + [] == a.out;
    } else if IsSkipped(s[0]) {
      DecodeSteps(a, d, s[1..], ds);
    } else {
      var v := ds[0];
      ValueIff(s[0], v);
      var r := Shift(a, v);
      var now: bytes := if a.bits == 6 then [Byte(d * 4 + v / 16)] else if a.bits == 4 then [Byte(d % 16 * 16 + v / 4)]
        else if a.bits == 2 then [Byte(d % 4 * 64 + v)] else [];
      if a.bits == 0 { ShiftFirst(a, v); } else { ShiftNext(a, d, v); }
      assert r.out == a.out + now;
      DecodeSteps(r, v, s[1..], ds[1..]);
      Joined(a.out, now, PackedFrom(r.bits, v, ds[1..]));
    }
  }

  lemma {:induction false} DecodedIsSpelled(a: Acc, s: bytes) returns (ds: seq<nat>)
    requires a.bits < 8 && DecodeFrom(a, s).Some?
    ensures Spells(s, ds)
    decreases |s|
  {
    hide Shift, Value, Sign;
    ds := [];
    if s != [] && s[0] != PAD {
      if IsSkipped(s[0]) {
        ds := DecodedIsSpelled(a, s[1..]);
      } else {
        var v := Value(s[0]).value;
        ValueIff(s[0], v);
        var more := DecodedIsSpelled(Shift(a, v), s[1..]);
        ds := [v] + more;
      }
    }
  }

  /** The decoder against any sender: it succeeds exactly when the text is letters, blanks and line breaks
      up to the first equals sign, and gives the bytes that the letters spell. */
  lemma DecodeIff(s: bytes, x: bytes)
    ensures Decode(s) == Some(x) <==> exists ds :: Spells(s, ds) && x == Packed(ds)
  {
    hide DecodeFrom, Spells, Packed;
    var a := Acc(0, 0, []);
    forall ds | Spells(s, ds) ensures Decode(s) == Some(Packed(ds)) {
      DecodeSteps(a, 0, s, ds);
      PackedIs(ds, 0);
      assert [] + PackedFrom(0, 0, ds) == Packed(ds);
    }
    if Decode(s).Some? { var ds := DecodedIsSpelled(a, s); }
  }
}
