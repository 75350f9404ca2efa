/**
 One header line of an RTSP response (stubs/rtsp_client.cpp, section 4.2 of RFC 2616): trimming, letter
 case, `atoi`, and the length that the line announces, as a sender may spell it.
 */
module HeaderLine {
  import opened Bytes
  import opened Digits

  const SPACE: byte := 32
  const COLON: byte := 58
  const CONTENT_LENGTH: bytes :=
    [99, 111, 110, 116, 101, 110, 116, 45, 108, 101, 110, 103, 116, 104] // content-length

  predicate IsSpace(c: byte) {
    c == 32 || 9 <= c <= 13
  }

  function LowerByte(c: byte): byte {
    if 65 <= c <= 90 then c + 32 else c
  }

  function Lower(s: bytes): bytes {
    seq(|s|, i requires 0 <= i < |s| => LowerByte(s[i]))
  }

  function TrimLeft(s: bytes): bytes {
    if s != [] && IsSpace(s[0]) then TrimLeft(s[1..]) else s
  }

  function TrimRight(s: bytes): bytes {
    if s != [] && IsSpace(s[|s| - 1]) then TrimRight(s[..|s| - 1]) else s
  }

  function Trim(s: bytes): bytes {
    TrimRight(TrimLeft(s))
  }

  function Leading(s: bytes, acc: int): int {
    if s != [] && 48 <= s[0] <= 57 then Leading(s[1..], acc * 10 + (s[0] as int - 48)) else acc
  }

  /** `atoi`, on unbounded integers. */
  function Atoi(s: bytes): int {
    var t := TrimLeft(s);
    if t != [] && t[0] == 45 then -Leading(t[1..], 0)
    else if t != [] && t[0] == 43 then Leading(t[1..], 0)
    else Leading(t, 0)
  }

  function Find(s: bytes, c: byte, from: nat): (r: Option<nat>)
    requires from <= |s|
    ensures r.Some? ==> from <= r.value < |s| && s[r.value] == c
    decreases |s| - from
  {
    if from == |s| then None else if s[from] == c then Some(from) else Find(s, c, from + 1)
  }

  datatype Header = Header(key: bytes, val: bytes)

  function ParseHeaderLine(line: bytes): Option<Header> {
    match Find(line, COLON, 0)
    case None => None
    case Some(i) => Some(Header(Lower(Trim(line[..i])), Trim(line[i + 1..])))
  }

  function NextLength(length: int, line: bytes): int {
    match ParseHeaderLine(line)
    case None => length
    case Some(h) => if h.key == CONTENT_LENGTH then Atoi(h.val) else length
  }

  // ---------- What a sender may write ----------

  ghost predicate Blank(s: bytes) {
    forall i :: 0 <= i < |s| ==> s[i] as char in {' ', '\t', '\n', '\r'} || s[i] == 11 || s[i] == 12
  }

  /** The name in any mixture of upper and lower case. */
  ghost predicate Spells(s: bytes, name: string) {
    |s| == |name| &&
    forall i :: 0 <= i < |s| ==>
      s[i] == name[i] as int || ('a' <= name[i] <= 'z' && s[i] == name[i] as int - 'a' as int + 'A' as int)
  }

  lemma SpaceIff(c: byte)
    ensures IsSpace(c) <==> Blank([c])
  {
    assert Blank([c]) <==> [c][0] as char in {' ', '\t', '\n', '\r'} || [c][0] == 11 || [c][0] == 12;
  }

  lemma BlankAt(s: bytes, i: nat)
    requires Blank(s) && i < |s|
    ensures IsSpace(s[i])
  {
  }

  /** A blank at either side is trimmed, and nothing more. */
  lemma {:induction false} TrimsLeft(a: bytes, s: bytes)
    requires Blank(a) && (s != [] ==> !IsSpace(s[0]))
    ensures TrimLeft(a + s) == s
    decreases |a|
  {
    if a == [] {
      assert a + s == s;
    } else {
      BlankAt(a, 0);
      assert (a + s)[1..] == a[1..] + s;
      TrimsLeft(a[1..], s);
    }
  }

  lemma {:induction false} TrimsRight(s: bytes, b: bytes)
    requires Blank(b) && (s != [] ==> !IsSpace(s[|s| - 1]))
    ensures TrimRight(s + b) == s
    decreases |b|
  {
    if b == [] {
      assert s + b == s;
    } else {
      var n := |b| - 1;
      BlankAt(b, n);
      assert (s + b)[..|s| + n] == s + b[..n];
      TrimsRight(s, b[..n]);
    }
  }

  /** Every text is blanks, what trimming leaves, and blanks. */
  lemma {:induction false} LeftParts(s: bytes) returns (a: bytes)
    ensures Blank(a) && s == a + TrimLeft(s) && (TrimLeft(s) != [] ==> !IsSpace(TrimLeft(s)[0]))
    decreases |s|
  {
    a := [];
    if s != [] && IsSpace(s[0]) {
      var more := LeftParts(s[1..]);
      a := [s[0]] + more;
      assert s == [s[0]] + s[1..];
    }
  }

  lemma {:induction false} RightParts(s: bytes) returns (b: bytes)
    ensures Blank(b) && s == TrimRight(s) + b && (TrimRight(s) != [] ==> !IsSpace(TrimRight(s)[|TrimRight(s)| - 1]))
    ensures TrimRight(s) != [] ==> TrimRight(s)[0] == s[0]
    decreases |s|
  {
    b := [];
    if s != [] && IsSpace(s[|s| - 1]) {
      var n := |s| - 1;
      var more := RightParts(s[..n]);
      b := more + [s[n]];
      assert s == s[..n] + [s[n]];
    }
  }

  /** Every letter has its small form, which is its own. */
  lemma LettersLowered(i: nat)
    requires i < 26
    ensures LowerByte("ABCDEFGHIJKLMNOPQRSTUVWXYZ"[i] as int) == "abcdefghijklmnopqrstuvwxyz"[i] as int
    ensures LowerByte("abcdefghijklmnopqrstuvwxyz"[i] as int) == "abcdefghijklmnopqrstuvwxyz"[i] as int
  {
    assert "ABCDEFGHIJKLMNOPQRSTUVWXYZ"[i] == 'A' + i as char;
    assert "abcdefghijklmnopqrstuvwxyz"[i] == 'a' + i as char;
  }

  lemma LowerIff(s: bytes)
    ensures Lower(s) == CONTENT_LENGTH <==> Spells(s, "content-length")
  {
    var name := "content-length";
    assert |CONTENT_LENGTH| == |name| && forall i :: 0 <= i < |name| ==> CONTENT_LENGTH[i] == name[i] as int;
    assert forall i :: 0 <= i < |s| ==> Lower(s)[i] == LowerByte(s[i]);
    if Spells(s, name) {
      assert forall i :: 0 <= i < |s| ==> LowerByte(s[i]) == name[i] as int;
    }
    if Lower(s) == CONTENT_LENGTH {
      assert forall i :: 0 <= i < |s| ==> LowerByte(s[i]) == CONTENT_LENGTH[i] == name[i] as int;
    }
  }

  // ---------- The key ----------

  ghost predicate KeySpelled(k: bytes) {
    exists a, name, b :: k == a + name + b && Blank(a) && Blank(b) && Spells(name, "content-length")
  }

  lemma KeyIff(k: bytes)
    ensures Lower(Trim(k)) == CONTENT_LENGTH <==> KeySpelled(k)
  {
    hide TrimLeft, TrimRight, Lower, Spells, CONTENT_LENGTH;
    if a, name, b :| k == a + name + b && Blank(a) && Blank(b) && Spells(name, "content-length") {
      SpelledEnds(name);
      assert k == a + (name + b) && (name + b)[0] == name[0];
      TrimsLeft(a, name + b);
      TrimsRight(name, b);
      LowerIff(name);
    }
    if Lower(Trim(k)) == CONTENT_LENGTH {
      var a := LeftParts(k);
      var b := RightParts(TrimLeft(k));
      LowerIff(Trim(k));
      assert k == a + Trim(k) + b;
    }
  }

  lemma SpelledEnds(name: bytes)
    requires Spells(name, "content-length")
    ensures name != [] && !IsSpace(name[0]) && !IsSpace(name[|name| - 1])
  {
    assert "content-length"[0] == 'c' && "content-length"[13] == 'h' && |name| == 14;
  }

  // ---------- The number ----------

  /** A text taken apart as `atoi` does: blanks, a sign, digits, and what does not belong to the number. */
  ghost predicate NumberParts(v: bytes, c: bytes, sign: bytes, ds: seq<nat>, rest: bytes) {
    Blank(c) && (sign == [] || sign == ['+' as byte] || sign == ['-' as byte]) && AreDigits(ds) &&
    v == c + sign + DigitsText(ds) + rest &&
    (rest != [] ==> !('0' <= rest[0] as char <= '9')) &&
    (rest != [] && sign == [] && ds == [] ==> !Blank([rest[0]]) && rest[0] as char != '+' && rest[0] as char != '-')
  }

  function Signed(sign: bytes, ds: seq<nat>): int {
    var n: int := Positional(ds);
    if sign == ['-' as byte] then -n else n
  }

  /** `n` is the number that a text starts with, 0 when it starts with none. */
  ghost predicate NumberOf(v: bytes, n: int) {
    exists c, sign, ds, rest :: NumberParts(v, c, sign, ds, rest) && n == Signed(sign, ds)
  }

  lemma {:induction false} LeadingReads(ds: seq<nat>, rest: bytes, acc: int)
    requires AreDigits(ds) && (rest != [] ==> !(48 <= rest[0] <= 57))
    ensures Leading(DigitsText(ds) + rest, acc) == acc * Power(|ds|) + Positional(ds)
    decreases |ds|
  {
    var s := DigitsText(ds) + rest;
    if ds == [] {
      assert s == rest;
    } else {
      assert s[0] == 48 + ds[0] && s[1..] == DigitsText(ds[1..]) + rest;
      LeadingReads(ds[1..], rest, acc * 10 + ds[0]);
      Places(acc, ds[0], Power(|ds| - 1));
    }
  }

  lemma Places(acc: int, d: nat, p: nat)
    ensures (acc * 10 + d) * p == acc * (10 * p) + d * p
  {
  }

  lemma {:induction false} LeadingParts(s: bytes) returns (ds: seq<nat>, rest: bytes)
    ensures AreDigits(ds) && s == DigitsText(ds) + rest && (rest != [] ==> !(48 <= rest[0] <= 57))
    decreases |s|
  {
    if s != [] && 48 <= s[0] <= 57 {
      var more;
      more, rest := LeadingParts(s[1..]);
      ds := [s[0] as int - 48] + more;
      assert s == [s[0]] + s[1..];
      assert DigitsText(ds) == [s[0]] + DigitsText(more);
    } else {
      ds, rest := [], s;
    }
  }

  lemma AtoiReads(v: bytes, c: bytes, sign: bytes, ds: seq<nat>, rest: bytes)
    requires NumberParts(v, c, sign, ds, rest)
    ensures Atoi(v) == Signed(sign, ds)
  {
    hide TrimLeft, Leading, Positional;
    var t := sign + DigitsText(ds) + rest;
    assert v == c + t;
    NumberStarts(c, sign, ds, rest);
    TrimsLeft(c, t);
    LeadingReads(ds, rest, 0);
    if sign == [] { assert t == DigitsText(ds) + rest; } else { assert t[1..] == DigitsText(ds) + rest; }
  }

  lemma NumberStarts(c: bytes, sign: bytes, ds: seq<nat>, rest: bytes)
    requires AreDigits(ds) && NumberParts(c + sign + DigitsText(ds) + rest, c, sign, ds, rest)
    ensures var t := sign + DigitsText(ds) + rest;
            t != [] ==> !IsSpace(t[0]) && (sign == [] ==> t[0] != 45 && t[0] != 43) && (sign != [] ==> t[0] == sign[0])
  {
    if sign == [] && ds == [] && rest != [] { SpaceIff(rest[0]); }
  }

  lemma TakenApart(v: bytes) returns (c: bytes, sign: bytes, ds: seq<nat>, rest: bytes)
    ensures NumberParts(v, c, sign, ds, rest)
  {
    hide TrimLeft, IsSpace, DigitsText;
    c := LeftParts(v);
    var t := TrimLeft(v);
    sign := if t != [] && (t[0] == 43 || t[0] == 45) then [t[0]] else [];
    ds, rest := LeadingParts(t[|sign|..]);
    assert t == sign + t[|sign|..];
    assert v == c + sign + DigitsText(ds) + rest;
    if rest != [] && sign == [] && ds == [] {
      DigitsJoin([], []);
      SpaceIff(rest[0]);
      assert rest == t;
    }
  }

  lemma AtoiIff(v: bytes, n: int)
    ensures Atoi(v) == n <==> NumberOf(v, n)
  {
    hide NumberParts, Atoi, Signed;
    if c, sign, ds, rest :| NumberParts(v, c, sign, ds, rest) && n == Signed(sign, ds) {
      AtoiReads(v, c, sign, ds, rest);
    }
    var c, sign, ds, rest := TakenApart(v);
    AtoiReads(v, c, sign, ds, rest);
  }

  /** Trimming does not change the number. */
  lemma AtoiTrimmed(v: bytes)
    ensures Atoi(Trim(v)) == Atoi(v)
  {
    hide TrimLeft, TrimRight, Atoi, DigitsText;
    var c, sign, ds, rest := TakenApart(v);
    AtoiReads(v, c, sign, ds, rest);
    var u := sign + DigitsText(ds) + rest;
    assert v == c + u;
    NumberStarts(c, sign, ds, rest);
    TrimsLeft(c, u);
    var b := RightParts(u);
    var t := TrimRight(u);
    var k := |sign + DigitsText(ds)|;
    NumberStays(sign, ds, rest, t, b);
    var rest' := t[k..];
    assert t == [] + sign + DigitsText(ds) + rest' by { assert t[..k] == u[..k] == sign + DigitsText(ds); }
    assert rest' == rest[..|rest'|] by { assert rest == u[k..]; }
    AtoiReads(t, [], sign, ds, rest');
  }

  lemma NumberStays(sign: bytes, ds: seq<nat>, rest: bytes, t: bytes, b: bytes)
    requires AreDigits(ds) && (sign == [] || sign == ['+' as byte] || sign == ['-' as byte])
    requires sign + DigitsText(ds) + rest == t + b && Blank(b)
    ensures |sign + DigitsText(ds)| <= |t|
  {
    var u := sign + DigitsText(ds);
    var s := t + b;
    assert forall i :: 0 <= i < |u| ==> !IsSpace(u[i]) && s[i] == (u + rest)[i] == u[i];
    if b != [] {
      BlankAt(b, 0);
      assert IsSpace(s[|t|]);
    }
  }

  // ---------- The line ----------

  lemma {:induction false} FindFirst(s: bytes, c: byte, from: nat)
    requires from <= |s|
    ensures forall k :: from <= k < (match Find(s, c, from) case Some(i) => i case None => |s|) ==> s[k] != c
    decreases |s| - from
  {
    if from < |s| && s[from] != c { FindFirst(s, c, from + 1); }
  }

  /** The line announces a body of `n` bytes. */
  ghost predicate LengthLine(line: bytes, n: int) {
    exists k, v :: line == k + [':' as byte] + v && ':' as byte !in k && KeySpelled(k) && NumberOf(v, n)
  }

  /** A line announces a length exactly when its name is `content-length` in whatever case and blanks, and
      then it is the number that the rest starts with; any other line leaves the length alone. */
  lemma NextLengthIff(before: int, line: bytes, n: int)
    ensures LengthLine(line, n) ==> NextLength(before, line) == n
    ensures (forall x :: !LengthLine(line, x)) ==> NextLength(before, line) == before
  {
    hide KeySpelled, NumberOf, Atoi, Lower, Trim, CONTENT_LENGTH;
    FindFirst(line, COLON, 0);
    if k, v :| line == k + [':' as byte] + v && ':' as byte !in k && KeySpelled(k) && NumberOf(v, n) {
      assert line[|k|] == COLON && forall j :: 0 <= j < |k| ==> line[j] == k[j];
      assert Find(line, COLON, 0) == Some(|k|);
      assert line[..|k|] == k && line[|k| + 1..] == v;
      KeyIff(k);
      AtoiIff(v, n);
      AtoiTrimmed(v);
    }
    if Find(line, COLON, 0).Some? {
      var i := Find(line, COLON, 0).value;
      var k, v := line[..i], line[i + 1..];
      assert line == k + [':' as byte] + v;
      KeyIff(k);
      AtoiIff(v, Atoi(v));
      if KeySpelled(k) { assert LengthLine(line, Atoi(v)); }
    }
  }

  /** An ordinary announcement, in any spelling. */
  lemma ContentLengthReads(before: int, a: bytes, name: bytes, b: bytes, c: bytes, ds: seq<nat>, d: bytes)
    requires Blank(a) && Blank(b) && Blank(c) && Blank(d) && Spells(name, "content-length") && AreDigits(ds) && ds != []
    ensures NextLength(before, a + name + b + [':' as byte] + (c + DigitsText(ds) + d)) == Positional(ds)
  {
    hide NextLength, Positional;
    var k, v := a + name + b, c + DigitsText(ds) + d;
    assert ':' as byte !in name by { NoColon(name); }
    assert v == c + [] + DigitsText(ds) + d;
    assert NumberParts(v, c, [], ds, d) && Signed([], ds) == Positional(ds);
    assert KeySpelled(k) && ':' as byte !in a && ':' as byte !in b && ':' as byte !in k;
    assert NumberOf(v, Positional(ds));
    assert LengthLine(k + [':' as byte] + v, Positional(ds));
    NextLengthIff(before, k + [':' as byte] + v, Positional(ds));
  }

  lemma NoColon(name: bytes)
    requires Spells(name, "content-length")
    ensures ':' as byte !in name
  {
    LowerIff(name);
    forall i | 0 <= i < |name| ensures name[i] != 58 { assert Lower(name)[i] == CONTENT_LENGTH[i] != 58; }
  }
}
