/**
 Printing and parsing undo each other (src/json_lite.cpp): the parser reads back every
 printed value, in place inside any longer text, and whatever it reads is a value that
 prints and parses again.
 */
module JsonRoundTrip {
  import opened Bytes
  import opened Json

  // ---------- Strings ----------

  lemma HexStep(t: bytes, p: nat, n: nat, hi: nat, d: nat)
    requires 0 < n <= 4 && p + n <= |t| && d < 16
    requires Hex(t, p, n - 1) == Some(hi) && t[p + n - 1] == HexDigit(d)
    ensures Hex(t, p, n) == Some(hi * 16 + d)
  {
  }

  lemma HexNone(t: bytes, p: nat)
    requires p <= |t|
    ensures Hex(t, p, 0) == Some(0)
  {
  }

  function HexDigits4(n: nat): (h: bytes)
    requires n < 0x10000
    ensures |h| == 4
  {
    [HexDigit(n / 4096), HexDigit(n / 256 % 16), HexDigit(n / 16 % 16), HexDigit(n % 16)]
  }

  lemma HexDivisions(n: nat)
    ensures n / 256 == n / 4096 * 16 + n / 256 % 16
    ensures n / 16 == n / 256 * 16 + n / 16 % 16
  {
    assert n / 256 / 16 == n / 4096;
    assert n / 16 / 16 == n / 256;
  }

  lemma HexReadsBack(t: bytes, p: nat, n: nat)
    requires n < 0x10000 && At(t, p, HexDigits4(n))
    ensures Hex(t, p, 4) == Some(n)
  {
    hide HexDigit, At, Hex;
    HexDivisions(n);
    var h := HexDigits4(n);
    AtIndex(t, p, h, 0);
    AtIndex(t, p, h, 1);
    AtIndex(t, p, h, 2);
    AtIndex(t, p, h, 3);
    HexNone(t, p);
    HexStep(t, p, 1, 0, n / 4096);
    HexStep(t, p, 2, n / 4096, n / 256 % 16);
    HexStep(t, p, 3, n / 256, n / 16 % 16);
    HexStep(t, p, 4, n / 16, n % 16);
  }

  lemma HexZero()
    ensures HexDigit(0) == ZERO
  {
  }

  lemma ControlEscape(t: bytes, p: nat, c: byte)
    requires |EscapeByte(c)| == 6 && At(t, p, EscapeByte(c))
    ensures p < |t| && NextPiece(t, p) == Emit([c], p + 6)
  {
    hide Hex, HexDigit;
    var e := EscapeByte(c);
    AtIndex(t, p, e, 0);
    AtIndex(t, p, e, 1);
    assert c < 0x20 && c / 4096 == 0 && c / 256 % 16 == 0 && c / 16 % 16 == c / 16;
    HexZero();
    assert e == [BACKSLASH, LOWER_U] + HexDigits4(c);
    AtSplit(t, p, [BACKSLASH, LOWER_U], HexDigits4(c));
    HexReadsBack(t, p + 2, c);
  }

  /** A single escaped byte is one step of the string scanner, which emits that byte. */
  lemma EscapedByteReadsBack(t: bytes, p: nat, c: byte)
    requires At(t, p, EscapeByte(c))
    ensures p < |t| && NextPiece(t, p) == Emit([c], p + |EscapeByte(c)|)
  {
    var e := EscapeByte(c);
    AtIndex(t, p, e, 0);
    if |e| == 6 {
      ControlEscape(t, p, c);
    } else if |e| == 2 {
      AtIndex(t, p, e, 1);
    }
  }

  lemma {:induction false} EscapedBodyReadsBack(t: bytes, p: nat, s: bytes, acc: bytes)
    requires At(t, p, EscapeBody(s) + [QUOTE])
    ensures StringBody(t, p, acc) == Ok(acc + s, p + |EscapeBody(s)| + 1)
    decreases |s|
  {
    hide EscapeByte, UnicodePiece, SimpleEscape;
    if s == [] {
      AtIndex(t, p, EscapeBody(s) + [QUOTE], 0);
      assert acc + s == acc;
    } else {
      var e := EscapeByte(s[0]);
      assert EscapeBody(s) + [QUOTE] == e + (EscapeBody(s[1..]) + [QUOTE]);
      AtSplit(t, p, e, EscapeBody(s[1..]) + [QUOTE]);
      EscapedByteReadsBack(t, p, s[0]);
      EscapedBodyReadsBack(t, p + |e|, s[1..], acc + [s[0]]);
      assert acc + [s[0]] + s[1..] == acc + s;
    }
  }

  /** `escape` followed by `parse_string` is the identity on every byte string. */
  lemma EscapeReadsBack(t: bytes, p: nat, s: bytes)
    requires At(t, p, Escape(s))
    ensures p < |t| && t[p] == QUOTE
    ensures ParseString(t, p) == Ok(s, p + |Escape(s)|)
  {
    hide StringBody, EscapeBody;
    AtIndex(t, p, Escape(s), 0);
    assert Escape(s) == [QUOTE] + (EscapeBody(s) + [QUOTE]);
    AtSplit(t, p, [QUOTE], EscapeBody(s) + [QUOTE]);
    EscapedBodyReadsBack(t, p + 1, s, []);
    assert [] + s == s;
  }

  // ---------- Numbers ----------

  lemma {:induction false} DecimalShape(n: nat)
    ensures |Decimal(n)| > 0
    ensures forall i :: 0 <= i < |Decimal(n)| ==> IsDigit(Decimal(n)[i])
    ensures DigitsValue(Decimal(n)) == n
  {
    if n >= 10 {
      DecimalShape(n / 10);
      assert Decimal(n)[..|Decimal(n)| - 1] == Decimal(n / 10);
    } else {
      assert Decimal(n)[..0] == [];
    }
  }

  lemma {:induction false} DigitsRun(t: bytes, p: nat, n: nat)
    requires p + n <= |t|
    requires forall i :: p <= i < p + n ==> IsDigit(t[i])
    requires p + n == |t| || !IsDigit(t[p + n])
    ensures DigitsEnd(t, p) == p + n
    decreases n
  {
    if n > 0 { DigitsRun(t, p + 1, n - 1); }
  }

  /** What follows a number must not be able to extend it. */
  ghost predicate NumberStops(t: bytes, p: nat) {
    p < |t| ==> !IsDigit(t[p]) && t[p] != DOT && t[p] != 101 && t[p] != 69
  }

  lemma DecimalIntShape(i: int)
    ensures var s := DecimalInt(i); var a := if i < 0 then 1 else 0;
            |s| > a && (i < 0 ==> s[0] == MINUS) &&
            forall k :: a <= k < |s| ==> IsDigit(s[k])
  {
    hide Decimal, DigitsValue;
    DecimalShape(if i < 0 then -i else i);
  }

  /** A sign and a run of digits up to something that is not part of a number. */
  lemma IntegerRun(t: bytes, p: nat, i: int)
    requires At(t, p, DecimalInt(i)) && NumberStops(t, p + |DecimalInt(i)|)
    ensures p < |t| && (t[p] == MINUS || IsDigit(t[p]))
    ensures SignEnd(t, p) == if i < 0 then p + 1 else p
    ensures DigitsEnd(t, SignEnd(t, p)) == p + |DecimalInt(i)| > SignEnd(t, p)
  {
    hide DigitsEnd, DecimalInt, At;
    DecimalIntShape(i);
    var s := DecimalInt(i);
    var a := if i < 0 then 1 else 0;
    AtIndex(t, p, s, 0);
    forall k | p + a <= k < p + |s| ensures IsDigit(t[k]) {
      AtIndex(t, p, s, k - p);
    }
    DigitsRun(t, p + a, |s| - a);
  }

  lemma StodOfDecimal(i: int)
    ensures DecimalInt(i) != [] && Stod(DecimalInt(i)) == Some(i as real)
  {
    hide DigitsEnd, DigitsValue, Decimal;
    var n: nat := if i < 0 then -i else i;
    DecimalShape(n);
    var s := DecimalInt(i);
    assert At(s, 0, s);
    IntegerRun(s, 0, i);
    var a := SignEnd(s, 0);
    assert s[a..|s|] + [] == Decimal(n);
    assert Ten(0) == 1.0;
  }

  lemma IntegerReadsBack(t: bytes, p: nat, i: int)
    requires At(t, p, DecimalInt(i)) && NumberStops(t, p + |DecimalInt(i)|)
    ensures p < |t| && (t[p] == MINUS || IsDigit(t[p]))
    ensures ParseNumber(t, p) == Ok(i as real, p + |DecimalInt(i)|)
  {
    hide DigitsEnd, DecimalInt, Stod, SignEnd;
    IntegerRun(t, p, i);
    StodOfDecimal(i);
    assert NumberEnd(t, p) == p + |DecimalInt(i)|;
  }

  // ---------- Values ----------

  lemma TextStarts(v: Value)
    ensures |Text(v)| > 0 && !IsWs(Text(v)[0]) && Text(v)[0] != RBRACKET
    ensures v.Number? ==> Text(v)[0] == MINUS || IsDigit(Text(v)[0])
  {
    if v.Number? {
      var i := v.r.Floor;
      DecimalShape(if i < 0 then -i else i);
      assert IsDigit(Decimal(if i < 0 then -i else i)[0]);
    }
  }

  lemma NoWsHere(t: bytes, p: nat)
    requires p < |t| && !IsWs(t[p])
    ensures SkipWs(t, p) == p
  {
  }

  /** The text of a value, wherever it stands, parses to that value and the parser stops
      exactly behind it, provided nothing there can extend a final number. */
  lemma {:induction false} ValueReadsBack(t: bytes, p: nat, v: Value)
    requires Printable(v) && At(t, p, Text(v))
    requires v.Number? ==> NumberStops(t, p + |Text(v)|)
    ensures ParseValue(t, p) == Ok(v, p + |Text(v)|)
    decreases v, 1
  {
    hide At, SkipWs, ParseString, ParseNumber, DecimalInt, Escape, ParseElems, ParseMembers, ElemsText, MembersText;
    TextStarts(v);
    AtIndex(t, p, Text(v), 0);
    NoWsHere(t, p);
    match v
    case Null => LiteralReadsBack(t, p, NULL_TEXT);
    case Bool(b) => LiteralReadsBack(t, p, if b then TRUE_TEXT else FALSE_TEXT);
    case Number(r) => IntegerReadsBack(t, p, r.Floor);
    case String(s) => EscapeReadsBack(t, p, s);
    case Array(a) => ArrayReadsBack(t, p, a);
    case Object(m) => ObjectReadsBack(t, p, m);
  }

  lemma LiteralReadsBack(t: bytes, p: nat, lit: bytes)
    requires At(t, p, lit)
    ensures LiteralAt(t, p, lit)
  {
  }

  lemma {:induction false} ArrayReadsBack(t: bytes, p: nat, a: seq<Value>)
    requires Printable(Array(a)) && At(t, p, Text(Array(a)))
    ensures ParseValue(t, p) == Ok(Array(a), p + |Text(Array(a))|)
    decreases a, 1
  {
    hide At, SkipWs, ParseString, ParseNumber, ParseElems, ParseMembers, ElemsText;
    var rest := ElemsText(a) + [RBRACKET];
    assert Text(Array(a)) == [LBRACKET] + rest;
    AtIndex(t, p, Text(Array(a)), 0);
    NoWsHere(t, p);
    AtSplit(t, p, [LBRACKET], rest);
    AtIndex(t, p + 1, rest, 0);
    if a == [] {
      assert ElemsText(a) == [] by { EmptyTexts(); }
    } else {
      ElemsNotClosed(a);
      ElemsReadBack(t, p + 1, [], a);
      assert [] + a == a;
    }
    NoWsHere(t, p + 1);
  }

  lemma {:induction false} ObjectReadsBack(t: bytes, p: nat, m: seq<Member>)
    requires Printable(Object(m)) && At(t, p, Text(Object(m)))
    ensures ParseValue(t, p) == Ok(Object(m), p + |Text(Object(m))|)
    decreases m, 4
  {
    hide At, SkipWs, ParseString, ParseNumber, ParseElems, ParseMembers, MembersText;
    var rest := MembersText(m) + [RBRACE];
    assert Text(Object(m)) == [LBRACE] + rest;
    AtIndex(t, p, Text(Object(m)), 0);
    NoWsHere(t, p);
    AtSplit(t, p, [LBRACE], rest);
    AtIndex(t, p + 1, rest, 0);
    if m == [] {
      assert MembersText(m) == [] by { EmptyTexts(); }
    } else {
      MembersStart(m);
      assert [] + m == m;
      EmplaceAllSorted([], m);
      MembersReadBack(t, p + 1, [], m);
    }
    NoWsHere(t, p + 1);
  }

  lemma EmptyTexts()
    ensures ElemsText([]) == [] && MembersText([]) == []
  {
  }

  lemma MembersStart(m: seq<Member>)
    requires m != []
    ensures |MembersText(m)| > 0 && MembersText(m)[0] == QUOTE
  {
  }

  lemma ElemsNotClosed(a: seq<Value>)
    requires a != []
    ensures |ElemsText(a)| > 0 && !IsWs(ElemsText(a)[0]) && ElemsText(a)[0] != RBRACKET
  {
    hide DecimalInt, Escape, MembersText;
    TextStarts(a[0]);
  }

  lemma ElemsTextAt(t: bytes, p: nat, a: seq<Value>)
    requires a != [] && At(t, p, ElemsText(a) + [RBRACKET])
    ensures At(t, p, Text(a[0]))
    ensures var e := p + |Text(a[0])|;
            e < |t| && t[e] == (if |a| == 1 then RBRACKET else COMMA) &&
            (|a| == 1 ==> |ElemsText(a)| == |Text(a[0])|) &&
            (|a| > 1 ==> |ElemsText(a)| == |Text(a[0])| + 1 + |ElemsText(a[1..])| &&
                         At(t, e + 1, ElemsText(a[1..]) + [RBRACKET]))
  {
    hide At, Text;
    var h := Text(a[0]);
    var tail := ElemsText(a[1..]) + [RBRACKET];
    var rest := if |a| == 1 then [RBRACKET] else [COMMA] + tail;
    assert ElemsText(a) + [RBRACKET] == h + rest;
    AtSplit(t, p, h, rest);
    AtIndex(t, p + |h|, rest, 0);
    if |a| > 1 {
      AtSplit(t, p + |h|, [COMMA], tail);
    }
  }

  lemma {:induction false} ElemsReadBack(t: bytes, p: nat, acc: seq<Value>, a: seq<Value>)
    requires a != [] && forall i :: 0 <= i < |a| ==> Printable(a[i])
    requires At(t, p, ElemsText(a) + [RBRACKET])
    ensures ParseElems(t, p, acc) == Ok(Array(acc + a), p + |ElemsText(a)| + 1)
    decreases a, 0
  {
    hide At, SkipWs, ParseValue, Text, Printable, ElemsText;
    var e := p + |Text(a[0])|;
    ElemsTextAt(t, p, a);
    ValueReadsBack(t, p, a[0]);
    NoWsHere(t, e);
    if |a| == 1 {
      assert a == [a[0]];
    } else {
      ElemsReadBack(t, e + 1, acc + [a[0]], a[1..]);
      assert acc + [a[0]] + a[1..] == acc + a;
    }
  }

  /** One `"key":value`, up to what follows it. */
  lemma {:induction false} MemberReadsBack(t: bytes, p: nat, m: Member)
    requires Printable(m.val) && At(t, p, MemberText(m))
    requires m.val.Number? ==> NumberStops(t, p + |MemberText(m)|)
    ensures ParseMember(t, p) == Ok(m, p + |MemberText(m)|)
    decreases m, 2
  {
    hide At, SkipWs, ParseValue, ParseString, Text, Printable, Escape;
    var k := Escape(m.key);
    assert MemberText(m) == k + ([COLON] + Text(m.val));
    AtSplit(t, p, k, [COLON] + Text(m.val));
    AtIndex(t, p + |k|, [COLON] + Text(m.val), 0);
    AtSplit(t, p + |k|, [COLON], Text(m.val));
    EscapeReadsBack(t, p, m.key);
    NoWsHere(t, p);
    NoWsHere(t, p + |k|);
    ValueReadsBack(t, p + |k| + 1, m.val);
  }

  /** A member listing, whatever its keys, parses to the map it leaves behind. */
  lemma {:induction false} MembersReadBack(t: bytes, p: nat, acc: seq<Member>, m: seq<Member>)
    requires m != [] && forall i :: 0 <= i < |m| ==> Printable(m[i].val)
    requires At(t, p, MembersText(m) + [RBRACE])
    ensures ParseMembers(t, p, acc) == Ok(Object(EmplaceAll(acc, m)), p + |MembersText(m)| + 1)
    decreases m, 3
  {
    hide At, SkipWs, ParseMember, Printable, MemberText, MembersText, Emplace;
    var e := p + |MemberText(m[0])|;
    MembersTextAt(t, p, m);
    MemberReadsBack(t, p, m[0]);
    NoWsHere(t, e);
    var acc' := Emplace(acc, m[0].key, m[0].val);
    if |m| == 1 {
      assert EmplaceAll(acc', m[1..]) == acc';
    } else {
      MembersReadBack(t, e + 1, acc', m[1..]);
    }
  }

  /** Where the parts of a member listing lie. */
  lemma MembersTextAt(t: bytes, p: nat, m: seq<Member>)
    requires m != [] && At(t, p, MembersText(m) + [RBRACE])
    ensures var h := MemberText(m[0]);
            var e := p + |h|;
            At(t, p, h) && e < |t| &&
            if |m| == 1 then t[e] == RBRACE && MembersText(m) == h
            else t[e] == COMMA && At(t, e + 1, MembersText(m[1..]) + [RBRACE]) &&
                 |MembersText(m)| == |h| + 1 + |MembersText(m[1..])|
  {
    hide At, MemberText;
    var h := MemberText(m[0]);
    var rest := if |m| == 1 then [RBRACE] else [COMMA] + MembersText(m[1..]) + [RBRACE];
    assert MembersText(m) + [RBRACE] == h + rest;
    AtSplit(t, p, h, rest);
    AtIndex(t, p + |h|, rest, 0);
    if |m| > 1 {
      assert rest == [COMMA] + (MembersText(m[1..]) + [RBRACE]);
      AtSplit(t, p + |h|, [COMMA], MembersText(m[1..]) + [RBRACE]);
    }
  }

  /** parse(dump(v)) is v. */
  lemma DumpParses(v: Value)
    requires Printable(v)
    ensures Parse(Text(v)) == Ok(v, |Text(v)|)
  {
    var t := Text(v);
    TextStarts(v);
    NoWsHere(t, 0);
    ValueReadsBack(t, 0, v);
  }

  // ---------- What the parser can produce ----------

  /** A value whose objects are maps at every depth. */
  ghost predicate WellFormed(v: Value) {
    match v
    case Array(a) => forall i :: 0 <= i < |a| ==> WellFormed(a[i])
    case Object(m) => Sorted(m) && forall i :: 0 <= i < |m| ==> WellFormed(m[i].val)
    case _ => true
  }

  ghost predicate IntegralNumbers(v: Value) {
    match v
    case Number(r) => PrintsAsInteger(r)
    case Array(a) => forall i :: 0 <= i < |a| ==> IntegralNumbers(a[i])
    case Object(m) => forall i :: 0 <= i < |m| ==> IntegralNumbers(m[i].val)
    case _ => true
  }

  lemma {:induction false} ParsedIsWellFormed(t: bytes, p: nat)
    requires p <= |t| && ParseValue(t, p).Ok?
    ensures WellFormed(ParseValue(t, p).value)
    decreases |t| - p, 0
  {
    var q := SkipWs(t, p);
    if t[q] == LBRACE {
      var m := SkipWs(t, q + 1);
      if !(m < |t| && t[m] == RBRACE) { ParsedMembersWellFormed(t, m, []); }
    } else if t[q] == LBRACKET {
      var m := SkipWs(t, q + 1);
      if !(m < |t| && t[m] == RBRACKET) { ParsedElemsWellFormed(t, m, []); }
    }
  }

  lemma {:induction false} ParsedMembersWellFormed(t: bytes, p: nat, acc: seq<Member>)
    requires p <= |t| && ParseMembers(t, p, acc).Ok?
    requires WellFormed(Object(acc))
    ensures WellFormed(ParseMembers(t, p, acc).value)
    decreases |t| - p, 1
  {
    hide SkipWs, ParseValue, ParseString, Emplace;
    var m := ParseMember(t, p);
    ParsedIsWellFormed(t, SkipWs(t, ParseString(t, SkipWs(t, p)).next) + 1);
    EmplaceWellFormed(acc, m.value.key, m.value.val);
    var e := SkipWs(t, m.next);
    if t[e] == COMMA { ParsedMembersWellFormed(t, e + 1, Emplace(acc, m.value.key, m.value.val)); }
  }

  lemma EmplaceWellFormed(acc: seq<Member>, k: bytes, v: Value)
    requires WellFormed(Object(acc)) && WellFormed(v)
    ensures WellFormed(Object(Emplace(acc, k, v)))
  {
    hide Less;
    EmplaceSorted(acc, k, v);
    var e := Emplace(acc, k, v);
    forall i | 0 <= i < |e| ensures WellFormed(e[i].val) {
      assert e[i] in e;
    }
  }

  lemma {:induction false} ParsedElemsWellFormed(t: bytes, p: nat, acc: seq<Value>)
    requires p <= |t| && ParseElems(t, p, acc).Ok?
    requires WellFormed(Array(acc))
    ensures WellFormed(ParseElems(t, p, acc).value)
    decreases |t| - p, 1
  {
    ParsedIsWellFormed(t, p);
    var v := ParseValue(t, p);
    var e := SkipWs(t, v.next);
    if t[e] == COMMA { ParsedElemsWellFormed(t, e + 1, acc + [v.value]); }
  }

  lemma {:induction false} PrintableParts(v: Value)
    requires WellFormed(v) && IntegralNumbers(v)
    ensures Printable(v)
    decreases v
  {
    match v
    case Array(a) =>
      forall i | 0 <= i < |a| ensures Printable(a[i]) { PrintableParts(a[i]); }
    case Object(m) =>
      forall i | 0 <= i < |m| ensures Printable(m[i].val) { PrintableParts(m[i].val); }
    case _ =>
  }

  /** Whatever text was accepted, with any spacing and any escapes, printing what it denotes
      and parsing again denotes the same. */
  lemma ReprintParses(t: bytes)
    requires Parse(t).Ok? && IntegralNumbers(Parse(t).value)
    ensures var v := Parse(t).value; Parse(Text(v)) == Ok(v, |Text(v)|)
  {
    ParsedIsWellFormed(t, SkipWs(t, 0));
    PrintableParts(Parse(t).value);
    DumpParses(Parse(t).value);
  }

  // ---------- Unicode escapes ----------

  /** The JSON escape of a Unicode scalar value: a surrogate pair above the basic plane. */
  function UnicodeEscape(cp: nat): bytes
    requires cp < 0x110000
  {
    if cp < 0x10000 then [BACKSLASH, LOWER_U] + HexDigits4(cp)
    else
      [BACKSLASH, LOWER_U] + HexDigits4(0xD800 + (cp - 0x10000) / 1024) +
      [BACKSLASH, LOWER_U] + HexDigits4(0xDC00 + (cp - 0x10000) % 1024)
  }

  /** Every Unicode scalar value's escape emits its UTF-8 encoding, pairs included. */
  lemma UnicodeEscapeReadsUtf8(t: bytes, p: nat, cp: nat)
    requires cp < 0x110000 && !(0xD800 <= cp < 0xE000)
    requires At(t, p, UnicodeEscape(cp))
    ensures p < |t| && NextPiece(t, p) == Emit(Utf8(cp), p + |UnicodeEscape(cp)|)
  {
    hide At, Hex, HexDigits4, Utf8;
    var u := [BACKSLASH, LOWER_U];
    if cp < 0x10000 {
      AtSplit(t, p, u, HexDigits4(cp));
      AtIndex(t, p, u, 0);
      AtIndex(t, p, u, 1);
      HexReadsBack(t, p + 2, cp);
    } else {
      var hi := HexDigits4(0xD800 + (cp - 0x10000) / 1024);
      var lo := HexDigits4(0xDC00 + (cp - 0x10000) % 1024);
      SurrogatePair(t, p, hi, lo, cp);
    }
  }

  lemma SurrogatePair(t: bytes, p: nat, hi: bytes, lo: bytes, cp: nat)
    requires 0x10000 <= cp < 0x110000
    requires hi == HexDigits4(0xD800 + (cp - 0x10000) / 1024)
    requires lo == HexDigits4(0xDC00 + (cp - 0x10000) % 1024)
    requires At(t, p, [BACKSLASH, LOWER_U] + hi + [BACKSLASH, LOWER_U] + lo)
    ensures p < |t| && NextPiece(t, p) == Emit(Utf8(cp), p + 12)
  {
    hide At, Hex, HexDigits4, Utf8;
    var u := [BACKSLASH, LOWER_U];
    AtSplit(t, p, u + hi + u, lo);
    AtSplit(t, p, u + hi, u);
    AtSplit(t, p, u, hi);
    AtIndex(t, p, u, 0);
    AtIndex(t, p, u, 1);
    AtIndex(t, p + 6, u, 0);
    AtIndex(t, p + 6, u, 1);
    HexReadsBack(t, p + 2, 0xD800 + (cp - 0x10000) / 1024);
    HexReadsBack(t, p + 8, 0xDC00 + (cp - 0x10000) % 1024);
    AtIndex(t, p + 8, lo, 3);
  }

  /** The UTF-8 decoder of RFC 3629 section 3, for one character of `u`. */
  function DecodeUtf8(u: bytes): nat
    requires 1 <= |u| <= 4
  {
    var b0: int := u[0];
    if |u| == 1 then b0
    else
      var b1: int := u[1] % 64;
      if |u| == 2 then b0 % 32 * 64 + b1
      else
        var b2: int := u[2] % 64;
        if |u| == 3 then b0 % 16 * 4096 + b1 * 64 + b2
        else
          var b3: int := u[3] % 64;
          b0 % 8 * 262144 + b1 * 4096 + b2 * 64 + b3
  }

  lemma DigitsOf(cp: nat)
    ensures cp == cp / 4096 * 4096 + cp / 64 % 64 * 64 + cp % 64
    ensures cp / 4096 == cp / 262144 * 64 + cp / 4096 % 64
  {
    assert cp / 64 / 64 == cp / 4096;
    assert cp / 4096 / 64 == cp / 262144;
  }

  lemma Utf8Three(cp: nat)
    requires 0x800 <= cp < 0x10000
    ensures DecodeUtf8(Utf8(cp)) == cp
  {
    var h, m, l := cp / 4096, cp / 64 % 64, cp % 64;
    DigitsOf(cp);
    assert Utf8(cp) == [0xE0 + h, 0x80 + m, 0x80 + l];
    assert (0xE0 + h) % 16 == h && (0x80 + m) % 64 == m && (0x80 + l) % 64 == l;
  }

  lemma Utf8Four(cp: nat)
    requires 0x10000 <= cp < 0x110000
    ensures DecodeUtf8(Utf8(cp)) == cp
  {
    var t, h, m, l := cp / 262144, cp / 4096 % 64, cp / 64 % 64, cp % 64;
    DigitsOf(cp);
    assert Utf8(cp) == [0xF0 + t, 0x80 + h, 0x80 + m, 0x80 + l];
    assert (0xF0 + t) % 8 == t && (0x80 + h) % 64 == h && (0x80 + m) % 64 == m && (0x80 + l) % 64 == l;
  }

  /** The octets of table 3-7 of the Unicode standard, but that a surrogate may stand alone: the
      first says how many there are, the others are continuations, and none is to spare. */
  ghost predicate Utf8Shaped(u: bytes, cp: nat) {
    (forall i :: 1 <= i < |u| ==> 0x80 <= u[i] < 0xC0) &&
    if cp < 0x80 then |u| == 1 && u[0] < 0x80
    else if cp < 0x800 then |u| == 2 && 0xC2 <= u[0] < 0xE0
    else if cp < 0x10000 then |u| == 3 && 0xE0 <= u[0] < 0xF0
    else |u| == 4 && 0xF0 <= u[0] < 0xF5
  }

  lemma Utf8Decodes(cp: nat)
    requires cp < 0x110000
    ensures DecodeUtf8(Utf8(cp)) == cp && Utf8Shaped(Utf8(cp), cp)
  {
    if 0x800 <= cp < 0x10000 {
      Utf8Three(cp);
    } else if cp >= 0x10000 {
      Utf8Four(cp);
    }
  }
}
