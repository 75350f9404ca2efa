/**
 Every way to write a value (RFC 8259) and what the parser makes of it (src/json_lite.cpp): any
 escapes, any white space, any decimal notation. The text is built here from characters and code
 points alone, so that it is an independent account of what the grammar of `Json` accepts.
 */
module JsonSpelling {
  import opened Bytes
  import opened Digits
  import opened Json
  import opened JsonRoundTrip

  // ---------- Strings ----------

  /** One character of a string, as section 7 lets a sender write it: a byte as it is, a letter
      behind a backslash, a code point in hexadecimal, or half of a pair that stands alone. */
  datatype Spelling =
    | Raw(c: byte)
    | Short(letter: byte, c: byte)
    | Unicode(cp: nat, hex: bytes)
    | Lone(half: nat, hex: bytes)

  predicate HexLetter(h: byte, d: nat) {
    d < 16 && (h == "0123456789abcdef"[d] as int || h == "0123456789ABCDEF"[d] as int)
  }

  /** Four hexadecimal digits, in either case. */
  predicate IsHex4(h: bytes, n: nat) {
    |h| == 4 && n < 65536 &&
    HexLetter(h[0], n / 4096) && HexLetter(h[1], n / 256 % 16) && HexLetter(h[2], n / 16 % 16) &&
    HexLetter(h[3], n % 16)
  }

  predicate ShortFor(letter: byte, c: byte) {
    (letter as char, c) in {('"', 34), ('\\', 92), ('/', 47), ('b', 8), ('f', 12), ('n', 10), ('r', 13), ('t', 9)}
  }

  ghost predicate ValidSpelling(s: Spelling) {
    match s
    case Raw(c) => c as char != '"' && c as char != '\\'
    case Short(letter, c) => ShortFor(letter, c)
    case Unicode(cp, hex) =>
      if cp < 65536 then IsHex4(hex, cp) && !(55296 <= cp < 57344)
      else
        cp < 1114112 && |hex| == 8 &&
        IsHex4(hex[..4], 55296 + (cp - 65536) / 1024) && IsHex4(hex[4..], 56320 + (cp - 65536) % 1024)
    case Lone(half, hex) => 55296 <= half < 57344 && IsHex4(hex, half)
  }

  const ESCAPE_U: bytes := ['\\' as byte, 'u' as byte]

  function SpellingText(s: Spelling): bytes {
    match s
    case Raw(c) => [c]
    case Short(letter, _) => ['\\' as byte, letter]
    case Unicode(_, hex) => if |hex| == 8 then ESCAPE_U + hex[..4] + ESCAPE_U + hex[4..] else ESCAPE_U + hex
    case Lone(_, hex) => ESCAPE_U + hex
  }

  /** The bytes of the character, see `Utf8Decodes`. */
  function SpellingMeans(s: Spelling): bytes
    requires ValidSpelling(s)
  {
    match s
    case Raw(c) => [c]
    case Short(_, c) => [c]
    case Unicode(cp, _) => Utf8(cp)
    case Lone(half, _) => Utf8(half)
  }

  ghost predicate ValidSpellings(ss: seq<Spelling>) {
    (forall i :: 0 <= i < |ss| ==> ValidSpelling(ss[i])) &&
    forall i :: 0 <= i < |ss| - 1 ==> !Pairs(ss[i], ss[i + 1])
  }

  /** Two halves in a row are one character. */
  predicate Pairs(a: Spelling, b: Spelling) {
    a.Lone? && b.Lone? && a.half < 56320 && b.half >= 56320
  }

  function SpelledText(ss: seq<Spelling>): bytes {
    if ss == [] then [] else SpellingText(ss[0]) + SpelledText(ss[1..])
  }

  function SpelledMeans(ss: seq<Spelling>): bytes
    requires forall i :: 0 <= i < |ss| ==> ValidSpelling(ss[i])
  {
    if ss == [] then [] else SpellingMeans(ss[0]) + SpelledMeans(ss[1..])
  }

  const QUOTES: bytes := ['"' as byte]

  function StringText(ss: seq<Spelling>): bytes {
    QUOTES + SpelledText(ss) + QUOTES
  }

  lemma HexLetterIff(h: byte, d: nat)
    ensures HexValue(h) == Some(d) <==> HexLetter(h, d)
    ensures HexLetter(h, d) ==> d < 16
  {
  }

  lemma HexFour(t: bytes, p: nat)
    requires p + 4 <= |t|
    ensures var a, b, c, d := HexValue(t[p]), HexValue(t[p + 1]), HexValue(t[p + 2]), HexValue(t[p + 3]);
            Hex(t, p, 4) ==
              if a.Some? && b.Some? && c.Some? && d.Some?
              then Some(((a.value * 16 + b.value) * 16 + c.value) * 16 + d.value) else None
  {
    hide HexValue;
    HexNone(t, p);
    assert Hex(t, p, 1) == HexValue(t[p]);
    assert Hex(t, p, 2).Some? <==> HexValue(t[p]).Some? && HexValue(t[p + 1]).Some?;
    assert Hex(t, p, 3).Some? <==> Hex(t, p, 2).Some? && HexValue(t[p + 2]).Some?;
  }

  lemma HexIff(t: bytes, p: nat, n: nat)
    requires p + 4 <= |t|
    ensures Hex(t, p, 4) == Some(n) <==> IsHex4(t[p..p + 4], n)
  {
    hide HexLetter, HexValue, Hex;
    var h := t[p..p + 4];
    HexFour(t, p);
    var a, b, c, d := HexValue(h[0]), HexValue(h[1]), HexValue(h[2]), HexValue(h[3]);
    if IsHex4(h, n) {
      HexDivisions(n);
      HexLetterIff(h[0], n / 4096);
      HexLetterIff(h[1], n / 256 % 16);
      HexLetterIff(h[2], n / 16 % 16);
      HexLetterIff(h[3], n % 16);
    }
    if a.Some? && b.Some? && c.Some? && d.Some? {
      HexLetterIff(h[0], a.value);
      HexLetterIff(h[1], b.value);
      HexLetterIff(h[2], c.value);
      HexLetterIff(h[3], d.value);
      FourDigits(a.value, b.value, c.value, d.value);
    }
  }

  lemma FourDigits(a: nat, b: nat, c: nat, d: nat)
    requires a < 16 && b < 16 && c < 16 && d < 16
    ensures var n := ((a * 16 + b) * 16 + c) * 16 + d;
            n < 65536 && n / 4096 == a && n / 256 % 16 == b && n / 16 % 16 == c && n % 16 == d
  {
    var n := ((a * 16 + b) * 16 + c) * 16 + d;
    assert n / 16 == (a * 16 + b) * 16 + c;
    assert n / 256 == a * 16 + b;
    assert n / 4096 == a;
  }

  lemma EscapeAt(t: bytes, p: nat, hex: bytes, n: nat)
    requires At(t, p, ESCAPE_U + hex) && IsHex4(hex, n)
    ensures p + 6 <= |t| && t[p] == BACKSLASH && t[p + 1] == LOWER_U && Hex(t, p + 2, 4) == Some(n)
  {
    hide Hex, HexLetter;
    AtSplit(t, p, ESCAPE_U, hex);
    AtIndex(t, p, ESCAPE_U, 0);
    AtIndex(t, p, ESCAPE_U, 1);
    HexIff(t, p + 2, n);
  }

  /** What follows a first half does not complete it, and is no broken escape either. */
  ghost predicate LoneStands(t: bytes, p: nat) {
    p + 6 <= |t| && t[p] == BACKSLASH && t[p + 1] == LOWER_U ==>
      Hex(t, p + 2, 4).Some? && !(56320 <= Hex(t, p + 2, 4).value < 57344)
  }

  /** One spelled character is one step of the scanner. */
  lemma SpellingReadsBack(t: bytes, p: nat, s: Spelling)
    requires ValidSpelling(s) && At(t, p, SpellingText(s))
    requires s.Lone? && s.half < 56320 ==> LoneStands(t, p + 6)
    ensures p < |t| && NextPiece(t, p) == Emit(SpellingMeans(s), p + |SpellingText(s)|)
  {
    hide Hex, HexLetter, Utf8, At;
    match s {
      case Raw(c) => AtIndex(t, p, [c], 0);
      case Short(letter, c) =>
        AtIndex(t, p, SpellingText(s), 0);
        AtIndex(t, p, SpellingText(s), 1);
      case Lone(half, hex) => EscapeAt(t, p, hex, half);
      case Unicode(cp, hex) =>
        if cp < 65536 { EscapeAt(t, p, hex, cp); } else { PairReadsBack(t, p, cp, hex); }
    }
  }

  lemma PairReadsBack(t: bytes, p: nat, cp: nat, hex: bytes)
    requires cp >= 65536 && ValidSpelling(Unicode(cp, hex)) && At(t, p, SpellingText(Unicode(cp, hex)))
    ensures p < |t| && NextPiece(t, p) == Emit(Utf8(cp), p + 12)
  {
    hide Hex, IsHex4, Utf8, At;
    var hi, lo := 55296 + (cp - 65536) / 1024, 56320 + (cp - 65536) % 1024;
    var first, second := ESCAPE_U + hex[..4], ESCAPE_U + hex[4..];
    assert ESCAPE_U + hex[..4] + ESCAPE_U + hex[4..] == first + second;
    AtSplit(t, p, first, second);
    EscapeAt(t, p, hex[..4], hi);
    EscapeAt(t, p + 6, hex[4..], lo);
  }

  lemma {:induction false} SpelledBodyReadsBack(t: bytes, p: nat, ss: seq<Spelling>, acc: bytes)
    requires ValidSpellings(ss) && At(t, p, SpelledText(ss) + QUOTES)
    ensures StringBody(t, p, acc) == Ok(acc + SpelledMeans(ss), p + |SpelledText(ss)| + 1)
    decreases |ss|
  {
    hide SpellingText, SpellingMeans, ValidSpelling, NextPiece, At;
    if ss == [] {
      AtIndex(t, p, SpelledText(ss) + QUOTES, 0);
      QuoteCloses(t, p);
      assert acc + [] == acc;
    } else {
      var s, rest := SpellingText(ss[0]), SpelledText(ss[1..]) + QUOTES;
      assert SpelledText(ss) + QUOTES == s + rest;
      AtSplit(t, p, s, rest);
      SpellingNotEmpty(ss[0]);
      if ss[0].Lone? && ss[0].half < 56320 { NextStands(t, p + |s|, ss[1..]); }
      SpellingReadsBack(t, p, ss[0]);
      SpelledBodyReadsBack(t, p + |s|, ss[1..], acc + SpellingMeans(ss[0]));
      Joined(acc, SpellingMeans(ss[0]), SpelledMeans(ss[1..]));
    }
  }

  lemma QuoteCloses(t: bytes, p: nat)
    requires p < |t| && t[p] == QUOTES[0]
    ensures NextPiece(t, p) == Close
  {
  }

  lemma SpellingNotEmpty(s: Spelling)
    requires ValidSpelling(s)
    ensures |SpellingText(s)| > 0 && (s.Lone? ==> |SpellingText(s)| == 6)
  {
    hide IsHex4;
    if s.Lone? { assert |s.hex| == 4 by { assert IsHex4(s.hex, s.half); LengthOfHex(s.hex, s.half); } }
  }

  lemma LengthOfHex(hex: bytes, n: nat)
    requires IsHex4(hex, n)
    ensures |hex| == 4
  {
  }

  lemma SpellingStands(t: bytes, p: nat, s: Spelling)
    requires ValidSpelling(s) && At(t, p, SpellingText(s)) && (s.Lone? ==> s.half < 56320)
    ensures LoneStands(t, p)
  {
    hide Hex, HexLetter, At;
    match s {
      case Raw(c) => AtIndex(t, p, [c], 0);
      case Short(letter, c) => AtIndex(t, p, SpellingText(s), 1);
      case Lone(half, hex) => EscapeAt(t, p, hex, half);
      case Unicode(cp, hex) =>
        if cp < 65536 { EscapeAt(t, p, hex, cp); } else { PairStands(t, p, cp, hex); }
    }
  }

  lemma PairStands(t: bytes, p: nat, cp: nat, hex: bytes)
    requires cp >= 65536 && ValidSpelling(Unicode(cp, hex)) && At(t, p, SpellingText(Unicode(cp, hex)))
    ensures LoneStands(t, p)
  {
    hide Hex, IsHex4, At;
    var first, second := ESCAPE_U + hex[..4], ESCAPE_U + hex[4..];
    assert ESCAPE_U + hex[..4] + ESCAPE_U + hex[4..] == first + second;
    AtSplit(t, p, first, second);
    EscapeAt(t, p, hex[..4], 55296 + (cp - 65536) / 1024);
  }

  lemma NextStands(t: bytes, p: nat, ss: seq<Spelling>)
    requires (forall i :: 0 <= i < |ss| ==> ValidSpelling(ss[i])) && At(t, p, SpelledText(ss) + QUOTES)
    requires ss != [] && ss[0].Lone? ==> ss[0].half < 56320
    ensures LoneStands(t, p)
  {
    hide Hex, ValidSpelling, SpellingText, At;
    if ss == [] {
      AtIndex(t, p, SpelledText(ss) + QUOTES, 0);
    } else {
      var s, rest := SpellingText(ss[0]), SpelledText(ss[1..]) + QUOTES;
      assert SpelledText(ss) + QUOTES == s + rest;
      AtSplit(t, p, s, rest);
      SpellingStands(t, p, ss[0]);
    }
  }

  /** However a sender spells a string, that string is read. */
  lemma StringReads(t: bytes, p: nat, ss: seq<Spelling>)
    requires ValidSpellings(ss) && At(t, p, StringText(ss))
    ensures p < |t| && ParseString(t, p) == Ok(SpelledMeans(ss), p + |StringText(ss)|)
  {
    hide StringBody, SpelledText, ValidSpelling;
    AtIndex(t, p, StringText(ss), 0);
    assert StringText(ss) == QUOTES + (SpelledText(ss) + QUOTES);
    AtSplit(t, p, QUOTES, SpelledText(ss) + QUOTES);
    SpelledBodyReadsBack(t, p + 1, ss, []);
    assert [] + SpelledMeans(ss) == SpelledMeans(ss);
  }

  /** And nothing else is: a step of the scanner is some character's spelling. */
  lemma PieceIsSpelled(t: bytes, p: nat) returns (s: Spelling)
    requires p < |t| && NextPiece(t, p).Emit?
    ensures ValidSpelling(s) && At(t, p, SpellingText(s))
    ensures NextPiece(t, p) == Emit(SpellingMeans(s), p + |SpellingText(s)|)
    ensures s.Lone? && s.half < 56320 ==> LoneStands(t, p + 6)
  {
    hide Hex, HexLetter, Utf8;
    if t[p] != BACKSLASH {
      s := Raw(t[p]);
    } else if t[p + 1] != LOWER_U {
      s := Short(t[p + 1], SimpleEscape(t[p + 1]).value);
      assert t[p..p + 2] == SpellingText(s);
    } else {
      var cp := Hex(t, p + 2, 4).value;
      var hex := t[p + 2..p + 6];
      HexIff(t, p + 2, cp);
      assert t[p..p + 6] == ESCAPE_U + hex;
      if 55296 <= cp < 57344 {
        s := Lone(cp, hex);
        if cp < 56320 && p + 12 <= |t| && t[p + 6] == BACKSLASH && t[p + 7] == LOWER_U {
          var lo := Hex(t, p + 8, 4).value;
          if 56320 <= lo < 57344 { s := PairIsSpelled(t, p, cp, lo); }
        }
      } else {
        s := Unicode(cp, hex);
      }
    }
  }

  lemma PairIsSpelled(t: bytes, p: nat, hi: nat, lo: nat) returns (s: Spelling)
    requires p + 12 <= |t| && t[p] == t[p + 6] == BACKSLASH && t[p + 1] == t[p + 7] == LOWER_U
    requires Hex(t, p + 2, 4) == Some(hi) && Hex(t, p + 8, 4) == Some(lo)
    requires 55296 <= hi < 56320 && 56320 <= lo < 57344
    ensures s.Unicode? && ValidSpelling(s) && At(t, p, SpellingText(s))
    ensures NextPiece(t, p) == Emit(SpellingMeans(s), p + |SpellingText(s)|)
  {
    hide Hex, HexLetter, Utf8;
    var a, b := t[p + 2..p + 6], t[p + 8..p + 12];
    HexIff(t, p + 2, hi);
    HexIff(t, p + 8, lo);
    var cp := 65536 + (hi - 55296) * 1024 + (lo - 56320);
    s := Unicode(cp, a + b);
    assert (cp - 65536) / 1024 == hi - 55296 && (cp - 65536) % 1024 == lo - 56320;
    assert (a + b)[..4] == a && (a + b)[4..] == b;
    assert t[p..p + 12] == ESCAPE_U + a + ESCAPE_U + b;
  }

  lemma NotSecondHalf(t: bytes, p: nat, s: Spelling)
    requires LoneStands(t, p) && ValidSpelling(s) && At(t, p, SpellingText(s))
    ensures s.Lone? ==> s.half < 56320
  {
    hide Hex, HexLetter;
    if s.Lone? { EscapeAt(t, p, s.hex, s.half); }
  }

  lemma {:induction false} BodyIsSpelled(t: bytes, p: nat, acc: bytes) returns (ss: seq<Spelling>)
    requires p <= |t| && StringBody(t, p, acc).Ok?
    ensures ValidSpellings(ss) && At(t, p, SpelledText(ss) + QUOTES)
    ensures StringBody(t, p, acc) == Ok(acc + SpelledMeans(ss), p + |SpelledText(ss)| + 1)
    decreases |t| - p
  {
    hide SpellingText, SpellingMeans, ValidSpelling, NextPiece, LoneStands;
    match NextPiece(t, p) {
      case Close =>
        ss := [];
        CloseIsQuote(t, p);
        assert acc + [] == acc && SpelledText(ss) + QUOTES == QUOTES;
      case Emit(o, n) =>
        var s := PieceIsSpelled(t, p);
        SpellingNotEmpty(s);
        var more := BodyIsSpelled(t, n, acc + o);
        ss := [s] + more;
        assert ss[1..] == more;
        Joined(acc, o, SpelledMeans(more));
        assert SpelledText(ss) + QUOTES == SpellingText(s) + (SpelledText(more) + QUOTES);
        AtJoin(t, p, SpellingText(s), SpelledText(more) + QUOTES);
        if more != [] {
          assert SpelledText(more) + QUOTES == SpellingText(more[0]) + (SpelledText(more[1..]) + QUOTES);
          AtSplit(t, n, SpellingText(more[0]), SpelledText(more[1..]) + QUOTES);
          if s.Lone? && s.half < 56320 { NotSecondHalf(t, n, more[0]); }
        }
    }
  }

  lemma CloseIsQuote(t: bytes, p: nat)
    requires p < |t| && NextPiece(t, p) == Close
    ensures At(t, p, QUOTES)
  {
    assert t[p..p + 1] == QUOTES;
  }

  lemma AtJoin(t: bytes, p: nat, a: bytes, b: bytes)
    requires At(t, p, a) && At(t, p + |a|, b)
    ensures At(t, p, a + b)
  {
    assert t[p..p + |a + b|] == t[p..p + |a|] + t[p + |a|..p + |a| + |b|];
  }

  lemma StringIsSpelled(t: bytes, p: nat) returns (ss: seq<Spelling>)
    requires p <= |t| && ParseString(t, p).Ok?
    ensures ValidSpellings(ss) && At(t, p, StringText(ss))
    ensures ParseString(t, p) == Ok(SpelledMeans(ss), p + |StringText(ss)|)
  {
    hide StringBody, SpelledText, ValidSpelling;
    ss := BodyIsSpelled(t, p + 1, []);
    assert [] + SpelledMeans(ss) == SpelledMeans(ss);
    assert t[p..p + 1] == QUOTES;
    AtJoin(t, p, QUOTES, SpelledText(ss) + QUOTES);
    assert StringText(ss) == QUOTES + (SpelledText(ss) + QUOTES);
  }

  // ---------- Numbers ----------

  datatype Exponent = Exponent(letter: byte, sign: bytes, digits: seq<nat>)

  /** A number by its digits. The parser hands a longer run to `stod` than section 6 allows: leading
      zeros, a point or an exponent mark without digits, and no digit in front of a point. */
  datatype Numeral = Numeral(minus: bool, whole: seq<nat>, fraction: Option<seq<nat>>, exponent: Option<Exponent>)

  function FractionDigits(n: Numeral): seq<nat> {
    if n.fraction.Some? then n.fraction.value else []
  }

  ghost predicate ValidNumeral(n: Numeral) {
    Shaped(n) && (n.whole != [] || (n.minus && FractionDigits(n) != []))
  }

  /** The runs of characters that are taken for a number. */
  ghost predicate Shaped(n: Numeral) {
    AreDigits(n.whole) && AreDigits(FractionDigits(n)) &&
    ExponentShaped(n.exponent)
  }

  ghost predicate ExponentShaped(e: Option<Exponent>) {
    e.Some? ==>
      e.value.letter as char in {'e', 'E'} && AreDigits(e.value.digits) &&
      (e.value.sign == [] || e.value.sign == ['+' as byte] || e.value.sign == ['-' as byte])
  }

  function ExponentText(e: Option<Exponent>): bytes
    requires e.Some? ==> AreDigits(e.value.digits)
  {
    match e
    case None => []
    case Some(x) => [x.letter] + x.sign + DigitsText(x.digits)
  }

  function FractionText(f: Option<seq<nat>>): bytes
    requires f.Some? ==> AreDigits(f.value)
  {
    match f
    case None => []
    case Some(ds) => ['.' as byte] + DigitsText(ds)
  }

  function NumeralText(n: Numeral): bytes
    requires Shaped(n)
  {
    (if n.minus then ['-' as byte] else []) + DigitsText(n.whole) + FractionText(n.fraction) + ExponentText(n.exponent)
  }

  function NumeralMeans(n: Numeral): real
    requires Shaped(n)
  {
    var f := FractionDigits(n);
    var x := Positional(n.whole + f) as real / Power(|f|) as real;
    var y := match n.exponent
      case None => x
      case Some(e) =>
        var k := Power(Positional(e.digits)) as real;
        if e.sign == ['-' as byte] then x / k else x * k;
    if n.minus then -y else y
  }

  lemma {:induction false} TenIsPower(k: nat)
    ensures Ten(k) == Power(k) as real
  {
    if k > 0 { TenIsPower(k - 1); }
  }

  lemma {:induction false} DigitsMean(ds: seq<nat>)
    requires AreDigits(ds)
    ensures forall i :: 0 <= i < |ds| ==> IsDigit(DigitsText(ds)[i])
    ensures DigitsValue(DigitsText(ds)) == Positional(ds)
    decreases |ds|
  {
    if ds != [] {
      var n := |ds| - 1;
      DigitsMean(ds[..n]);
      assert DigitsText(ds)[..n] == DigitsText(ds[..n]);
      assert ds == ds[..n] + [ds[n]];
      PositionalSnoc(ds[..n], ds[n]);
    }
  }

  /** Nothing that could go on with a number: the end, white space, or the end of a member. */
  ghost predicate Ends(t: bytes, p: nat) {
    p < |t| ==> t[p] as char in {' ', '\t', '\n', '\r', ',', ']', '}'}
  }

  /** Where the parts of a number end. */
  ghost predicate PartsAt(t: bytes, p: nat, n: Numeral)
    requires Shaped(n) && p < |t|
  {
    var a := p + if n.minus then 1 else 0;
    var b := a + |n.whole|;
    var c := b + |FractionText(n.fraction)|;
    var d := c + |ExponentText(n.exponent)|;
    d <= |t| && SignEnd(t, p) == a && DigitsEnd(t, a) == b && FractionEnd(t, b) == c && ExponentEnd(t, c) == d &&
    At(t, a, DigitsText(n.whole)) && At(t, b, FractionText(n.fraction)) && At(t, c, ExponentText(n.exponent))
  }

  lemma DigitsAt(t: bytes, p: nat, ds: seq<nat>)
    requires AreDigits(ds) && At(t, p, DigitsText(ds)) && (p + |ds| < |t| ==> !IsDigit(t[p + |ds|]))
    ensures DigitsEnd(t, p) == p + |ds| <= |t|
  {
    forall i | p <= i < p + |ds| ensures IsDigit(t[i]) { AtIndex(t, p, DigitsText(ds), i - p); }
    DigitsRun(t, p, |ds|);
  }

  lemma ExponentAt(t: bytes, c: nat, n: Numeral)
    requires Shaped(n) && At(t, c, ExponentText(n.exponent)) && Ends(t, c + |ExponentText(n.exponent)|)
    ensures ExponentEnd(t, c) == c + |ExponentText(n.exponent)|
    ensures c < |t| ==> !IsDigit(t[c]) && t[c] != DOT
  {
    hide DigitsEnd, At;
    match n.exponent {
      case None =>
      case Some(e) =>
        var x := ExponentText(n.exponent);
        AtIndex(t, c, x, 0);
        assert x == ([e.letter] + e.sign) + DigitsText(e.digits);
        AtSplit(t, c, [e.letter] + e.sign, DigitsText(e.digits));
        DigitsAt(t, c + 1 + |e.sign|, e.digits);
        if e.sign != [] { AtIndex(t, c, x, 1); }
        else if e.digits != [] { AtIndex(t, c, x, 1); }
    }
  }

  lemma FractionAt(t: bytes, b: nat, f: Option<seq<nat>>)
    requires f.Some? ==> AreDigits(f.value)
    requires At(t, b, FractionText(f))
    requires b + |FractionText(f)| < |t| ==> !IsDigit(t[b + |FractionText(f)|]) && t[b + |FractionText(f)|] != DOT
    ensures FractionEnd(t, b) == b + |FractionText(f)|
    ensures b < |t| ==> !IsDigit(t[b])
  {
    hide DigitsEnd, At;
    match f {
      case None =>
      case Some(ds) =>
        AtIndex(t, b, FractionText(f), 0);
        AtSplit(t, b, ['.' as byte], DigitsText(ds));
        DigitsAt(t, b + 1, ds);
    }
  }

  /** Where the parts of a number lie. */
  lemma PartsLie(t: bytes, p: nat, n: Numeral)
    requires Shaped(n) && At(t, p, NumeralText(n))
    ensures var a := p + if n.minus then 1 else 0;
            var b := a + |n.whole|;
            var c := b + |FractionText(n.fraction)|;
            c + |ExponentText(n.exponent)| <= |t| &&
            At(t, a, DigitsText(n.whole)) && At(t, b, FractionText(n.fraction)) && At(t, c, ExponentText(n.exponent)) &&
            p + |NumeralText(n)| == c + |ExponentText(n.exponent)| && (n.minus ==> p < |t| && t[p] == MINUS)
  {
    hide FractionText, ExponentText, DigitsText, At, AreDigits;
    ShapedDigits(n);
    var sign := if n.minus then ['-' as byte] else [];
    var w, f, e := DigitsText(n.whole), FractionText(n.fraction), ExponentText(n.exponent);
    AtSplit(t, p, sign + w + f, e);
    AtSplit(t, p, sign + w, f);
    AtSplit(t, p, sign, w);
    if n.minus { AtIndex(t, p, sign, 0); }
    LengthsAre(n);
    AtEnds(t, p + |sign + w + f|, e);
  }

  lemma AtEnds(t: bytes, p: nat, s: bytes)
    requires At(t, p, s)
    ensures p + |s| <= |t|
  {
  }

  lemma ShapedDigits(n: Numeral)
    requires Shaped(n)
    ensures AreDigits(n.whole) && (n.fraction.Some? ==> AreDigits(n.fraction.value))
    ensures n.exponent.Some? ==> AreDigits(n.exponent.value.digits)
  {
  }

  lemma NumeralParts(t: bytes, p: nat, n: Numeral)
    requires Shaped(n) && At(t, p, NumeralText(n)) && Ends(t, p + |NumeralText(n)|)
    requires n.minus || n.whole != []
    ensures p < |t| && (t[p] == MINUS || IsDigit(t[p])) && PartsAt(t, p, n)
  {
    hide DigitsEnd, FractionEnd, ExponentEnd, FractionText, ExponentText, DigitsText, NumeralText, At, Ends, IsDigit;
    PartsLie(t, p, n);
    ShapedDigits(n);
    var a := p + if n.minus then 1 else 0;
    var b := a + |n.whole|;
    ExponentAt(t, b + |FractionText(n.fraction)|, n);
    FractionAt(t, b, n.fraction);
    DigitsAt(t, a, n.whole);
    if !n.minus { FirstDigitAt(t, p, n.whole); }
    LengthsAre(n);
  }

  lemma LengthsAre(n: Numeral)
    requires Shaped(n)
    ensures |DigitsText(n.whole)| == |n.whole|
  {
  }

  lemma NumeralLength(n: Numeral)
    requires Shaped(n)
    ensures |NumeralText(n)| ==
            (if n.minus then 1 else 0) + |n.whole| + |FractionText(n.fraction)| + |ExponentText(n.exponent)|
  {
    hide FractionText, ExponentText;
  }

  lemma FirstDigitAt(t: bytes, p: nat, ds: seq<nat>)
    requires AreDigits(ds) && ds != [] && At(t, p, DigitsText(ds))
    ensures p < |t| && IsDigit(t[p]) && t[p] != MINUS
  {
    hide At;
    AtIndex(t, p, DigitsText(ds), 0);
  }

  lemma NumeralValue(s: bytes, n: Numeral)
    requires Shaped(n) && (n.minus || n.whole != []) && s == NumeralText(n) && s != []
    ensures Stod(s) == if n.whole == [] && FractionDigits(n) == [] then None else Some(NumeralMeans(n))
  {
    hide DigitsEnd, DigitsValue, Positional, Power, Ten, FractionEnd, ExponentEnd, Scaled, SignEnd;
    hide FractionText, ExponentText;
    hide DigitsText, NumeralText;
    assert At(s, 0, NumeralText(n)) && Ends(s, |s|);
    NumeralParts(s, 0, n);
    MantissaParts(s, n);
    var f := FractionDigits(n);
    DigitsMean(n.whole + f);
    TenIsPower(|f|);
    var c := FractionEnd(s, DigitsEnd(s, SignEnd(s, 0)));
    var m := Positional(n.whole + f) as real / Power(|f|) as real;
    ScaledMeans(s, c, n, m);
  }

  lemma ScaledMeans(s: bytes, c: nat, n: Numeral, m: real)
    requires Shaped(n) && c <= |s| && s[c..] == ExponentText(n.exponent)
    ensures Scaled(s, c, m) ==
            match n.exponent
            case None => m
            case Some(e) =>
              var k := Power(Positional(e.digits)) as real;
              if e.sign == ['-' as byte] then m / k else m * k
  {
    hide ExponentText, Scaled, Power, Positional;
    match n.exponent {
      case None => NoExponent(s, c, m);
      case Some(e) => ExponentValue(s, c, e, m);
    }
  }

  lemma NoExponent(s: bytes, c: nat, m: real)
    requires c <= |s| && s[c..] == ExponentText(None)
    ensures Scaled(s, c, m) == m
  {
  }

  /** The slices that `stod` takes for the digits in front of the point and behind it. */
  lemma MantissaParts(s: bytes, n: Numeral)
    requires Shaped(n) && s == NumeralText(n)
    ensures var a := if n.minus then 1 else 0;
            var b := a + |n.whole|;
            var c := b + |FractionText(n.fraction)|;
            c <= |s| && s[c..] == ExponentText(n.exponent) &&
            (if b < c then c - b - 1 else 0) == |FractionDigits(n)| &&
            DigitsText(n.whole + FractionDigits(n)) == s[a..b] + (if b < c then s[b + 1..c] else [])
  {
    hide ExponentText, DigitsText;
    var sign := if n.minus then ['-' as byte] else [];
    var f := FractionDigits(n);
    var p := FractionText(n.fraction);
    var b := |sign| + |n.whole|;
    FourParts(s, sign, DigitsText(n.whole), p, ExponentText(n.exponent));
    DigitsJoin(n.whole, f);
    if n.fraction.Some? {
      assert s[b + 1..b + |p|] == s[b..b + |p|][1..] == DigitsText(f);
    }
  }

  lemma FourParts(s: bytes, a: bytes, b: bytes, c: bytes, d: bytes)
    requires s == a + b + c + d
    ensures s[|a|..|a| + |b|] == b && s[|a| + |b|..|a| + |b| + |c|] == c && s[|a| + |b| + |c|..] == d
  {
  }

  lemma ExponentValue(s: bytes, c: nat, e: Exponent, m: real)
    requires AreDigits(e.digits) && e.letter as char in {'e', 'E'}
    requires e.sign == [] || e.sign == ['+' as byte] || e.sign == ['-' as byte]
    requires c <= |s| && s[c..] == ExponentText(Some(e))
    ensures var k := Power(Positional(e.digits)) as real;
            Scaled(s, c, m) == if e.sign == ['-' as byte] then m / k else m * k
  {
    hide DigitsEnd, DigitsValue, Positional, Power, Ten;
    var x := ExponentText(Some(e));
    var d := c + 1 + |e.sign|;
    assert s[c] == x[0] && |s| == c + |x|;
    assert s[d..] == s[c..][1 + |e.sign|..] == DigitsText(e.digits);
    assert At(s, d, DigitsText(e.digits)) by { assert s[d..|s|] == s[d..]; }
    DigitsAt(s, d, e.digits);
    DigitsMean(e.digits);
    TenIsPower(Positional(e.digits));
    if e.sign != [] { assert s[c + 1] == x[1]; }
    else if e.digits != [] { assert s[c + 1] == x[1] == DigitsText(e.digits)[0]; }
  }

  /** Every decimal notation reads as the number it denotes. */
  lemma NumeralReads(t: bytes, p: nat, n: Numeral)
    requires ValidNumeral(n) && At(t, p, NumeralText(n)) && Ends(t, p + |NumeralText(n)|)
    ensures p < |t| && (t[p] == MINUS || IsDigit(t[p]))
    ensures ParseNumber(t, p) == Ok(NumeralMeans(n), p + |NumeralText(n)|)
  {
    hide SignEnd, DigitsEnd, FractionEnd, ExponentEnd, Stod, NumeralMeans, NumeralText, Shaped, Ends, IsDigit;
    var s := NumeralText(n);
    NumeralParts(t, p, n);
    NumeralLength(n);
    assert NumberEnd(t, p) == p + |s| && t[p..p + |s|] == s;
    NumeralValue(s, n);
  }

  function DigitsOf(s: bytes): (ds: seq<nat>)
    requires forall i :: 0 <= i < |s| ==> IsDigit(s[i])
    ensures AreDigits(ds) && DigitsText(ds) == s
  {
    if s == [] then [] else assert IsDigit(s[0]); [s[0] - 48] + DigitsOf(s[1..])
  }

  /** The run at `p`, read as digits. */
  lemma RunIsShaped(t: bytes, p: nat) returns (n: Numeral)
    requires p < |t| && (t[p] == MINUS || IsDigit(t[p]))
    ensures Shaped(n) && (n.minus || n.whole != []) && NumeralText(n) == t[p..NumberEnd(t, p)]
  {
    hide DigitsEnd, FractionEnd, ExponentEnd, DigitsText, FractionText, ExponentText, IsDigit;
    var a := SignEnd(t, p);
    var b := DigitsEnd(t, a);
    var fraction, c := FractionIsShaped(t, b);
    var exponent, q := ExponentIsShaped(t, c);
    n := Numeral(a > p, DigitsOf(t[a..b]), fraction, exponent);
    assert t[p..a] == if n.minus then ['-' as byte] else [];
    assert t[p..q] == t[p..a] + t[a..b] + t[b..c] + t[c..q];
    if a == p { FirstDigit(t, p); }
  }

  lemma FirstDigit(t: bytes, p: nat)
    requires p < |t| && IsDigit(t[p])
    ensures DigitsEnd(t, p) > p
  {
  }

  lemma FractionIsShaped(t: bytes, b: nat) returns (f: Option<seq<nat>>, c: nat)
    requires b <= |t|
    ensures c == FractionEnd(t, b) >= b && (f.Some? ==> AreDigits(f.value)) && FractionText(f) == t[b..c]
  {
    c := FractionEnd(t, b);
    f := None;
    if b < |t| && t[b] == DOT {
      f := Some(DigitsOf(t[b + 1..c]));
      assert t[b..c] == [t[b]] + t[b + 1..c];
    }
  }

  lemma ExponentIsShaped(t: bytes, c: nat) returns (e: Option<Exponent>, q: nat)
    requires c <= |t|
    ensures q == ExponentEnd(t, c) >= c && ExponentShaped(e) && ExponentText(e) == t[c..q]
  {
    q := ExponentEnd(t, c);
    e := None;
    if c < |t| && (t[c] == 101 || t[c] == 69) {
      var d := if c + 1 < |t| && (t[c + 1] == 43 || t[c + 1] == MINUS) then c + 2 else c + 1;
      e := Some(Exponent(t[c], t[c + 1..d], DigitsOf(t[d..q])));
      assert t[c..q] == [t[c]] + t[c + 1..d] + t[d..q];
      if d == c + 2 { assert t[c + 1..d] == [t[c + 1]]; }
    }
  }

  /** And nothing else is read as a number. */
  lemma NumeralIsSpelled(t: bytes, p: nat) returns (n: Numeral)
    requires p < |t| && (t[p] == MINUS || IsDigit(t[p])) && ParseNumber(t, p).Ok?
    ensures ValidNumeral(n) && At(t, p, NumeralText(n))
    ensures ParseNumber(t, p) == Ok(NumeralMeans(n), p + |NumeralText(n)|)
  {
    hide NumberEnd, Stod, NumeralMeans, NumeralText;
    n := RunIsShaped(t, p);
    NumeralValue(NumeralText(n), n);
  }

  // ---------- Values ----------

  /** A value with the spelling of its parts and the white space between them (section 2). */
  datatype Written =
    | WNull
    | WBool(b: bool)
    | WNumber(n: Numeral)
    | WString(ss: seq<Spelling>)
    | WArray(gap: bytes, slots: seq<Slot>)
    | WObject(gap: bytes, pairs: seq<Pair>)

  datatype Slot = Slot(before: bytes, val: Written, after: bytes)

  datatype Pair = Pair(before: bytes, key: seq<Spelling>, between: bytes, slot: Slot)

  ghost predicate Blank(s: bytes) {
    forall i :: 0 <= i < |s| ==> s[i] as char in {' ', '\t', '\n', '\r'}
  }

  ghost predicate Valid(w: Written)
    decreases w, 0
  {
    match w
    case WNumber(n) => ValidNumeral(n)
    case WString(ss) => ValidSpellings(ss)
    case WArray(gap, slots) => Blank(gap) && forall i :: 0 <= i < |slots| ==> ValidSlot(slots[i])
    case WObject(gap, pairs) => Blank(gap) && forall i :: 0 <= i < |pairs| ==> ValidPair(pairs[i])
    case _ => true
  }

  ghost predicate ValidSlot(s: Slot)
    decreases s, 1
  {
    Blank(s.before) && Blank(s.after) && Valid(s.val)
  }

  ghost predicate ValidPair(m: Pair)
    decreases m, 2
  {
    Blank(m.before) && ValidSpellings(m.key) && Blank(m.between) && ValidSlot(m.slot)
  }

  const COMMAS: bytes := [',' as byte]

  function WrittenText(w: Written): bytes
    requires Valid(w)
    decreases w, 0
  {
    match w
    case WNull => Ascii("null")
    case WBool(b) => if b then Ascii("true") else Ascii("false")
    case WNumber(n) => NumeralText(n)
    case WString(ss) => StringText(ss)
    case WArray(gap, slots) => ['[' as byte] + (if slots == [] then gap else SlotsText(slots)) + [']' as byte]
    case WObject(gap, pairs) => ['{' as byte] + (if pairs == [] then gap else PairsText(pairs)) + ['}' as byte]
  }

  function SlotText(s: Slot): bytes
    requires ValidSlot(s)
    decreases s, 1
  {
    s.before + WrittenText(s.val) + s.after
  }

  function SlotsText(a: seq<Slot>): bytes
    requires a != [] && forall i :: 0 <= i < |a| ==> ValidSlot(a[i])
    decreases a, 2
  {
    SlotText(a[0]) + if |a| == 1 then [] else COMMAS + SlotsText(a[1..])
  }

  function PairText(m: Pair): bytes
    requires ValidPair(m)
    decreases m, 2
  {
    m.before + StringText(m.key) + m.between + [':' as byte] + SlotText(m.slot)
  }

  function PairsText(a: seq<Pair>): bytes
    requires a != [] && forall i :: 0 <= i < |a| ==> ValidPair(a[i])
    decreases a, 3
  {
    PairText(a[0]) + if |a| == 1 then [] else COMMAS + PairsText(a[1..])
  }

  /** The value; of members with one key the first counts, see `EmplaceAllLookup`. */
  function Means(w: Written): Value
    requires Valid(w)
    decreases w, 0
  {
    match w
    case WNull => Null
    case WBool(b) => Bool(b)
    case WNumber(n) => Number(NumeralMeans(n))
    case WString(ss) => String(SpelledMeans(ss))
    case WArray(_, slots) => Array(SlotsMean(slots))
    case WObject(_, pairs) => Object(EmplaceAll([], PairsMean(pairs)))
  }

  function SlotsMean(a: seq<Slot>): seq<Value>
    requires forall i :: 0 <= i < |a| ==> ValidSlot(a[i])
    decreases a, 2
  {
    if a == [] then [] else assert ValidSlot(a[0]); [Means(a[0].val)] + SlotsMean(a[1..])
  }

  function PairsMean(a: seq<Pair>): seq<Member>
    requires forall i :: 0 <= i < |a| ==> ValidPair(a[i])
    decreases a, 3
  {
    if a == [] then []
    else
      assert ValidPair(a[0]) && ValidSlot(a[0].slot);
      [Member(SpelledMeans(a[0].key), Means(a[0].slot.val))] + PairsMean(a[1..])
  }

  lemma {:induction false} BlankSkips(t: bytes, p: nat, b: bytes)
    requires Blank(b) && At(t, p, b) && (p + |b| < |t| ==> !IsWs(t[p + |b|]))
    ensures SkipWs(t, p) == p + |b|
    decreases |b|
  {
    if b != [] {
      AtIndex(t, p, b, 0);
      assert b == [b[0]] + b[1..];
      AtSplit(t, p, [b[0]], b[1..]);
      BlankSkips(t, p + 1, b[1..]);
    }
  }

  lemma SkipTwice(t: bytes, p: nat)
    requires p <= |t|
    ensures SkipWs(t, SkipWs(t, p)) == SkipWs(t, p)
    ensures ParseValue(t, SkipWs(t, p)) == ParseValue(t, p)
  {
  }

  lemma LiteralTexts()
    ensures Ascii("null") == NULL_TEXT && Ascii("true") == TRUE_TEXT && Ascii("false") == FALSE_TEXT
  {
  }

  /** What a value starts with: no white space and no closing bracket. */
  lemma WrittenStarts(w: Written)
    requires Valid(w)
    ensures var s := WrittenText(w); s != [] && !IsWs(s[0]) && s[0] != RBRACKET
    ensures w.WNumber? ==> WrittenText(w)[0] == MINUS || IsDigit(WrittenText(w)[0])
  {
    hide SlotsText, PairsText, StringText, NumeralText;
    LiteralTexts();
    match w {
      case WNumber(n) => NumeralStarts(n);
      case WString(ss) => StringStarts(ss);
      case _ =>
    }
  }

  lemma NumeralStarts(n: Numeral)
    requires ValidNumeral(n)
    ensures NumeralText(n) != [] && (NumeralText(n)[0] == MINUS || IsDigit(NumeralText(n)[0]))
  {
  }

  lemma StringStarts(ss: seq<Spelling>)
    requires ValidSpellings(ss)
    ensures StringText(ss) != [] && StringText(ss)[0] == QUOTE
  {
  }

  /** However a value is written, that value is read, and the parser stops behind it. */
  lemma {:induction false} WrittenReads(t: bytes, p: nat, w: Written)
    requires Valid(w) && At(t, p, WrittenText(w)) && Ends(t, p + |WrittenText(w)|)
    ensures ParseValue(t, p) == Ok(Means(w), p + |WrittenText(w)|)
    decreases w, 0
  {
    hide At, SkipWs, ParseString, ParseNumber, ParseElems, ParseMembers, SlotsText, PairsText, StringText, NumeralText;
    hide Ends;
    hide NumeralMeans, SpelledMeans, ValidNumeral, ValidSpellings;
    WrittenStarts(w);
    AtIndex(t, p, WrittenText(w), 0);
    NoWsHere(t, p);
    LiteralTexts();
    match w
    case WNull => LiteralReadsBack(t, p, NULL_TEXT);
    case WBool(b) => LiteralReadsBack(t, p, if b then TRUE_TEXT else FALSE_TEXT);
    case WNumber(n) => NumeralReads(t, p, n);
    case WString(ss) =>
      StringReads(t, p, ss);
      StringStarts(ss);
    case WArray(gap, slots) => ArrayReads(t, p, gap, slots);
    case WObject(gap, pairs) => ObjectReads(t, p, gap, pairs);
  }

  lemma NothingMeans()
    ensures SlotsMean([]) == [] && EmplaceAll([], PairsMean([])) == []
  {
  }

  lemma BracketsAt(t: bytes, p: nat, open: byte, inside: bytes, close: byte)
    requires At(t, p, [open] + inside + [close])
    ensures var q := p + 1 + |inside|; q < |t| && t[p] == open && At(t, p + 1, inside) && t[q] == close
  {
    hide At;
    AtSplit(t, p, [open] + inside, [close]);
    AtSplit(t, p, [open], inside);
    AtIndex(t, p, [open], 0);
    AtIndex(t, p + 1 + |inside|, [close], 0);
  }

  /** A list's head, and its tail behind a comma. */
  lemma ListAt(t: bytes, p: nat, head: bytes, tail: bytes)
    requires At(t, p, head + (COMMAS + tail))
    ensures var q := p + |head|; At(t, p, head) && q < |t| && t[q] == COMMA && At(t, q + 1, tail)
  {
    hide At;
    AtSplit(t, p, head, COMMAS + tail);
    AtSplit(t, p + |head|, COMMAS, tail);
    AtIndex(t, p + |head|, COMMAS, 0);
  }

  lemma {:induction false} ArrayReads(t: bytes, p: nat, gap: bytes, slots: seq<Slot>)
    requires Valid(WArray(gap, slots)) && At(t, p, WrittenText(WArray(gap, slots)))
    ensures ParseValue(t, p) == Ok(Means(WArray(gap, slots)), p + |WrittenText(WArray(gap, slots))|)
    decreases slots, 3
  {
    hide At, SkipWs, ParseString, ParseNumber, ParseElems, ParseMembers, SlotsText, ValidSlot;
    hide SlotsMean, PairsMean, PairsText, EmplaceAll, Ascii, NumeralText, StringText, IsDigit, ValidNumeral, ValidPair;
    var inside := if slots == [] then gap else SlotsText(slots);
    BracketsAt(t, p, LBRACKET, inside, RBRACKET);
    NoWsHere(t, p);
    if slots == [] {
      BlankSkips(t, p + 1, gap);
      NothingMeans();
    } else {
      SlotsStart(t, p + 1, slots);
      SlotsRead(t, p + 1, [], slots);
      ElemsSkip(t, p + 1, []);
      assert [] + SlotsMean(slots) == SlotsMean(slots);
      assert WrittenText(WArray(gap, slots)) == [LBRACKET] + inside + [RBRACKET];
    }
  }

  lemma ElemsSkip(t: bytes, p: nat, acc: seq<Value>)
    requires p <= |t|
    ensures ParseElems(t, SkipWs(t, p), acc) == ParseElems(t, p, acc)
  {
    hide SkipWs, ParseValue;
    SkipTwice(t, p);
  }

  lemma MembersSkip(t: bytes, p: nat, acc: seq<Member>)
    requires p <= |t|
    ensures ParseMembers(t, SkipWs(t, p), acc) == ParseMembers(t, p, acc)
  {
    hide SkipWs, ParseString, ParseValue;
    SkipTwice(t, p);
  }

  /** White space, then something that is none. */
  lemma BlankThen(t: bytes, p: nat, a: bytes, b: bytes, c: bytes)
    requires At(t, p, a + (b + c)) && Blank(a) && b != [] && !IsWs(b[0])
    ensures var m := SkipWs(t, p); m < |t| && t[m] == b[0] && m == p + |a| && At(t, m, b) && At(t, m + |b|, c)
  {
    hide At, SkipWs, IsWs;
    AtSplit(t, p, a, b + c);
    AtSplit(t, p + |a|, b, c);
    AtIndex(t, p + |a|, b, 0);
    BlankSkips(t, p, a);
  }

  /** An array that is not empty does not look closed behind its bracket. */
  lemma SlotsStart(t: bytes, p: nat, a: seq<Slot>)
    requires a != [] && (forall i :: 0 <= i < |a| ==> ValidSlot(a[i])) && At(t, p, SlotsText(a))
    ensures var m := SkipWs(t, p); m < |t| && t[m] != RBRACKET
  {
    hide At, SkipWs, WrittenText, Valid, IsWs, SlotsText;
    assert ValidSlot(a[0]);
    var s := a[0];
    var v := WrittenText(s.val);
    var more := s.after + if |a| == 1 then [] else COMMAS + SlotsText(a[1..]);
    WrittenStarts(s.val);
    SlotsTexts(a);
    assert SlotsText(a) == s.before + (v + more);
    BlankThen(t, p, s.before, v, more);
  }

  /** A value between blanks, up to a comma or bracket. */
  lemma {:induction false} SlotReads(t: bytes, p: nat, s: Slot)
    requires ValidSlot(s) && At(t, p, SlotText(s))
    requires var q := p + |SlotText(s)|; q < |t| && t[q] as char in {',', ']', '}'}
    ensures ParseValue(t, p).Ok? && ParseValue(t, p).value == Means(s.val)
    ensures SkipWs(t, ParseValue(t, p).next) == p + |SlotText(s)|
    decreases s, 1
  {
    hide At, SkipWs, ParseValue, WrittenText, Valid;
    var v := WrittenText(s.val);
    WrittenStarts(s.val);
    AtSplit(t, p, s.before + v, s.after);
    AtSplit(t, p, s.before, v);
    AtIndex(t, p + |s.before|, v, 0);
    BlankSkips(t, p, s.before);
    SkipTwice(t, p);
    var e := p + |s.before| + |v|;
    BlankSkips(t, e, s.after);
    if s.after != [] { AtIndex(t, e, s.after, 0); }
    WrittenReads(t, p + |s.before|, s.val);
  }

  lemma {:induction false} SlotsRead(t: bytes, p: nat, acc: seq<Value>, a: seq<Slot>)
    requires a != [] && (forall i :: 0 <= i < |a| ==> ValidSlot(a[i])) && At(t, p, SlotsText(a))
    requires var q := p + |SlotsText(a)|; q < |t| && t[q] == RBRACKET
    ensures ParseElems(t, p, acc) == Ok(Array(acc + SlotsMean(a)), p + |SlotsText(a)| + 1)
    decreases a, 2
  {
    hide At, SkipWs, ParseValue, SlotText, ValidSlot, Means, SlotsText;
    SlotsTexts(a);
    SlotsMeanings(acc, a);
    var s := SlotText(a[0]);
    if |a| > 1 { ListAt(t, p, s, SlotsText(a[1..])); }
    SlotReads(t, p, a[0]);
    if |a| > 1 { SlotsRead(t, p + |s| + 1, acc + SlotsMean(a[..1]), a[1..]); }
  }

  lemma SlotsTexts(a: seq<Slot>)
    requires a != [] && forall i :: 0 <= i < |a| ==> ValidSlot(a[i])
    ensures ValidSlot(a[0])
    ensures |a| == 1 ==> SlotsText(a) == SlotText(a[0])
    ensures |a| > 1 ==> SlotsText(a) == SlotText(a[0]) + (COMMAS + SlotsText(a[1..]))
  {
    hide SlotText, ValidSlot;
    assert ValidSlot(a[0]);
  }

  lemma SlotsMeanings(acc: seq<Value>, a: seq<Slot>)
    requires a != [] && forall i :: 0 <= i < |a| ==> ValidSlot(a[i])
    ensures Valid(a[0].val) && SlotsMean(a[..1]) == [Means(a[0].val)]
    ensures acc + SlotsMean(a) == acc + SlotsMean(a[..1]) + SlotsMean(a[1..])
    ensures |a| == 1 ==> a == a[..1]
  {
    hide Means;
    assert ValidSlot(a[0]) && a[..1][1..] == [];
    Joined(acc, SlotsMean(a[..1]), SlotsMean(a[1..]));
  }

  lemma {:induction false} ObjectReads(t: bytes, p: nat, gap: bytes, pairs: seq<Pair>)
    requires Valid(WObject(gap, pairs)) && At(t, p, WrittenText(WObject(gap, pairs)))
    ensures ParseValue(t, p) == Ok(Means(WObject(gap, pairs)), p + |WrittenText(WObject(gap, pairs))|)
    decreases pairs, 5
  {
    hide At, SkipWs, ParseString, ParseNumber, ParseElems, ParseMembers, PairsText, ValidPair;
    hide SlotsMean, PairsMean, SlotsText, EmplaceAll, Ascii, NumeralText, StringText, IsDigit, ValidNumeral, ValidSlot;
    var inside := if pairs == [] then gap else PairsText(pairs);
    BracketsAt(t, p, LBRACE, inside, RBRACE);
    NoWsHere(t, p);
    if pairs == [] {
      BlankSkips(t, p + 1, gap);
      NothingMeans();
    } else {
      PairsStart(t, p + 1, pairs);
      PairsRead(t, p + 1, [], pairs);
      MembersSkip(t, p + 1, []);
    }
  }

  lemma PairsStart(t: bytes, p: nat, a: seq<Pair>)
    requires a != [] && (forall i :: 0 <= i < |a| ==> ValidPair(a[i])) && At(t, p, PairsText(a))
    ensures var m := SkipWs(t, p); m < |t| && t[m] != RBRACE
  {
    hide At, SkipWs, StringText, SlotText, ValidSpellings, IsWs, PairsText, ValidSlot;
    assert ValidPair(a[0]);
    var m := a[0];
    var k := StringText(m.key);
    var more := m.between + [':' as byte] + SlotText(m.slot) + if |a| == 1 then [] else COMMAS + PairsText(a[1..]);
    StringStarts(m.key);
    QuoteIsNoBlank();
    PairsTexts(a);
    assert PairsText(a) == m.before + (k + more);
    BlankThen(t, p, m.before, k, more);
  }

  lemma QuoteIsNoBlank()
    ensures !IsWs(QUOTE) && !IsWs(COLON)
  {
  }

  /** Where the parts of a member lie. */
  lemma PairAt(t: bytes, p: nat, m: Pair)
    requires ValidPair(m) && At(t, p, PairText(m))
    ensures var k := p + |m.before|; var c := k + |StringText(m.key)| + |m.between|;
            SkipWs(t, p) == k && At(t, k, StringText(m.key)) &&
            SkipWs(t, k + |StringText(m.key)|) == c && c < |t| && t[c] == COLON && At(t, c + 1, SlotText(m.slot)) &&
            p + |PairText(m)| == c + 1 + |SlotText(m.slot)|
  {
    hide At, SkipWs, StringText, SlotText, ValidSpellings, IsWs, ValidSlot;
    var key, s := StringText(m.key), SlotText(m.slot);
    var colon: bytes := [':' as byte];
    StringStarts(m.key);
    QuoteIsNoBlank();
    assert PairText(m) == m.before + (key + (m.between + (colon + s)));
    BlankThen(t, p, m.before, key, m.between + (colon + s));
    BlankThen(t, p + |m.before| + |key|, m.between, colon, s);
  }

  /** A key, a colon and a value, up to a comma or brace. */
  lemma {:induction false} PairReads(t: bytes, p: nat, m: Pair)
    requires ValidPair(m) && At(t, p, PairText(m))
    requires var q := p + |PairText(m)|; q < |t| && t[q] as char in {',', ']', '}'}
    ensures ParseMember(t, p).Ok? && ParseMember(t, p).value == Member(SpelledMeans(m.key), Means(m.slot.val))
    ensures SkipWs(t, ParseMember(t, p).next) == p + |PairText(m)|
    decreases m, 3
  {
    hide At, SkipWs, ParseValue, ParseString, StringText, SlotText, PairText, ValidSlot, Means, SpelledMeans;
    hide ValidSpelling;
    PairAt(t, p, m);
    var k := p + |m.before|;
    StringReads(t, k, m.key);
    SlotReads(t, k + |StringText(m.key)| + |m.between| + 1, m.slot);
  }

  lemma {:induction false} PairsRead(t: bytes, p: nat, acc: seq<Member>, a: seq<Pair>)
    requires a != [] && (forall i :: 0 <= i < |a| ==> ValidPair(a[i])) && At(t, p, PairsText(a))
    requires var q := p + |PairsText(a)|; q < |t| && t[q] == RBRACE
    ensures ParseMembers(t, p, acc) == Ok(Object(EmplaceAll(acc, PairsMean(a))), p + |PairsText(a)| + 1)
    decreases a, 4
  {
    hide At, SkipWs, ParseMember, PairText, ValidPair, Means, Emplace, PairsText, EmplaceAll;
    PairsTexts(a);
    PairMember(acc, a);
    var s := PairText(a[0]);
    if |a| > 1 { ListAt(t, p, s, PairsText(a[1..])); }
    PairReads(t, p, a[0]);
    if |a| > 1 { PairsRead(t, p + |s| + 1, EmplaceAll(acc, PairsMean(a[..1])), a[1..]); }
  }

  lemma PairsTexts(a: seq<Pair>)
    requires a != [] && forall i :: 0 <= i < |a| ==> ValidPair(a[i])
    ensures ValidPair(a[0])
    ensures |a| == 1 ==> PairsText(a) == PairText(a[0])
    ensures |a| > 1 ==> PairsText(a) == PairText(a[0]) + (COMMAS + PairsText(a[1..]))
  {
    hide PairText, ValidPair;
    assert ValidPair(a[0]);
  }

  lemma PairMember(acc: seq<Member>, a: seq<Pair>)
    requires a != [] && forall i :: 0 <= i < |a| ==> ValidPair(a[i])
    ensures ValidPair(a[0]) && Valid(a[0].slot.val) && ValidSpellings(a[0].key)
    ensures var m := Member(SpelledMeans(a[0].key), Means(a[0].slot.val));
            EmplaceAll(acc, PairsMean(a[..1])) == Emplace(acc, m.key, m.val) &&
            EmplaceAll(acc, PairsMean(a)) == EmplaceAll(Emplace(acc, m.key, m.val), PairsMean(a[1..]))
    ensures |a| == 1 ==> a == a[..1]
  {
    hide Means, SpelledMeans, Emplace, Valid, ValidSpelling;
    assert ValidPair(a[0]) && ValidSlot(a[0].slot);
    var m := Member(SpelledMeans(a[0].key), Means(a[0].slot.val));
    assert a[..1][1..] == [] && PairsMean(a[..1]) == [m] && [m][1..] == [];
    assert PairsMean(a)[1..] == PairsMean(a[1..]);
  }

  /** A whole text: one value, white space around it. */
  lemma TextReads(before: bytes, w: Written, after: bytes)
    requires Valid(w) && Blank(before) && Blank(after)
    ensures var t := before + WrittenText(w) + after; Parse(t) == Ok(Means(w), |t|)
  {
    hide SkipWs, ParseValue, WrittenText, Valid, Means;
    var v := WrittenText(w);
    var t := before + v + after;
    WrittenStarts(w);
    assert At(t, 0, before) && At(t, |before|, v) && At(t, |before| + |v|, after);
    AtIndex(t, |before|, v, 0);
    BlankSkips(t, 0, before);
    if after != [] { AtIndex(t, |before| + |v|, after, 0); }
    WrittenReads(t, |before|, w);
    BlankSkips(t, |before| + |v|, after);
  }

  // ---------- Nothing else is read ----------

  /** A value that is read was written in one of these ways. */
  lemma {:induction false} ValueIsWritten(t: bytes, p: nat) returns (w: Written)
    requires p <= |t| && ParseValue(t, p).Ok?
    ensures Valid(w) && At(t, SkipWs(t, p), WrittenText(w))
    ensures ParseValue(t, p) == Ok(Means(w), SkipWs(t, p) + |WrittenText(w)|)
    decreases |t| - p, 1
  {
    hide SkipWs, ParseString, ParseNumber, ParseElems, ParseMembers, StringText, NumeralText, SlotsText, PairsText;
    hide NumeralMeans, SpelledMeans, ValidNumeral, ValidSpellings;
    var q := SkipWs(t, p);
    LiteralTexts();
    if t[q] == QUOTE {
      var ss := StringIsSpelled(t, q);
      w := WString(ss);
    } else if t[q] == LBRACE {
      w := ObjectIsWritten(t, p);
    } else if t[q] == LBRACKET {
      w := ArrayIsWritten(t, p);
    } else if t[q] == TRUE_TEXT[0] {
      w := WBool(true);
    } else if t[q] == FALSE_TEXT[0] {
      w := WBool(false);
    } else if t[q] == NULL_TEXT[0] {
      w := WNull;
    } else {
      var n := NumeralIsSpelled(t, q);
      w := WNumber(n);
    }
  }

  lemma SkippedIsBlank(t: bytes, p: nat)
    requires p <= |t|
    ensures Blank(t[p..SkipWs(t, p)]) && At(t, p, t[p..SkipWs(t, p)])
  {
    hide SkipWs;
    var q := SkipWs(t, p);
    assert t[p..p + |t[p..q]|] == t[p..q];
  }

  /** A value with the white space in front of it and behind it. */
  lemma {:induction false} SlotIsWritten(t: bytes, p: nat) returns (s: Slot)
    requires p <= |t| && ParseValue(t, p).Ok?
    ensures ValidSlot(s) && At(t, p, SlotText(s)) && ParseValue(t, p).value == Means(s.val)
    ensures SkipWs(t, ParseValue(t, p).next) == p + |SlotText(s)|
    decreases |t| - p, 2
  {
    hide SkipWs, ParseValue, Valid, WrittenText, Means, At, Blank;
    var q := SkipWs(t, p);
    var w := ValueIsWritten(t, p);
    var n := ParseValue(t, p).next;
    SkippedIsBlank(t, p);
    SkippedIsBlank(t, n);
    s := Slot(t[p..q], w, t[n..SkipWs(t, n)]);
    AtJoin(t, p, s.before, WrittenText(w));
    AtJoin(t, p, s.before + WrittenText(w), s.after);
  }

  /** The elements from one on, up to the closing bracket. */
  lemma {:induction false} ElemsAreWritten(t: bytes, p: nat, acc: seq<Value>) returns (a: seq<Slot>)
    requires p <= |t| && ParseElems(t, p, acc).Ok?
    ensures a != [] && (forall i :: 0 <= i < |a| ==> ValidSlot(a[i])) && At(t, p, SlotsText(a))
    ensures var q := p + |SlotsText(a)|;
            q < |t| && t[q] == RBRACKET && ParseElems(t, p, acc) == Ok(Array(acc + SlotsMean(a)), q + 1)
    decreases |t| - p, 3
  {
    hide SkipWs, ParseValue, ValidSlot, SlotText, SlotsText, Means, At;
    var s := SlotIsWritten(t, p);
    var v := ParseValue(t, p);
    var e := SkipWs(t, v.next);
    var more: seq<Slot> := [];
    if t[e] == COMMA { more := ElemsAreWritten(t, e + 1, acc + [v.value]); }
    a := [s] + more;
    assert a[1..] == more && a[..1] == [s];
    SlotsTexts(a);
    SlotsMeanings(acc, a);
    NothingMeans();
    if t[e] == COMMA {
      CommaAt(t, e);
      AtJoin(t, e, COMMAS, SlotsText(more));
      AtJoin(t, p, SlotText(s), COMMAS + SlotsText(more));
    } else {
      assert a == [s] && acc + [v.value] + [] == acc + [v.value];
    }
  }

  lemma CommaAt(t: bytes, e: nat)
    requires e < |t| && t[e] == COMMA
    ensures At(t, e, COMMAS)
  {
    assert t[e..e + 1] == COMMAS;
  }

  lemma {:induction false} ArrayIsWritten(t: bytes, p: nat) returns (w: Written)
    requires p <= |t| && ParseValue(t, p).Ok? && t[SkipWs(t, p)] == LBRACKET
    ensures Valid(w) && At(t, SkipWs(t, p), WrittenText(w))
    ensures ParseValue(t, p) == Ok(Means(w), SkipWs(t, p) + |WrittenText(w)|)
    decreases |t| - p, 0
  {
    hide SkipWs, ParseElems, ParseMembers, SlotsText, SlotsMean, ValidSlot, At;
    hide PairsMean, PairsText, EmplaceAll, Ascii, NumeralText, StringText, IsDigit, ValidNumeral, ValidPair;
    var q := SkipWs(t, p);
    var m := SkipWs(t, q + 1);
    NothingMeans();
    if m < |t| && t[m] == RBRACKET {
      SkippedIsBlank(t, q + 1);
      w := WArray(t[q + 1..m], []);
      Bracketed(t, q, LBRACKET, t[q + 1..m], RBRACKET);
    } else {
      ElemsSkip(t, q + 1, []);
      var a := ElemsAreWritten(t, q + 1, []);
      w := WArray([], a);
      assert Blank([]);
      Bracketed(t, q, LBRACKET, SlotsText(a), RBRACKET);
      assert [] + SlotsMean(a) == SlotsMean(a);
    }
  }

  lemma Bracketed(t: bytes, q: nat, open: byte, inside: bytes, close: byte)
    requires q < |t| && t[q] == open && At(t, q + 1, inside)
    requires q + 1 + |inside| < |t| && t[q + 1 + |inside|] == close
    ensures At(t, q, [open] + inside + [close])
  {
    var e := q + 1 + |inside|;
    assert t[q..q + 1] == [open] && t[e..e + 1] == [close];
    AtJoin(t, q, [open], inside);
    AtJoin(t, q, [open] + inside, [close]);
  }

  lemma {:induction false} PairIsWritten(t: bytes, p: nat) returns (m: Pair)
    requires p <= |t| && ParseMember(t, p).Ok?
    ensures ValidPair(m) && Valid(m.slot.val) && At(t, p, PairText(m))
    ensures ParseMember(t, p).value == Member(SpelledMeans(m.key), Means(m.slot.val))
    ensures SkipWs(t, ParseMember(t, p).next) == p + |PairText(m)|
    decreases |t| - p, 3
  {
    hide SkipWs, ParseValue, ParseString, StringText, SlotText, Valid, ValidSpelling, SpelledMeans, Means, At, Blank;
    var q := SkipWs(t, p);
    var key := StringIsSpelled(t, q);
    var n := ParseString(t, q).next;
    var c := SkipWs(t, n);
    var s := SlotIsWritten(t, c + 1);
    SkippedIsBlank(t, p);
    SkippedIsBlank(t, n);
    m := Pair(t[p..q], key, t[n..c], s);
    var colon: bytes := [':' as byte];
    assert At(t, c, colon) by { OneAt(t, c); }
    AtJoin(t, p, m.before, StringText(key));
    AtJoin(t, p, m.before + StringText(key), m.between);
    AtJoin(t, p, m.before + StringText(key) + m.between, colon);
    AtJoin(t, p, m.before + StringText(key) + m.between + colon, SlotText(s));
  }

  lemma OneAt(t: bytes, c: nat)
    requires c < |t|
    ensures At(t, c, [t[c]])
  {
    assert t[c..c + 1] == [t[c]];
  }

  lemma {:induction false} MembersAreWritten(t: bytes, p: nat, acc: seq<Member>) returns (a: seq<Pair>)
    requires p <= |t| && ParseMembers(t, p, acc).Ok?
    ensures a != [] && (forall i :: 0 <= i < |a| ==> ValidPair(a[i])) && At(t, p, PairsText(a))
    ensures var q := p + |PairsText(a)|;
            q < |t| && t[q] == RBRACE && ParseMembers(t, p, acc) == Ok(Object(EmplaceAll(acc, PairsMean(a))), q + 1)
    decreases |t| - p, 4
  {
    hide SkipWs, ParseMember, ValidPair, PairText, PairsText, Means, SpelledMeans, At, Emplace, EmplaceAll;
    hide ValidSpelling;
    var s := PairIsWritten(t, p);
    var v := ParseMember(t, p);
    var e := SkipWs(t, v.next);
    var more: seq<Pair> := [];
    if t[e] == COMMA { more := MembersAreWritten(t, e + 1, Emplace(acc, v.value.key, v.value.val)); }
    a := [s] + more;
    assert a[1..] == more && a[..1] == [s];
    PairsTexts(a);
    PairMember(acc, a);
    if t[e] == COMMA {
      CommaAt(t, e);
      AtJoin(t, e, COMMAS, PairsText(more));
      AtJoin(t, p, PairText(s), COMMAS + PairsText(more));
    } else {
      assert a == [s];
    }
  }

  lemma {:induction false} ObjectIsWritten(t: bytes, p: nat) returns (w: Written)
    requires p <= |t| && ParseValue(t, p).Ok? && t[SkipWs(t, p)] == LBRACE
    ensures Valid(w) && At(t, SkipWs(t, p), WrittenText(w))
    ensures ParseValue(t, p) == Ok(Means(w), SkipWs(t, p) + |WrittenText(w)|)
    decreases |t| - p, 0
  {
    hide SkipWs, ParseElems, ParseMembers, PairsText, PairsMean, ValidPair, At;
    hide SlotsMean, SlotsText, EmplaceAll, Ascii, NumeralText, StringText, IsDigit, ValidNumeral, ValidSlot;
    var q := SkipWs(t, p);
    var m := SkipWs(t, q + 1);
    NothingMeans();
    if m < |t| && t[m] == RBRACE {
      SkippedIsBlank(t, q + 1);
      w := WObject(t[q + 1..m], []);
      Bracketed(t, q, LBRACE, t[q + 1..m], RBRACE);
    } else {
      MembersSkip(t, q + 1, []);
      var a := MembersAreWritten(t, q + 1, []);
      w := WObject([], a);
      assert Blank([]);
      Bracketed(t, q, LBRACE, PairsText(a), RBRACE);
    }
  }

  /** The texts of a value: any spelling of it, white space around it. */
  ghost predicate Writes(t: bytes, v: Value) {
    exists before, w, after ::
      Blank(before) && Valid(w) && Blank(after) && t == before + WrittenText(w) + after && Means(w) == v
  }

  /** `parse` reads a value from its texts and from nothing else. */
  lemma ParsesIff(t: bytes, v: Value)
    ensures Parse(t) == Ok(v, |t|) <==> Writes(t, v)
    ensures Parse(t).Ok? ==> Parse(t).next == |t|
  {
    hide SkipWs, ParseValue, Valid, WrittenText, Means, Blank;
    if Writes(t, v) {
      var before, w, after :|
        Blank(before) && Valid(w) && Blank(after) && t == before + WrittenText(w) + after && Means(w) == v;
      TextReads(before, w, after);
    }
    if Parse(t) == Ok(v, |t|) { ParsedIsWritten(t, v); }
  }

  lemma ParsedIsWritten(t: bytes, v: Value)
    requires Parse(t) == Ok(v, |t|)
    ensures Writes(t, v)
  {
    hide SkipWs, ParseValue, Valid, WrittenText, Means, Blank;
    var q := SkipWs(t, 0);
    var n := ParseValue(t, q).next;
    SkipTwice(t, 0);
    var w := ValueIsWritten(t, 0);
    SkippedIsBlank(t, 0);
    SkippedIsBlank(t, n);
    var before, after := t[0..q], t[n..SkipWs(t, n)];
    assert At(t, q, WrittenText(w)) && n == q + |WrittenText(w)|;
    assert t == before + WrittenText(w) + after;
  }

  /** The printer's text is one of them. */
  lemma TextWrites(v: Value)
    requires Printable(v)
    ensures Writes(Text(v), v)
  {
    hide Parse, Writes, Text, Printable;
    DumpParses(v);
    ParsesIff(Text(v), v);
  }

  /** Section 7: a printed text holds no control character as it is, so no line break either. */
  lemma {:induction false} TextIsStrict(v: Value)
    requires Printable(v)
    ensures NoControls(Text(v))
    decreases v, 0
  {
    hide NoControls, Escape, DecimalInt, ElemsText, MembersText;
    match v
    case Number(r) => DecimalIsStrict(r.Floor);
    case String(s) => EscapeIsStrict(s);
    case Array(a) =>
      ElemsAreStrict(a);
      NoControlsAround(LBRACKET, ElemsText(a), RBRACKET);
    case Object(m) =>
      MembersAreStrict(m);
      NoControlsAround(LBRACE, MembersText(m), RBRACE);
    case _ => LiteralsAreStrict();
  }

  ghost predicate NoControls(s: bytes) {
    forall i :: 0 <= i < |s| ==> s[i] >= 32
  }

  lemma LiteralsAreStrict()
    ensures NoControls(NULL_TEXT) && NoControls(TRUE_TEXT) && NoControls(FALSE_TEXT)
  {
  }

  lemma NoControlsAround(a: byte, s: bytes, b: byte)
    requires a >= 32 && b >= 32 && NoControls(s)
    ensures NoControls([a] + s + [b])
  {
  }

  lemma NoControlsJoin(a: bytes, b: bytes)
    requires NoControls(a) && NoControls(b)
    ensures NoControls(a + b)
  {
  }

  lemma DecimalIsStrict(i: int)
    ensures NoControls(DecimalInt(i))
  {
    DecimalIntShape(i);
  }

  lemma {:induction false} BodyIsStrict(s: bytes)
    ensures NoControls(EscapeBody(s))
    decreases |s|
  {
    if s != [] {
      ByteIsStrict(s[0]);
      BodyIsStrict(s[1..]);
      NoControlsJoin(EscapeByte(s[0]), EscapeBody(s[1..]));
    }
  }

  lemma ByteIsStrict(c: byte)
    ensures NoControls(EscapeByte(c))
  {
  }

  lemma EscapeIsStrict(s: bytes)
    ensures NoControls(Escape(s))
  {
    hide EscapeBody;
    BodyIsStrict(s);
  }

  lemma {:induction false} ElemsAreStrict(a: seq<Value>)
    requires forall i :: 0 <= i < |a| ==> Printable(a[i])
    ensures NoControls(ElemsText(a))
    decreases a, 1
  {
    hide NoControls, Text, Printable;
    if a == [] {
      NothingStrict();
    } else {
      TextIsStrict(a[0]);
      if |a| > 1 {
        ElemsAreStrict(a[1..]);
        CommaIsStrict(Text(a[0]));
        NoControlsJoin(Text(a[0]) + [COMMA], ElemsText(a[1..]));
      }
    }
  }

  lemma CommaIsStrict(s: bytes)
    requires NoControls(s)
    ensures NoControls(s + [COMMA])
  {
  }

  lemma NothingStrict()
    ensures NoControls([])
  {
  }

  lemma MemberIsStrict(m: Member)
    requires Printable(m.val) && NoControls(Text(m.val))
    ensures NoControls(MemberText(m))
  {
    hide Text, Escape;
    EscapeIsStrict(m.key);
  }

  lemma {:induction false} MembersAreStrict(m: seq<Member>)
    requires forall i :: 0 <= i < |m| ==> Printable(m[i].val)
    ensures NoControls(MembersText(m))
    decreases m, 1
  {
    hide NoControls, Text, MemberText, Printable;
    if m == [] {
      NothingStrict();
    } else {
      TextIsStrict(m[0].val);
      MemberIsStrict(m[0]);
      if |m| > 1 {
        MembersAreStrict(m[1..]);
        CommaIsStrict(MemberText(m[0]));
        NoControlsJoin(MemberText(m[0]) + [COMMA], MembersText(m[1..]));
      }
    }
  }

  /** The guard of the plain integer branch, for integers. */
  lemma IntegersPrint(i: int)
    ensures PrintsAsInteger(i as real) <==> -9223372036854774784 <= i <= 9223372036854774784
  {
  }
}
