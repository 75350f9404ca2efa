/**
 The brace scanner of src/tunnel_local.cpp against any sender: it finds the end of every JSON object,
 whatever its spelling and spacing, and the splitter takes exactly the object and the binary behind it.
 */
module Splitter {
  import opened Bytes
  import opened Digits
  import opened Json
  import opened JsonRoundTrip
  import opened JsonSpelling
  import opened Wire
  import opened WireRoundTrip

  /** The scanner comes out of the text `s` at `i` as it went in. */
  ghost predicate Same(t: bytes, i: nat, s: bytes, depth: nat, inside: bool)
    requires At(t, i, s) && depth > 0
  {
    JsonEnd(t, i, depth, inside, false) == JsonEnd(t, i + |s|, depth, inside, false)
  }

  /** It does so wherever the text stands. */
  ghost predicate Crosses(s: bytes) {
    forall t: bytes, i: nat, depth: nat :: At(t, i, s) && depth > 0 ==> Same(t, i, s, depth, false)
  }

  /** And inside a string. */
  ghost predicate CrossesInside(s: bytes) {
    forall t: bytes, i: nat, depth: nat :: At(t, i, s) && depth > 0 ==> Same(t, i, s, depth, true)
  }

  lemma SameBoth(t: bytes, i: nat, a: bytes, b: bytes, depth: nat, inside: bool)
    requires At(t, i, a + b) && depth > 0
    ensures At(t, i, a) && At(t, i + |a|, b)
    ensures Same(t, i, a, depth, inside) && Same(t, i + |a|, b, depth, inside) ==> Same(t, i, a + b, depth, inside)
  {
    hide JsonEnd, At;
    AtSplit(t, i, a, b);
  }

  lemma CrossesBoth(a: bytes, b: bytes)
    ensures Crosses(a) && Crosses(b) ==> Crosses(a + b)
    ensures CrossesInside(a) && CrossesInside(b) ==> CrossesInside(a + b)
  {
    hide Same, At;
    if Crosses(a) && Crosses(b) {
      forall t: bytes, i: nat, depth: nat | At(t, i, a + b) && depth > 0 ensures Same(t, i, a + b, depth, false) {
        SameBoth(t, i, a, b, depth, false);
      }
    }
    if CrossesInside(a) && CrossesInside(b) {
      forall t: bytes, i: nat, depth: nat | At(t, i, a + b) && depth > 0 ensures Same(t, i, a + b, depth, true) {
        SameBoth(t, i, a, b, depth, true);
      }
    }
  }

  lemma PlainCrosses(s: bytes)
    requires forall k :: 0 <= k < |s| ==> PlainByte(s[k])
    ensures Crosses(s)
  {
    hide JsonEnd, At;
    forall t: bytes, i: nat, depth: nat | At(t, i, s) && depth > 0 ensures Same(t, i, s, depth, false) {
      ScanPlain(t, i, s, depth);
    }
  }

  lemma InsideOne(c: byte)
    requires c != QUOTE && c != BACKSLASH
    ensures CrossesInside([c])
  {
    hide JsonEnd, At;
    forall t: bytes, i: nat, depth: nat | At(t, i, [c]) && depth > 0 ensures Same(t, i, [c], depth, true) {
      AtIndex(t, i, [c], 0);
      ScanStep(t, i, depth, false);
    }
  }

  /** A backslash takes the next byte along. */
  lemma InsideEscape(c: byte)
    ensures CrossesInside(['\\' as byte, c])
  {
    hide JsonEnd, At;
    var s: bytes := ['\\' as byte, c];
    forall t: bytes, i: nat, depth: nat | At(t, i, s) && depth > 0 ensures Same(t, i, s, depth, true) {
      AtIndex(t, i, s, 0);
      AtIndex(t, i, s, 1);
      ScanStep(t, i, depth, false);
      ScanStep(t, i + 1, depth, true);
    }
  }

  lemma {:induction false} InsidePlain(s: bytes)
    requires forall k :: 0 <= k < |s| ==> s[k] != QUOTE && s[k] != BACKSLASH
    ensures CrossesInside(s)
    decreases |s|
  {
    if s == [] {
      NothingInside();
    } else {
      InsideOne(s[0]);
      InsidePlain(s[1..]);
      CrossesBoth([s[0]], s[1..]);
      assert [s[0]] + s[1..] == s;
    }
  }

  lemma NothingInside()
    ensures CrossesInside([]) && Crosses([])
  {
    hide JsonEnd;
  }

  lemma HexInside(h: bytes, n: nat)
    requires IsHex4(h, n)
    ensures CrossesInside(ESCAPE_U + h)
  {
    hide CrossesInside;
    InsideEscape('u' as byte);
    HexIsPlain(h, n);
    InsidePlain(h);
    CrossesBoth(ESCAPE_U, h);
  }

  lemma HexIsPlain(h: bytes, n: nat)
    requires IsHex4(h, n)
    ensures forall k :: 0 <= k < |h| ==> h[k] != QUOTE && h[k] != BACKSLASH
  {
    LetterIsPlain(h[0], n / 4096);
    LetterIsPlain(h[1], n / 256 % 16);
    LetterIsPlain(h[2], n / 16 % 16);
    LetterIsPlain(h[3], n % 16);
  }

  lemma LetterIsPlain(h: byte, d: nat)
    requires HexLetter(h, d)
    ensures h != QUOTE && h != BACKSLASH
  {
    HexLetterIff(h, d);
  }

  lemma SpellingInside(s: Spelling)
    requires ValidSpelling(s)
    ensures CrossesInside(SpellingText(s))
  {
    hide CrossesInside, IsHex4;
    match s {
      case Raw(c) => InsideOne(c);
      case Short(letter, _) => InsideEscape(letter);
      case Lone(half, hex) => HexInside(hex, half);
      case Unicode(cp, hex) =>
        if cp < 65536 {
          LengthOfHex(hex, cp);
          HexInside(hex, cp);
        } else {
          var a, b := ESCAPE_U + hex[..4], ESCAPE_U + hex[4..];
          HexInside(hex[..4], 55296 + (cp - 65536) / 1024);
          HexInside(hex[4..], 56320 + (cp - 65536) % 1024);
          CrossesBoth(a, b);
          assert a + b == SpellingText(s);
        }
    }
  }

  lemma {:induction false} SpelledInside(ss: seq<Spelling>)
    requires forall i :: 0 <= i < |ss| ==> ValidSpelling(ss[i])
    ensures CrossesInside(SpelledText(ss))
    decreases |ss|
  {
    hide CrossesInside, ValidSpelling, SpellingText;
    if ss == [] {
      NothingInside();
    } else {
      SpellingInside(ss[0]);
      SpelledInside(ss[1..]);
      CrossesBoth(SpellingText(ss[0]), SpelledText(ss[1..]));
    }
  }

  lemma StringCrosses(ss: seq<Spelling>)
    requires ValidSpellings(ss)
    ensures Crosses(StringText(ss))
  {
    hide SpelledText, ValidSpelling, At;
    SpelledInside(ss);
    var s := SpelledText(ss);
    forall t: bytes, i: nat, depth: nat | At(t, i, StringText(ss)) && depth > 0
      ensures Same(t, i, StringText(ss), depth, false)
    {
      AtSplit(t, i, QUOTES + s, QUOTES);
      AtSplit(t, i, QUOTES, s);
      AtIndex(t, i, QUOTES, 0);
      AtIndex(t, i + 1 + |s|, QUOTES, 0);
      assert Same(t, i + 1, s, depth, true);
    }
  }

  lemma BracesCross(s: bytes)
    requires Crosses(s)
    ensures Crosses([LBRACE] + s + [RBRACE])
  {
    hide At;
    var b := [LBRACE] + s + [RBRACE];
    forall t: bytes, i: nat, depth: nat | At(t, i, b) && depth > 0 ensures Same(t, i, b, depth, false) {
      BracketsAt(t, i, LBRACE, s, RBRACE);
      assert Same(t, i + 1, s, depth + 1, false);
    }
  }

  lemma NumeralCrosses(n: Numeral)
    requires ValidNumeral(n)
    ensures Crosses(NumeralText(n))
  {
    NumeralIsPlain(n);
    PlainCrosses(NumeralText(n));
  }

  lemma NumeralIsPlain(n: Numeral)
    requires ValidNumeral(n)
    ensures forall k :: 0 <= k < |NumeralText(n)| ==> PlainByte(NumeralText(n)[k])
  {
    hide DigitsText;
    DigitsPlain(n.whole);
    DigitsPlain(FractionDigits(n));
    if n.exponent.Some? { DigitsPlain(n.exponent.value.digits); }
  }

  lemma DigitsPlain(ds: seq<nat>)
    requires AreDigits(ds)
    ensures forall k :: 0 <= k < |DigitsText(ds)| ==> PlainByte(DigitsText(ds)[k])
  {
  }

  lemma BlankCrosses(b: bytes)
    requires JsonSpelling.Blank(b)
    ensures Crosses(b)
  {
    PlainCrosses(b);
  }

  lemma {:induction false} WrittenCrosses(w: Written)
    requires Valid(w)
    ensures Crosses(WrittenText(w))
    decreases w, 0
  {
    hide Crosses, StringText, NumeralText, SlotsText, PairsText, PlainByte;
    match w
    case WNumber(n) => NumeralCrosses(n);
    case WString(ss) => StringCrosses(ss);
    case WArray(gap, slots) =>
      var inside := if slots == [] then gap else SlotsText(slots);
      if slots == [] { BlankCrosses(gap); } else { SlotsCross(slots); }
      MarksCross();
      CrossesBoth(['[' as byte], inside);
      CrossesBoth(['[' as byte] + inside, [']' as byte]);
    case WObject(gap, pairs) =>
      if pairs == [] { BlankCrosses(gap); } else { PairsCross(pairs); }
      BracesCross(if pairs == [] then gap else PairsText(pairs));
    case _ => LiteralsCross();
  }

  lemma LiteralsCross()
    ensures Crosses(Ascii("null")) && Crosses(Ascii("true")) && Crosses(Ascii("false"))
  {
    hide Crosses;
    LiteralTexts();
    PlainCrosses(NULL_TEXT);
    PlainCrosses(TRUE_TEXT);
    PlainCrosses(FALSE_TEXT);
  }

  lemma MarksCross()
    ensures Crosses(['[' as byte]) && Crosses([']' as byte]) && Crosses([':' as byte]) && Crosses(COMMAS)
  {
    hide Crosses;
    PlainCrosses(['[' as byte]);
    PlainCrosses([']' as byte]);
    PlainCrosses([':' as byte]);
    PlainCrosses(COMMAS);
  }

  lemma {:induction false} SlotCrosses(s: Slot)
    requires ValidSlot(s)
    ensures Crosses(SlotText(s))
    decreases s, 1
  {
    hide Crosses, WrittenText, Valid;
    BlankCrosses(s.before);
    WrittenCrosses(s.val);
    BlankCrosses(s.after);
    CrossesBoth(s.before, WrittenText(s.val));
    CrossesBoth(s.before + WrittenText(s.val), s.after);
  }

  lemma {:induction false} SlotsCross(a: seq<Slot>)
    requires a != [] && forall i :: 0 <= i < |a| ==> ValidSlot(a[i])
    ensures Crosses(SlotsText(a))
    decreases a, 2
  {
    hide Crosses, SlotText, ValidSlot, SlotsText;
    SlotsTexts(a);
    SlotCrosses(a[0]);
    if |a| > 1 {
      MarksCross();
      SlotsCross(a[1..]);
      CrossesBoth(COMMAS, SlotsText(a[1..]));
      CrossesBoth(SlotText(a[0]), COMMAS + SlotsText(a[1..]));
    }
  }

  lemma {:induction false} PairCrosses(m: Pair)
    requires ValidPair(m)
    ensures Crosses(PairText(m))
    decreases m, 2
  {
    hide Crosses, StringText, SlotText, ValidSpellings, ValidSlot;
    var k := StringText(m.key);
    BlankCrosses(m.before);
    StringCrosses(m.key);
    BlankCrosses(m.between);
    MarksCross();
    SlotCrosses(m.slot);
    CrossesBoth(m.before, k);
    CrossesBoth(m.before + k, m.between);
    CrossesBoth(m.before + k + m.between, [':' as byte]);
    CrossesBoth(m.before + k + m.between + [':' as byte], SlotText(m.slot));
  }

  lemma {:induction false} PairsCross(a: seq<Pair>)
    requires a != [] && forall i :: 0 <= i < |a| ==> ValidPair(a[i])
    ensures Crosses(PairsText(a))
    decreases a, 3
  {
    hide Crosses, PairText, ValidPair, PairsText;
    PairsTexts(a);
    PairCrosses(a[0]);
    if |a| > 1 {
      MarksCross();
      PairsCross(a[1..]);
      CrossesBoth(COMMAS, PairsText(a[1..]));
      CrossesBoth(PairText(a[0]), COMMAS + PairsText(a[1..]));
    }
  }

  /** The end of an object is found, whatever follows it. */
  lemma WrittenEnds(gap: bytes, pairs: seq<Pair>, tail: bytes)
    requires Valid(WObject(gap, pairs))
    ensures var o := WrittenText(WObject(gap, pairs)); var t := o + tail;
            t[0] == LBRACE && JsonEnd(t, 1, 1, false, false) == Some(|o|)
  {
    hide PairsText, ValidPair;
    var inside := if pairs == [] then gap else PairsText(pairs);
    if pairs == [] { BlankCrosses(gap); } else { PairsCross(pairs); }
    var t := WrittenText(WObject(gap, pairs)) + tail;
    assert t == [LBRACE] + inside + [RBRACE] + tail;
    assert At(t, 1, inside) by { assert t[1..1 + |inside|] == inside; }
    assert t[1 + |inside|] == RBRACE;
    assert Same(t, 1, inside, 1, false);
  }

  /** The binary behind an object: what follows a blank line, LF or CR LF, that stands directly behind it;
      all that follows when there is none. */
  ghost predicate BinaryOf(rest: bytes, bin: bytes) {
    if rest[..Smaller(2, |rest|)] == Ascii("\n\n") then bin == rest[2..]
    else if rest[..Smaller(4, |rest|)] == Ascii("\r\n\r\n") then bin == rest[4..]
    else bin == rest
  }

  function Smaller(a: nat, b: nat): (m: nat)
    ensures m <= a && m <= b
  {
    if a < b then a else b
  }

  /** The splitter against any sender: exactly the object, in the sender's spelling, and the binary. */
  lemma SplitsWritten(gap: bytes, pairs: seq<Pair>, rest: bytes, bin: bytes)
    requires Valid(WObject(gap, pairs)) && BinaryOf(rest, bin)
    ensures var o := WrittenText(WObject(gap, pairs)); Split(o + rest) == Some(Parts(o, bin))
  {
    hide WrittenText, Valid, JsonEnd;
    var o := WrittenText(WObject(gap, pairs));
    WrittenEnds(gap, pairs, rest);
    BinaryBehind(o, rest, bin);
    assert (o + rest)[..|o|] == o;
  }

  lemma BinaryBehind(o: bytes, rest: bytes, bin: bytes)
    requires BinaryOf(rest, bin)
    ensures var t := o + rest; t[BinaryStart(t, |o|)..] == bin
  {
    var t, n := o + rest, |o|;
    assert forall i :: 0 <= i < |rest| ==> t[n + i] == rest[i];
    var two, four := rest[..Smaller(2, |rest|)], rest[..Smaller(4, |rest|)];
    assert two == Ascii("\n\n") <==> |rest| >= 2 && rest[0] == 10 && rest[1] == 10;
    assert four == Ascii("\r\n\r\n") <==>
           |rest| >= 4 && rest[0] == 13 && rest[1] == 10 && rest[2] == 13 && rest[3] == 10;
    assert t[n..] == rest;
    if two == Ascii("\n\n") { assert t[n + 2..] == rest[2..]; }
    if four == Ascii("\r\n\r\n") { assert t[n + 4..] == rest[4..]; }
  }

  /** Nothing that does not start with a brace is split. */
  lemma NotSplit(t: bytes)
    ensures t == [] || t[0] as char != '{' ==> Split(t) == None
  {
  }
}
