/**
 The splitter undoes the wrapper (src/tunnel_local.cpp): the brace scanner and `Json.Text` agree on
 where strings and objects end. With framing, wrapped messages survive any cutting of the stream.
 */
module WireRoundTrip {
  import opened Bytes
  import opened Json
  import opened JsonRoundTrip
  import opened Wire

  // ---------- The scanner passes over printed values ----------

  predicate PlainByte(c: byte) {
    c != QUOTE && c != LBRACE && c != RBRACE
  }

  lemma {:induction false} ScanPlain(t: bytes, i: nat, s: bytes, depth: nat)
    requires At(t, i, s) && depth > 0 && forall k :: 0 <= k < |s| ==> PlainByte(s[k])
    ensures i + |s| <= |t| && JsonEnd(t, i, depth, false, false) == JsonEnd(t, i + |s|, depth, false, false)
    decreases |s|
  {
    if s != [] {
      AtIndex(t, i, s, 0);
      assert s == s[..1] + s[1..];
      AtSplit(t, i, s[..1], s[1..]);
      ScanPlain(t, i + 1, s[1..], depth);
    }
  }

  /** An escaped byte leaves the scanner inside the string. */
  lemma ScanEscapedByte(t: bytes, i: nat, c: byte, depth: nat)
    requires At(t, i, EscapeByte(c)) && depth > 0
    ensures i + |EscapeByte(c)| <= |t|
    ensures JsonEnd(t, i, depth, true, false) == JsonEnd(t, i + |EscapeByte(c)|, depth, true, false)
  {
    hide At, JsonEnd;
    var e := EscapeByte(c);
    AtIndex(t, i, e, 0);
    ScanStep(t, i, depth, false);
    if |e| > 1 {
      AtIndex(t, i, e, 1);
      ScanStep(t, i + 1, depth, true);
      if |e| > 2 {
        AtIndex(t, i, e, 2);
        AtIndex(t, i, e, 3);
        AtIndex(t, i, e, 4);
        AtIndex(t, i, e, 5);
        ScanStep(t, i + 2, depth, false);
        ScanStep(t, i + 3, depth, false);
        ScanStep(t, i + 4, depth, false);
        ScanStep(t, i + 5, depth, false);
      }
    }
  }

  /** One scanning step inside a string. */
  lemma ScanStep(t: bytes, i: nat, depth: nat, esc: bool)
    requires i < |t| && depth > 0
    ensures JsonEnd(t, i, depth, true, esc) ==
            JsonEnd(t, i + 1, depth, esc || t[i] != QUOTE, !esc && t[i] == BACKSLASH)
  {
  }

  lemma {:induction false} ScanEscapeBody(t: bytes, i: nat, s: bytes, depth: nat)
    requires At(t, i, EscapeBody(s)) && depth > 0
    ensures i + |EscapeBody(s)| <= |t|
    ensures JsonEnd(t, i, depth, true, false) == JsonEnd(t, i + |EscapeBody(s)|, depth, true, false)
    decreases |s|
  {
    hide At, JsonEnd, EscapeByte;
    if s == [] {
      AtBound(t, i, EscapeBody(s));
    } else {
      AtSplit(t, i, EscapeByte(s[0]), EscapeBody(s[1..]));
      ScanEscapedByte(t, i, s[0], depth);
      ScanEscapeBody(t, i + |EscapeByte(s[0])|, s[1..], depth);
    }
  }

  lemma AtBound(t: bytes, i: nat, s: bytes)
    requires At(t, i, s)
    ensures i + |s| <= |t|
  {
  }

  /** A printed string literal, whatever its bytes, is skipped as one piece. */
  lemma ScanString(t: bytes, i: nat, s: bytes, depth: nat)
    requires At(t, i, Escape(s)) && depth > 0
    ensures i + |Escape(s)| <= |t|
    ensures JsonEnd(t, i, depth, false, false) == JsonEnd(t, i + |Escape(s)|, depth, false, false)
  {
    hide At, EscapeBody;
    assert Escape(s) == [QUOTE] + (EscapeBody(s) + [QUOTE]);
    AtIndex(t, i, Escape(s), 0);
    AtSplit(t, i, [QUOTE], EscapeBody(s) + [QUOTE]);
    AtSplit(t, i + 1, EscapeBody(s), [QUOTE]);
    ScanEscapeBody(t, i + 1, s, depth);
    AtIndex(t, i + 1 + |EscapeBody(s)|, [QUOTE], 0);
  }

  /** The scanner comes out of a printed value as it went in. */
  lemma {:induction false} ScanValue(t: bytes, i: nat, v: Value, depth: nat)
    requires At(t, i, Text(v)) && depth > 0
    ensures i + |Text(v)| <= |t|
    ensures JsonEnd(t, i, depth, false, false) == JsonEnd(t, i + |Text(v)|, depth, false, false)
    decreases v, 1
  {
    hide At, JsonEnd, Escape, ElemsText, MembersText, DecimalInt;
    match v
    case Null => ScanPlain(t, i, NULL_TEXT, depth);
    case Bool(b) => ScanPlain(t, i, if b then TRUE_TEXT else FALSE_TEXT, depth);
    case Number(r) =>
      DecimalIntShape(r.Floor);
      ScanPlain(t, i, DecimalInt(r.Floor), depth);
    case String(s) => ScanString(t, i, s, depth);
    case Array(a) => ScanArray(t, i, a, depth);
    case Object(m) => ScanObject(t, i, m, depth);
  }

  lemma {:induction false} ScanArray(t: bytes, i: nat, a: seq<Value>, depth: nat)
    requires At(t, i, Text(Array(a))) && depth > 0
    ensures i + |Text(Array(a))| <= |t|
    ensures JsonEnd(t, i, depth, false, false) == JsonEnd(t, i + |Text(Array(a))|, depth, false, false)
    decreases a, 1
  {
    hide At, JsonEnd, ElemsText;
    var rest := ElemsText(a) + [RBRACKET];
    assert Text(Array(a)) == [LBRACKET] + rest;
    AtSplit(t, i, [LBRACKET], rest);
    AtSplit(t, i + 1, ElemsText(a), [RBRACKET]);
    ScanPlain(t, i, [LBRACKET], depth);
    ScanElems(t, i + 1, a, depth);
    ScanPlain(t, i + 1 + |ElemsText(a)|, [RBRACKET], depth);
  }

  lemma {:induction false} ScanElems(t: bytes, i: nat, a: seq<Value>, depth: nat)
    requires At(t, i, ElemsText(a)) && depth > 0
    ensures i + |ElemsText(a)| <= |t|
    ensures JsonEnd(t, i, depth, false, false) == JsonEnd(t, i + |ElemsText(a)|, depth, false, false)
    decreases a, 0
  {
    hide At, JsonEnd, Text;
    if |a| == 0 {
      AtBound(t, i, ElemsText(a));
    } else if |a| == 1 {
      ScanValue(t, i, a[0], depth);
    } else {
      var rest := [COMMA] + ElemsText(a[1..]);
      assert ElemsText(a) == Text(a[0]) + rest;
      AtSplit(t, i, Text(a[0]), rest);
      AtSplit(t, i + |Text(a[0])|, [COMMA], ElemsText(a[1..]));
      ScanValue(t, i, a[0], depth);
      ScanPlain(t, i + |Text(a[0])|, [COMMA], depth);
      ScanElems(t, i + |Text(a[0])| + 1, a[1..], depth);
    }
  }

  lemma {:induction false} ScanObject(t: bytes, i: nat, m: seq<Member>, depth: nat)
    requires At(t, i, Text(Object(m))) && depth > 0
    ensures i + |Text(Object(m))| <= |t|
    ensures JsonEnd(t, i, depth, false, false) == JsonEnd(t, i + |Text(Object(m))|, depth, false, false)
    decreases m, 4
  {
    hide At, MembersText;
    var rest := MembersText(m) + [RBRACE];
    assert Text(Object(m)) == [LBRACE] + rest;
    AtSplit(t, i, [LBRACE], rest);
    AtSplit(t, i + 1, MembersText(m), [RBRACE]);
    AtIndex(t, i, [LBRACE], 0);
    AtIndex(t, i + 1 + |MembersText(m)|, [RBRACE], 0);
    ScanMembers(t, i + 1, m, depth + 1);
  }

  lemma {:induction false} ScanMembers(t: bytes, i: nat, m: seq<Member>, depth: nat)
    requires At(t, i, MembersText(m)) && depth > 0
    ensures i + |MembersText(m)| <= |t|
    ensures JsonEnd(t, i, depth, false, false) == JsonEnd(t, i + |MembersText(m)|, depth, false, false)
    decreases m, 3
  {
    hide At, JsonEnd, MemberText;
    if |m| == 0 {
      AtBound(t, i, MembersText(m));
    } else if |m| == 1 {
      ScanMember(t, i, m[0], depth);
    } else {
      var h := MemberText(m[0]);
      var rest := [COMMA] + MembersText(m[1..]);
      assert MembersText(m) == h + rest;
      AtSplit(t, i, h, rest);
      AtSplit(t, i + |h|, [COMMA], MembersText(m[1..]));
      ScanMember(t, i, m[0], depth);
      ScanPlain(t, i + |h|, [COMMA], depth);
      ScanMembers(t, i + |h| + 1, m[1..], depth);
    }
  }

  lemma {:induction false} ScanMember(t: bytes, i: nat, m: Member, depth: nat)
    requires At(t, i, MemberText(m)) && depth > 0
    ensures i + |MemberText(m)| <= |t|
    ensures JsonEnd(t, i, depth, false, false) == JsonEnd(t, i + |MemberText(m)|, depth, false, false)
    decreases m, 2
  {
    hide At, JsonEnd, Escape, Text;
    var k := Escape(m.key);
    assert MemberText(m) == k + ([COLON] + Text(m.val));
    AtSplit(t, i, k, [COLON] + Text(m.val));
    AtSplit(t, i + |k|, [COLON], Text(m.val));
    ScanString(t, i, m.key, depth);
    ScanPlain(t, i + |k|, [COLON], depth);
    ScanValue(t, i + |k| + 1, m.val, depth);
  }

  /** A printed object is a JSON prefix of whatever follows it. */
  lemma ObjectEnds(m: seq<Member>, tail: bytes)
    ensures var t := Text(Object(m)) + tail;
            t[0] == LBRACE && JsonEnd(t, 1, 1, false, false) == Some(|Text(Object(m))|)
  {
    hide MembersText;
    var o := Text(Object(m));
    var t := o + tail;
    assert At(t, 1, MembersText(m)) by { assert t[1..1 + |MembersText(m)|] == MembersText(m); }
    ScanMembers(t, 1, m, 1);
    assert t[1 + |MembersText(m)|] == RBRACE;
  }

  // ---------- Wrapping ----------

  const MTYPE: Member := Member([109, 116, 121, 112, 101], Number(12289.0))

  lemma WrapOpeningIsMember()
    ensures WRAP_OPENING == [LBRACE] + MemberText(MTYPE) + [COMMA]
    ensures MTYPE_OPENING == [LBRACE] + Escape(MTYPE_KEY)
  {
    EscapeMtype();
    assert (MTYPE_CTRL_JSON as real).Floor == 12289;
    assert DecimalInt(12289) == [49, 50, 50, 56, 57] by { Decimal12289(); }
  }

  lemma EscapeMtype()
    ensures Escape(MTYPE_KEY) == [QUOTE] + MTYPE_KEY + [QUOTE]
  {
    var k := MTYPE_KEY;
    assert k[4..] == [101] && EscapeBody(k[5..]) == [];
    assert EscapeBody(k[4..]) == [101];
    assert EscapeBody(k[3..]) == [112, 101];
    assert EscapeBody(k[2..]) == [121, 112, 101];
    assert EscapeBody(k[1..]) == [116, 121, 112, 101];
  }

  lemma Decimal12289()
    ensures Decimal(12289) == [49, 50, 50, 56, 57]
  {
    assert Decimal(1) == [49];
    assert Decimal(12) == [49, 50];
    assert Decimal(122) == [49, 50, 50];
    assert Decimal(1228) == [49, 50, 50, 56];
  }

  /** The texts that the wrapping looks for and puts in front. */
  lemma OpeningsAre()
    ensures Ascii("{\"mtype\"") == MTYPE_OPENING && Ascii("{\"mtype\":12289,") == WRAP_OPENING
    ensures Ascii("mtype") == MTYPE_KEY
  {
  }

  /** White space at the end, of four kinds, is cut off and nothing more. */
  lemma {:induction false} TrimmedIs(s: bytes) returns (b: bytes)
    ensures s == Trimmed(s) + b && forall i :: 0 <= i < |b| ==> b[i] as char in {' ', '\t', '\r', '\n'}
    ensures Trimmed(s) != [] ==> Trimmed(s)[|Trimmed(s)| - 1] as char !in {' ', '\t', '\r', '\n'}
    decreases |s|
  {
    b := [];
    if s != [] && IsTrailingSpace(s[|s| - 1]) {
      var n := |s| - 1;
      var more := TrimmedIs(s[..n]);
      b := more + [s[n]];
      assert s == s[..n] + [s[n]];
    }
  }

  /** Only a text that starts with a brace is wrapped; white space behind an object is cut off when it
      is, and stays when it already leads with the type. */
  lemma WrapsAnyEnd(m: seq<Member>, b: bytes)
    requires forall i :: 0 <= i < |b| ==> b[i] as char in {' ', '\t', '\r', '\n'}
    ensures Wrap(Text(Object(m)) + b) ==
            if LeadsWithMtype(m) then Text(Object(m)) + b else Wrap(Text(Object(m)))
  {
    hide MTYPE_KEY, MembersText, WRAP_OPENING, MTYPE_OPENING, Trimmed, Text;
    var t := Text(Object(m));
    ObjectText(m);
    TrimsEnd(t, b);
    TrimsEnd(t, []);
    assert t + [] == t;
    OpeningMeansKey(m);
  }

  lemma {:induction false} TrimsEnd(t: bytes, b: bytes)
    requires t != [] && t[|t| - 1] == RBRACE
    requires forall i :: 0 <= i < |b| ==> b[i] as char in {' ', '\t', '\r', '\n'}
    ensures Trimmed(t + b) == t
    decreases |b|
  {
    if b == [] {
      assert t + b == t;
    } else {
      var n := |b| - 1;
      assert (t + b)[..|t| + n] == t + b[..n];
      TrimsEnd(t, b[..n]);
    }
  }

  lemma OthersUnwrapped(abi: bytes)
    requires abi == [] || abi[0] as char != '{'
    ensures Wrap(abi) == abi
  {
    var b := TrimmedIs(abi);
    if Trimmed(abi) != [] { assert Trimmed(abi)[0] == abi[0]; }
  }

  /** The printed object already leads with the key `mtype`. */
  predicate LeadsWithMtype(m: seq<Member>) {
    m != [] && m[0].key == MTYPE_KEY
  }

  lemma OpeningMeansKey(m: seq<Member>)
    ensures MTYPE_OPENING <= Text(Object(m)) <==> LeadsWithMtype(m)
  {
    hide MTYPE_KEY, EscapeBody;
    var t := Text(Object(m));
    WrapOpeningIsMember();
    if m != [] {
      var k := Escape(m[0].key);
      MembersOpen(m);
      var tail := MembersText(m)[|k|..] + [RBRACE];
      assert t == [LBRACE] + k + tail;
      assert At(t, 1, k);
      EscapeReadsBack(t, 1, m[0].key);
      if MTYPE_OPENING <= t {
        assert At(t, 1, Escape(MTYPE_KEY)) by { assert t[..|MTYPE_OPENING|] == MTYPE_OPENING; }
        EscapeReadsBack(t, 1, MTYPE_KEY);
      }
    } else {
      assert MembersText(m) == [];
      assert |MTYPE_OPENING| > 2;
    }
  }

  lemma MembersOpen(m: seq<Member>)
    requires m != []
    ensures Escape(m[0].key) <= MembersText(m)
  {
    hide Escape, Text;
  }

  /** The wrapped text is the print-out of a member listing headed by `mtype`. */
  lemma WrappedText(m: seq<Member>)
    ensures Wrap(Text(Object(m))) ==
            if LeadsWithMtype(m) then Text(Object(m))
            else if m == [] then WRAP_OPENING + [RBRACE]
            else Text(Object([MTYPE] + m))
  {
    hide MTYPE_KEY, MemberText, MembersText, WRAP_OPENING, MTYPE_OPENING, Trimmed, Text;
    var t := Text(Object(m));
    ObjectText(m);
    NoTrim(t);
    OpeningMeansKey(m);
    if m == [] {
      assert MembersText(m) == [] by { EmptyTexts(); }
    } else {
      HeadedText(m);
    }
  }

  lemma ObjectText(m: seq<Member>)
    ensures var t := Text(Object(m));
            t == [LBRACE] + MembersText(m) + [RBRACE] &&
            t[0] == LBRACE && t[|t| - 1] == RBRACE && t[1..] == MembersText(m) + [RBRACE]
  {
    hide MembersText;
    var t := Text(Object(m));
    assert t == [LBRACE] + (MembersText(m) + [RBRACE]);
  }

  lemma HeadedText(m: seq<Member>)
    requires m != []
    ensures Text(Object([MTYPE] + m)) == WRAP_OPENING + (MembersText(m) + [RBRACE])
  {
    hide MTYPE_KEY, MemberText, MembersText, WRAP_OPENING, MTYPE_OPENING, Text;
    ObjectText([MTYPE] + m);
    WrapOpeningIsMember();
    HeadedListing(m);
    Joined([LBRACE], MemberText(MTYPE), [COMMA], MembersText(m), [RBRACE]);
  }

  lemma Joined(a: bytes, b: bytes, c: bytes, d: bytes, e: bytes)
    ensures a + (b + c + d) + e == a + b + c + (d + e)
  {
  }

  lemma NoTrim(t: bytes)
    requires t != [] && t[|t| - 1] == RBRACE
    ensures Trimmed(t) == t
  {
  }

  lemma HeadedListing(m: seq<Member>)
    requires m != []
    ensures MembersText([MTYPE] + m) == MemberText(MTYPE) + [COMMA] + MembersText(m)
  {
    hide MemberText;
    assert ([MTYPE] + m)[1..] == m;
  }

  /** The splitter gives back exactly the wrapped JSON and the binary, whatever bytes the
      binary starts with. */
  lemma SplitUndoesWrap(m: seq<Member>, bin: bytes)
    ensures var w := Wrap(Text(Object(m)));
            Split(WrapWithBinary(Text(Object(m)), bin)) == Some(Parts(w, bin))
  {
    hide MTYPE_KEY, MembersText, WRAP_OPENING, Wrap, JsonEnd;
    var w := Wrap(Text(Object(m)));
    var tail := if bin == [] then [] else [NL, NL] + bin;
    var t := WrapWithBinary(Text(Object(m)), bin);
    assert t == w + tail;
    WrappedText(m);
    if LeadsWithMtype(m) {
      ObjectEnds(m, tail);
    } else if m == [] {
      EmptyWrapEnds(tail);
    } else {
      ObjectEnds([MTYPE] + m, tail);
    }
    assert t[..|w|] == w;
    if bin == [] {
      assert t[|w|..] == [];
    } else {
      assert t[|w|..] == tail && t[|w| + 2..] == bin;
      assert t[|w|] == tail[0] && t[|w| + 1] == tail[1];
    }
  }

  lemma EmptyWrapEnds(tail: bytes)
    ensures var t := WRAP_OPENING + [RBRACE] + tail;
            t[0] == LBRACE && JsonEnd(t, 1, 1, false, false) == Some(|WRAP_OPENING| + 1)
  {
    hide MemberText, JsonEnd;
    WrapOpeningIsMember();
    var h := MemberText(MTYPE);
    var t := WRAP_OPENING + [RBRACE] + tail;
    assert At(t, 1, h) && At(t, 1 + |h|, [COMMA]);
    ScanMember(t, 1, MTYPE, 1);
    ScanPlain(t, 1 + |h|, [COMMA], 1);
    assert t[2 + |h|] == RBRACE;
    ScanClose(t, 2 + |h|);
  }

  lemma ScanClose(t: bytes, i: nat)
    requires i < |t| && t[i] == RBRACE
    ensures JsonEnd(t, i, 1, false, false) == Some(i + 1)
  {
  }

  /** The object a wrapped message parses to: `mtype` answers 12289 unless the object led with
      a key of that name, every other key answers as before. */
  ghost predicate IsWrapped(r: Value, m: seq<Member>) {
    r.Object? && Sorted(r.members) &&
    forall q :: Lookup(r.members, q) ==
                if q == MTYPE_KEY && !LeadsWithMtype(m) then Some(MTYPE.val) else Lookup(m, q)
  }

  lemma WrappedParses(m: seq<Member>)
    requires Printable(Object(m)) && m != []
    ensures var r := Parse(Wrap(Text(Object(m))));
            r.Ok? && IsWrapped(r.value, m) && (LeadsWithMtype(m) ==> r.value == Object(m))
  {
    hide MembersText, MTYPE_KEY, Wrap, Less, Lookup, EmplaceAll;
    WrappedText(m);
    if LeadsWithMtype(m) {
      DumpParses(Object(m));
    } else {
      var all := [MTYPE] + m;
      var t := Text(Object(all));
      assert all[0] == MTYPE && forall i :: 0 < i < |all| ==> all[i] == m[i - 1];
      ListingParses(all);
      EmplaceAllLookup([], all, []);
      forall q ensures Lookup(EmplaceAll([], all), q) == if q == MTYPE_KEY then Some(MTYPE.val) else Lookup(m, q) {
        EmplaceAllLookup([], all, q);
        LookupHead(m, q);
      }
    }
  }

  lemma LookupHead(m: seq<Member>, q: bytes)
    ensures Lookup([], q) == None
    ensures Lookup([MTYPE] + m, q) == if q == MTYPE_KEY then Some(MTYPE.val) else Lookup(m, q)
  {
    assert ([MTYPE] + m)[1..] == m;
  }

  /** A printed member listing, sorted or not, parses to the map it leaves behind. */
  lemma ListingParses(m: seq<Member>)
    requires m != [] && forall i :: 0 <= i < |m| ==> Printable(m[i].val)
    ensures Parse(Text(Object(m))) == Ok(Object(EmplaceAll([], m)), |Text(Object(m))|)
  {
    hide MembersText, ParseMembers, SkipWs, EmplaceAll;
    var t := Text(Object(m));
    assert At(t, 1, MembersText(m) + [RBRACE]) by { assert t[1..] == MembersText(m) + [RBRACE]; }
    MembersStart(m);
    NoWsHere(t, 0);
    NoWsHere(t, 1);
    MembersReadBack(t, 1, [], m);
    EndOfText(t);
  }

  lemma EndOfText(t: bytes)
    ensures SkipWs(t, |t|) == |t|
  {
  }

  /** Wrapping keeps every object readable except the empty one, whose wrapped form ends in a
      comma. */
  lemma WrapReadableIff(m: seq<Member>)
    requires Printable(Object(m))
    ensures Parse(Wrap(Text(Object(m)))).Ok? <==> m != []
  {
    if m != [] {
      WrappedParses(m);
    } else {
      EmptyWrapRejected();
    }
  }

  lemma EmptyWrapRejected()
    ensures Parse(Wrap(Text(Object([])))) == Err(ExpectedString)
  {
    hide MemberText, ParseMember, SkipWs, MTYPE_KEY, WRAP_OPENING, Wrap;
    WrappedText([]);
    WrapOpeningIsMember();
    var h := MemberText(MTYPE);
    var t := WRAP_OPENING + [RBRACE];
    assert t == [LBRACE] + h + [COMMA] + [RBRACE];
    assert At(t, 1, h);
    assert Printable(MTYPE.val);
    assert t[1 + |h|] == COMMA && t[2 + |h|] == RBRACE;
    MemberReadsBack(t, 1, MTYPE);
    MemberOpens(MTYPE);
    NoWsHere(t, 0);
    NoWsHere(t, 1);
    NoWsHere(t, 1 + |h|);
    NoWsHere(t, 2 + |h|);
    NoMemberAtBrace(t, 2 + |h|);
  }

  lemma MemberOpens(m: Member)
    ensures |MemberText(m)| > 0 && MemberText(m)[0] == QUOTE
  {
  }

  lemma NoMemberAtBrace(t: bytes, p: nat)
    requires p < |t| && t[p] == RBRACE && SkipWs(t, p) == p
    ensures ParseMember(t, p) == Err(ExpectedString)
  {
  }

  // ---------- End to end ----------

  /** One message a session sends: an object and the binary that goes with it. */
  datatype Message = Message(members: seq<Member>, bin: bytes, seqNo: nat)

  function FrameOf(m: Message): Frame {
    Frame(MAGIC_CTRL_CLIENT, m.seqNo, WrapWithBinary(Text(Object(m.members)), m.bin))
  }

  function FramesOf(ms: seq<Message>): seq<Frame> {
    if ms == [] then [] else [FrameOf(ms[0])] + FramesOf(ms[1..])
  }

  function WrappedOf(ms: seq<Message>): seq<bytes> {
    if ms == [] then [] else [Wrap(Text(Object(ms[0].members)))] + WrappedOf(ms[1..])
  }

  lemma {:induction false} MessagesReadBack(ms: seq<Message>)
    ensures Messages(BodiesOf(FramesOf(ms))) == WrappedOf(ms)
  {
    hide Wrap, Split, Text;
    if ms != [] {
      var m := ms[0];
      SplitUndoesWrap(m.members, m.bin);
      assert WrapWithBinary(Text(Object(m.members)), m.bin) != [] by { SplitNothing(); }
      MessagesReadBack(ms[1..]);
      var b := BodiesOf(FramesOf(ms));
      assert b[0] == FrameOf(m).body && b[1..] == BodiesOf(FramesOf(ms[1..]));
    }
  }

  lemma SplitNothing()
    ensures Split([]) == None
  {
  }

  /** Messages framed one after the other, read in chunks of any size and drained at any
      moments: once drained after the last byte, exactly their JSON texts have been handed
      out, in order, and nothing is left over. */
  lemma MessagesSurviveCutting(ms: seq<Message>, ops: seq<BufferOp>)
    requires AllSendable(FramesOf(ms)) && Arrived(ops) == Stream(FramesOf(ms))
    ensures var r := RunBuffer(Buffered([], [], false), ops + [Cut]);
            Messages(r.taken) == WrappedOf(ms) && r.buf == [] && !r.derailed
  {
    hide Bodies, Rest, Tame, Messages, FramesOf, Stream, RunBuffer, Arrived;
    var start := Buffered([], [], false);
    RunAppend(start, ops, [Cut]);
    assert [] + Arrived(ops) == Arrived(ops);
    ChunkIndependent(start, ops);
    RunCut(RunBuffer(start, ops));
    StreamReadsBack(FramesOf(ms));
    MessagesReadBack(ms);
    var all := Stream(FramesOf(ms));
    assert start.taken + Bodies(all) == Bodies(all);
  }

  lemma RunCut(s: Buffered)
    ensures RunBuffer(s, [Cut]) == CutOf(s)
  {
    hide Bodies, Rest, Tame;
    assert [Cut][1..] == [];
  }

  lemma {:induction false} RunAppend(s: Buffered, a: seq<BufferOp>, b: seq<BufferOp>)
    ensures RunBuffer(s, a + b) == RunBuffer(RunBuffer(s, a), b)
    decreases |a|
  {
    hide Bodies, Rest, Tame;
    if a == [] {
      assert a + b == b;
    } else {
      assert (a + b)[1..] == a[1..] + b;
      match a[0] {
        case Arrive(c) => RunAppend(s.(buf := s.buf + c), a[1..], b);
        case Cut => RunAppend(CutOf(s), a[1..], b);
      }
    }
  }
}
