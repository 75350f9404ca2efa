/**
 The interleaved RTSP connection (stubs/rtsp_client.cpp, RFC 2326 section 10.12): `$` frames
 and responses on one stream, read by three callers that each take what they need.
 */
module Demux {
  import opened Bytes
  import opened Digits
  import opened HeaderLine
  import H = H264

  const CR: byte := 13
  const LF: byte := 10
  const DOLLAR: byte := 36
  const LETTER_R: byte := 82
  const RTSP_1: bytes := [82, 84, 83, 80, 47, 49, 46] // RTSP/1.
  const MAX_LINE := 8192
  const MAX_BODY := 65536

  // ---------- Reading from the stream ----------

  datatype Line = Line(text: bytes, rest: bytes) | LineCut(text: bytes, rest: bytes) | LineEnd

  /** Bytes up to CR LF behind those already in `line`: LineEnd at the end of the stream,
      LineCut when the line grows to its limit first. */
  function ReadLine(line: bytes, input: bytes): (r: Line)
    ensures r.Line? ==> |r.rest| < |input|
    ensures r.LineCut? ==> |r.rest| <= |input|
    decreases |input|
  {
    if |line| >= MAX_LINE then LineCut(line, input)
    else if input == [] then LineEnd
    else if line != [] && line[|line| - 1] == CR && input[0] == LF
    then Line(line[..|line| - 1], input[1..])
    else ReadLine(line + [input[0]], input[1..])
  }

  datatype Headers = Headers(length: int, rest: bytes) | HeadersFail(code: int)

  /** Header lines up to the empty one; the last Content-Length counts. */
  function ReadHeaders(input: bytes, length: int): (r: Headers)
    ensures r.Headers? ==> |r.rest| < |input|
    ensures r.HeadersFail? ==> r.code != 0
    decreases |input|
  {
    match ReadLine([], input)
    case LineEnd => HeadersFail(1)
    case LineCut(_, _) => HeadersFail(-1)
    case Line(text, rest) =>
      if text == [] then Headers(length, rest) else ReadHeaders(rest, NextLength(length, text))
  }

  datatype Tail = Tail(body: bytes, rest: bytes) | TailFail(code: int)

  /** Headers and body. A negative length turns into a huge unsigned one, over the cap. */
  function ReadTail(input: bytes): (r: Tail)
    ensures r.Tail? ==> |r.rest| < |input|
    ensures r.TailFail? ==> r.code != 0
  {
    match ReadHeaders(input, 0)
    case HeadersFail(code) => TailFail(code)
    case Headers(length, rest) =>
      if length < 0 || length > MAX_BODY then TailFail(-1)
      else if length > |rest| then TailFail(1)
      else Tail(rest[..length], rest[length..])
  }

  datatype Reply = Reply(status: int, body: bytes, rest: bytes) | ReplyFail(code: int)

  /** `read_response` with its first byte already taken. */
  function ReadResponse(first: byte, input: bytes): (r: Reply)
    ensures r.Reply? ==> |r.rest| < |input|
    ensures r.ReplyFail? ==> r.code != 0
  {
    match ReadLine([first], input)
    case LineEnd => ReplyFail(1)
    case l =>
      if |l.text| < 12 || l.text[..7] != RTSP_1 then ReplyFail(-1)
      else match Find(l.text, SPACE, 9)
        case None => ReplyFail(-1)
        case Some(sp) =>
          match ReadTail(l.rest)
          case TailFail(code) => ReplyFail(code)
          case Tail(body, rest) => Reply(Atoi(l.text[9..sp]), body, rest)
  }

  /** Draining a stray response in `pull_one_message`: same bytes, nothing kept. */
  function DrainResponse(input: bytes): (r: Tail)
    ensures r.Tail? ==> |r.rest| < |input|
    ensures r.TailFail? ==> r.code != 0
  {
    match ReadLine([], input)
    case LineEnd => TailFail(1)
    case LineCut(_, _) => TailFail(-1)
    case Line(_, rest) => ReadTail(rest)
  }

  datatype Frame = Frame(channel: byte, payload: bytes, rest: bytes) | FrameEnd

  /** Channel, 16-bit length and payload behind a `$`. */
  function ReadFrame(input: bytes): (r: Frame)
    ensures r.Frame? ==> |r.rest| < |input|
  {
    if |input| < 3 then FrameEnd
    else
      var n := H.U16(input, 1);
      if |input| < 3 + n then FrameEnd else Frame(input[0], input[3..3 + n], input[3 + n..])
  }

  // ---------- The three callers ----------

  /** The rest of the stream, the decoder, and the NAL units handed out so far. */
  datatype State = State(input: bytes, dep: H.Depack, out: seq<H.Nalu>)

  datatype Outcome = Outcome(s: State, code: int)

  function OnFrame(dep: H.Depack, pt: nat, channel: byte, payload: bytes): H.Depack {
    if channel == 0 then H.Decode(dep, pt, payload) else dep
  }

  /** `pull_one_message` */
  function Pull(s: State, pt: nat): (r: Outcome)
    ensures r.code == 0 ==> |r.s.input| < |s.input|
  {
    if s.input == [] then Outcome(s, 1)
    else if s.input[0] == DOLLAR then
      match ReadFrame(s.input[1..])
      case FrameEnd => Outcome(s.(input := []), 1)
      case Frame(ch, payload, rest) =>
        if payload == [] then Outcome(s.(input := rest), -1)
        else Outcome(s.(input := rest, dep := OnFrame(s.dep, pt, ch, payload)), 0)
    else if s.input[0] == LETTER_R then
      match DrainResponse(s.input[1..])
      case TailFail(code) => Outcome(s.(input := []), code)
      case Tail(_, rest) => Outcome(s.(input := rest), 0)
    else Outcome(s.(input := s.input[1..]), -1)
  }

  /** `await_response`: frames are decoded on the way to the next response. */
  function Await(s: State, pt: nat): (r: Outcome)
    decreases |s.input|
  {
    if s.input == [] then Outcome(s, 1)
    else if s.input[0] == DOLLAR then
      match ReadFrame(s.input[1..])
      case FrameEnd => Outcome(s.(input := []), 1)
      case Frame(ch, payload, rest) =>
        Await(s.(input := rest, dep := OnFrame(s.dep, pt, ch, payload)), pt)
    else
      match ReadResponse(s.input[0], s.input[1..])
      case ReplyFail(code) => Outcome(s.(input := []), code)
      case Reply(_, _, rest) => Outcome(s.(input := rest), 0)
  }

  /** `read_nalu`: pull until the queue has a unit, hand it out. */
  function ReadNalu(s: State, pt: nat): (r: Outcome)
    decreases |s.input|
  {
    if s.dep.queue != [] then
      Outcome(s.(dep := s.dep.(queue := s.dep.queue[1..]), out := s.out + [s.dep.queue[0]]), 0)
    else
      var r := Pull(s, pt);
      if r.code != 0 then r else ReadNalu(r.s, pt)
  }

  // ---------- A well-formed stream ----------

  datatype Item =
    | Media(channel: byte, payload: bytes)
    | Response(first: bytes, headers: seq<bytes>, body: bytes)

  predicate OneLine(s: bytes) {
    |s| < 8191 && forall i :: 0 <= i < |s| - 1 ==> !(s[i] as char == '\r' && s[i + 1] as char == '\n')
  }

  /** The length that stands behind a header line, in the sender's terms. */
  ghost function AfterLine(length: int, line: bytes): int {
    if n :| LengthLine(line, n) then n else length
  }

  /** The length the header lines announce: that of the last one that announces any. */
  ghost function Announced(length: int, headers: seq<bytes>): int
    decreases |headers|
  {
    if headers == [] then length else Announced(AfterLine(length, headers[0]), headers[1..])
  }

  lemma AfterLineIs(length: int, line: bytes)
    ensures NextLength(length, line) == AfterLine(length, line)
  {
    hide NextLength, LengthLine;
    if n :| LengthLine(line, n) {
      NextLengthIff(length, line, AfterLine(length, line));
    } else {
      NextLengthIff(length, line, 0);
    }
  }

  ghost predicate ValidItem(it: Item) {
    match it
    case Media(_, payload) => 0 < |payload| < 65536
    case Response(first, headers, body) =>
      (OneLine(first) && |first| >= 12 && first[..7] == Ascii("RTSP/1.") &&
       (exists sp :: 9 <= sp < |first| && first[sp] as char == ' ') &&
       (forall i :: 0 <= i < |headers| ==> OneLine(headers[i]) && headers[i] != []) &&
       Announced(0, headers) == |body| <= 65536)
  }

  ghost predicate AllItems(items: seq<Item>) {
    forall i :: 0 <= i < |items| ==> ValidItem(items[i])
  }

  const CRLF: bytes := ['\r' as byte, '\n' as byte]

  function HeaderBytes(headers: seq<bytes>): bytes {
    if headers == [] then CRLF else headers[0] + CRLF + HeaderBytes(headers[1..])
  }

  function ItemBytes(it: Item): (s: bytes)
    requires ValidItem(it)
  {
    match it
    case Media(ch, payload) => ['$' as byte, ch, |payload| / 256, |payload| % 256] + payload
    case Response(first, headers, body) => first + CRLF + HeaderBytes(headers) + body
  }

  function StreamOf(items: seq<Item>): bytes
    requires AllItems(items)
  {
    if items == [] then [] else ItemBytes(items[0]) + StreamOf(items[1..])
  }

  function OnItem(dep: H.Depack, pt: nat, it: Item): H.Depack {
    match it
    case Media(ch, payload) => OnFrame(dep, pt, ch, payload)
    case Response(_, _, _) => dep
  }

  /** The RTP packets among the items: payloads of channel 0. */
  function RtpPackets(items: seq<Item>): seq<bytes> {
    if items == [] then []
    else (if items[0].Media? && items[0].channel == 0 then [items[0].payload] else []) + RtpPackets(items[1..])
  }

  // ---------- Reading items back ----------

  /** A line is read up to its CR LF, whatever of it was already taken. */
  lemma {:induction false} LineReadsBack(line: bytes, k: nat, rest: bytes)
    requires OneLine(line) && k <= |line|
    ensures ReadLine(line[..k], line[k..] + CRLF + rest) == Line(line, rest)
    decreases |line| - k
  {
    var input := line[k..] + CRLF + rest;
    if k < |line| {
      assert input[0] == line[k] && input[1..] == line[k + 1..] + CRLF + rest;
      assert line[..k] + [line[k]] == line[..k + 1];
      LineReadsBack(line, k + 1, rest);
      if k > 0 { assert !(line[k - 1] == CR && line[k] == LF); }
    } else {
      assert line[..k] == line;
      LineTerminates(line, rest);
    }
  }

  lemma LineTerminates(line: bytes, rest: bytes)
    requires |line| < 8191
    ensures ReadLine(line, line[|line|..] + CRLF + rest) == Line(line, rest)
  {
    var input := line[|line|..] + CRLF + rest;
    assert input == CRLF + rest;
    assert input[1..] == [LF] + rest;
    assert (line + [CR])[..|line|] == line && input[1..][1..] == rest;
    assert ReadLine(line + [CR], [LF] + rest) == Line(line, rest);
  }

  ghost predicate BreakAt(s: bytes, k: nat) {
    k + 1 < |s| && s[k] as char == '\r' && s[k + 1] as char == '\n'
  }

  ghost predicate NoBreakIn(s: bytes, n: int) {
    forall k :: 0 <= k < n ==> !BreakAt(s, k)
  }

  /** What the line reader makes of any stream: the text in front of the first line break if that comes
      within 8192 bytes, else a cut after 8192 bytes, else the end. */
  lemma {:induction false} LineIs(line: bytes, input: bytes)
    requires |line| <= 8192 && NoBreakIn(line, |line| - 1)
    ensures var s := line + input;
            (forall k: nat :: k < 8191 && BreakAt(s, k) && NoBreakIn(s, k) ==>
               ReadLine(line, input) == Line(s[..k], s[k + 2..])) &&
            (NoBreakIn(s, 8191) ==>
               ReadLine(line, input) == if |s| >= 8192 then LineCut(s[..8192], s[8192..]) else LineEnd)
    decreases |input|
  {
    hide BreakAt;
    var s := line + input;
    if |line| >= 8192 || input == [] {
      NoBreak(line, input);
      if |line| >= 8192 { assert s[..8192] == line && s[8192..] == input; }
    } else {
      var c := input[0];
      assert line + [c] + input[1..] == s;
      if line != [] && line[|line| - 1] == CR && c == LF {
        BreakHere(line, input);
      } else {
        StillNone(line, c);
        LineIs(line + [c], input[1..]);
      }
    }
  }

  /** The break that the reader stops at is the first one. */
  lemma BreakHere(line: bytes, input: bytes)
    requires NoBreakIn(line, |line| - 1) && line != [] && |line| < 8192 && input != []
    requires line[|line| - 1] == CR && input[0] == LF
    ensures var s, n := line + input, |line| - 1;
            !NoBreakIn(s, 8191) && (forall k: nat :: BreakAt(s, k) && NoBreakIn(s, k) ==> k == n) &&
            s[..n] == line[..n] && s[n + 2..] == input[1..]
  {
    var s, n := line + input, |line| - 1;
    assert BreakAt(s, n);
    forall k | 0 <= k < n ensures !BreakAt(s, k) { assert !BreakAt(line, k); }
  }

  lemma StillNone(line: bytes, c: byte)
    requires NoBreakIn(line, |line| - 1) && !(line != [] && line[|line| - 1] == CR && c == LF)
    ensures NoBreakIn(line + [c], |line|)
  {
    forall k | 0 <= k < |line| ensures !BreakAt(line + [c], k) {
      if k < |line| - 1 { assert !BreakAt(line, k); }
    }
  }

  lemma NoBreak(line: bytes, input: bytes)
    requires NoBreakIn(line, |line| - 1) && (|line| >= 8192 || input == [])
    ensures NoBreakIn(line + input, 8191)
  {
    forall k | 0 <= k < 8191 ensures !BreakAt(line + input, k) {
      if k < |line| - 1 { assert !BreakAt(line, k); }
    }
  }

  lemma WholeLine(line: bytes, rest: bytes)
    requires OneLine(line)
    ensures ReadLine([], line + CRLF + rest) == Line(line, rest)
  {
    hide ReadLine;
    LineReadsBack(line, 0, rest);
    assert line[..0] == [] && line[0..] == line;
  }

  lemma {:induction false} HeadersReadBack(headers: seq<bytes>, length: int, rest: bytes)
    requires forall i :: 0 <= i < |headers| ==> OneLine(headers[i]) && headers[i] != []
    ensures ReadHeaders(HeaderBytes(headers) + rest, length) == Headers(Announced(length, headers), rest)
    decreases |headers|
  {
    hide ReadLine, OneLine, NextLength, AfterLine;
    if headers == [] {
      assert HeaderBytes(headers) + rest == [] + CRLF + rest;
      SuffixIsLine([]);
      WholeLine([], rest);
    } else {
      var more := HeaderBytes(headers[1..]) + rest;
      assert HeaderBytes(headers) + rest == headers[0] + CRLF + more;
      WholeLine(headers[0], more);
      AfterLineIs(length, headers[0]);
      HeadersReadBack(headers[1..], AfterLine(length, headers[0]), rest);
    }
  }

  lemma TailReadsBack(headers: seq<bytes>, body: bytes, rest: bytes)
    requires forall i :: 0 <= i < |headers| ==> OneLine(headers[i]) && headers[i] != []
    requires Announced(0, headers) == |body| <= 65536
    ensures ReadTail(HeaderBytes(headers) + body + rest) == Tail(body, rest)
  {
    hide ReadHeaders, Announced, OneLine, HeaderBytes;
    var h, more := HeaderBytes(headers), body + rest;
    assert h + body + rest == h + more;
    HeadersReadBack(headers, 0, more);
    CutBody(body, rest);
  }

  lemma CutBody(body: bytes, rest: bytes)
    ensures var more := body + rest;
            |more| == |body| + |rest| && more[..|body|] == body && more[|body|..] == rest
  {
  }

  /** The status line's code: what stands between the first blank behind the protocol and the next. */
  ghost predicate StatusOf(first: bytes, status: int) {
    exists sp ::
      9 <= sp < |first| && first[sp] as char == ' ' && (forall k :: 9 <= k < sp ==> first[k] as char != ' ') &&
      NumberOf(first[9..sp], status)
  }

  /** Both readers of a response take exactly its bytes, and the one that looks at the status line reads
      the code in it. */
  lemma ResponseReadsBack(it: Item, rest: bytes)
    requires it.Response? && ValidItem(it)
    ensures var t := ItemBytes(it) + rest;
            t != [] && t[0] == LETTER_R &&
            DrainResponse(t[1..]) == Tail(it.body, rest) &&
            ReadResponse(t[0], t[1..]).Reply? && ReadResponse(t[0], t[1..]).body == it.body &&
            ReadResponse(t[0], t[1..]).rest == rest && StatusOf(it.first, ReadResponse(t[0], t[1..]).status)
  {
    hide ReadLine, ReadTail, HeaderBytes, Announced, Atoi, NumberOf;
    var f := it.first;
    var more := HeaderBytes(it.headers) + it.body + rest;
    var t := ItemBytes(it) + rest;
    assert t == f + CRLF + more;
    assert t[0] == f[0] == f[..7][0] == LETTER_R;
    assert t[1..] == f[1..] + CRLF + more;
    TailReadsBack(it.headers, it.body, rest);
    LineReadsBack(f, 1, more);
    assert f[..1] == [f[0]];
    SuffixIsLine(f);
    WholeLine(f[1..], more);
    ProtocolIs();
    StatusReads(f);
  }

  lemma ProtocolIs()
    ensures Ascii("RTSP/1.") == RTSP_1
  {
  }

  lemma StatusReads(first: bytes)
    requires |first| >= 9 && exists sp :: 9 <= sp < |first| && first[sp] as char == ' '
    ensures Find(first, SPACE, 9).Some? && StatusOf(first, Atoi(first[9..Find(first, SPACE, 9).value]))
  {
    hide Atoi, NumberOf;
    FindFirst(first, SPACE, 9);
    var sp := Find(first, SPACE, 9).value;
    AtoiIff(first[9..sp], Atoi(first[9..sp]));
  }

  /** An ordinary status line: the code is the number its digits spell. */
  lemma StatusIs(first: bytes, minor: byte, ds: seq<nat>, reason: bytes, status: int)
    requires AreDigits(ds) && ds != []
    requires first == Ascii("RTSP/1.") + [minor, ' ' as byte] + DigitsText(ds) + Ascii(" ") + reason
    ensures StatusOf(first, status) ==> status == Positional(ds)
  {
    var e := 9 + |ds|;
    assert first[9..e] == DigitsText(ds);
    assert first[e] as char == ' ' && forall k :: 9 <= k < e ==> first[k] == DigitsText(ds)[k - 9];
    assert NumberParts(DigitsText(ds), [], [], ds, []);
    AtoiReads(DigitsText(ds), [], [], ds, []);
    if StatusOf(first, status) {
      var sp :|
        9 <= sp < |first| && first[sp] as char == ' ' && (forall k :: 9 <= k < sp ==> first[k] as char != ' ') &&
        NumberOf(first[9..sp], status);
      assert sp == e;
      AtoiIff(first[9..sp], status);
    }
  }

  lemma SuffixIsLine(s: bytes)
    ensures OneLine([])
    ensures OneLine(s) && s != [] ==> OneLine(s[1..])
  {
  }

  lemma FrameReadsBack(it: Item, rest: bytes)
    requires it.Media? && ValidItem(it)
    ensures var t := ItemBytes(it) + rest;
            t != [] && t[0] == DOLLAR && ReadFrame(t[1..]) == Frame(it.channel, it.payload, rest)
  {
    var t := ItemBytes(it) + rest;
    var u, n := t[1..], |it.payload|;
    assert u == [it.channel, n / 256, n % 256] + it.payload + rest;
    assert H.U16(u, 1) == n;
    assert u[3..3 + |it.payload|] == it.payload && u[3 + |it.payload|..] == rest;
  }

  // ---------- What is refused ----------

  /** A response is refused when its announced body is too long, and when the stream ends in it. */
  lemma TailFails(headers: seq<bytes>, rest: bytes)
    requires forall i :: 0 <= i < |headers| ==> OneLine(headers[i]) && headers[i] != []
    ensures var n, r := Announced(0, headers), ReadTail(HeaderBytes(headers) + rest);
            (n < 0 || n > 65536 ==> r == TailFail(-1)) &&
            (|rest| < n <= 65536 ==> r == TailFail(1)) &&
            (0 <= n <= |rest| && n <= 65536 ==> r == Tail(rest[..n], rest[n..]))
  {
    hide ReadHeaders, Announced, OneLine, HeaderBytes;
    HeadersReadBack(headers, 0, rest);
  }

  /** A line that is no status line is refused, whatever follows it. */
  lemma StatusFails(first: bytes, rest: bytes)
    requires OneLine(first) && first != []
    requires |first| < 12 || first[..7] != Ascii("RTSP/1.") ||
             forall sp :: 9 <= sp < |first| ==> first[sp] as char != ' '
    ensures ReadResponse(first[0], first[1..] + CRLF + rest) == ReplyFail(-1)
  {
    hide ReadLine, ReadTail;
    ProtocolIs();
    assert first[..1] == [first[0]];
    LineReadsBack(first, 1, rest);
  }

  /** Without a line break the end of the stream is reported, and a refusal after 8192 bytes. */
  lemma LineFails(input: bytes, length: int)
    requires NoBreakIn(input, 8191)
    ensures var code := if |input| >= 8192 then -1 else 1;
            ReadHeaders(input, length) == HeadersFail(code) && DrainResponse(input) == TailFail(code)
    ensures |input| < 8192 && input != [] ==> ReadResponse(input[0], input[1..]) == ReplyFail(1)
  {
    hide ReadLine, ReadTail, BreakAt;
    assert [] + input == input;
    LineIs([], input);
    if input != [] {
      assert [input[0]] + input[1..] == input;
      LineIs([input[0]], input[1..]);
    }
  }

  /** Waiting for a response ends well with the next one. */
  lemma AwaitEnds(s: State, pt: nat, it: Item, rest: bytes)
    requires it.Response? && ValidItem(it) && s.input == ItemBytes(it) + rest
    ensures Await(s, pt) == Outcome(s.(input := rest), 0)
  {
    hide ItemBytes, ReadResponse, ValidItem, DrainResponse;
    ResponseReadsBack(it, rest);
  }

  /** A frame that the stream does not hold whole is none; an empty one and an unknown first byte are
      refused, and the end of the stream is reported as such. */
  lemma PullFails(s: State, pt: nat)
    ensures s.input == [] ==> Pull(s, pt) == Outcome(s, 1) && Await(s, pt) == Outcome(s, 1)
    ensures s.input != [] && s.input[0] as char != '$' && s.input[0] as char != 'R' ==> Pull(s, pt).code == -1
    ensures |s.input| >= 4 && s.input[0] as char == '$' && s.input[2] == s.input[3] == 0 ==> Pull(s, pt).code == -1
    ensures s.input != [] && s.input[0] as char == '$' &&
            (|s.input| < 4 || |s.input| < 4 + 256 * (s.input[2] as int) + s.input[3] as int) ==>
              Pull(s, pt) == Outcome(s.(input := []), 1) && Await(s, pt) == Outcome(s.(input := []), 1)
    ensures s.dep.queue == [] && Pull(s, pt).code != 0 ==> ReadNalu(s, pt) == Pull(s, pt)
    ensures s.dep.queue != [] ==> ReadNalu(s, pt).code == 0
  {
    hide H.Decode;
    if |s.input| >= 4 { assert s.input[1..][1] == s.input[2] && s.input[1..][2] == s.input[3]; }
  }

  // ---------- Decoding only appends to the queue ----------

  lemma DecodeAppends(dep: H.Depack, pt: nat, rtp: bytes)
    ensures var d := H.Decode(dep.(queue := []), pt, rtp);
            H.Decode(dep, pt, rtp) == d.(queue := dep.queue + d.queue)
  {
    hide H.ParseRtp, H.StapUnits;
  }

  lemma {:induction false} DecodeAllAppends(dep: H.Depack, pt: nat, packets: seq<bytes>)
    ensures var d := H.DecodeAll(dep.(queue := []), pt, packets);
            H.DecodeAll(dep, pt, packets) == d.(queue := dep.queue + d.queue)
    decreases |packets|
  {
    hide H.Decode;
    if packets == [] {
      assert dep.queue + [] == dep.queue;
    } else {
      var e := dep.(queue := []);
      DecodeAppends(dep, pt, packets[0]);
      var d1 := H.Decode(e, pt, packets[0]);
      var f1 := H.Decode(dep, pt, packets[0]);
      DecodeAllAppends(f1, pt, packets[1..]);
      DecodeAllAppends(d1, pt, packets[1..]);
      assert f1.(queue := []) == d1.(queue := []);
      var d2 := H.DecodeAll(d1.(queue := []), pt, packets[1..]);
      assert dep.queue + d1.queue + d2.queue == dep.queue + (d1.queue + d2.queue);
    }
  }

  // ---------- Any order of calls ----------

  datatype Call = CallPull | CallAwait | CallRead

  function Do(s: State, pt: nat, c: Call): Outcome {
    match c
    case CallPull => Pull(s, pt)
    case CallAwait => Await(s, pt)
    case CallRead => ReadNalu(s, pt)
  }

  /** Calls one after the other, up to the first that does not succeed. */
  function DoAll(s: State, pt: nat, calls: seq<Call>): State
    decreases |calls|
  {
    if calls == [] then s
    else
      var r := Do(s, pt, calls[0]);
      if r.code != 0 then r.s else DoAll(r.s, pt, calls[1..])
  }

  /** `s` has consumed exactly the first `m` items: what it handed out and what it still queues
      is the decode of their RTP packets, its fragment buffer is the decoder's. */
  ghost predicate Consumed(s: State, pt: nat, dep: H.Depack, items: seq<Item>, m: nat)
    requires AllItems(items)
  {
    m <= |items| && s.input == StreamOf(items[m..]) &&
    var d := H.DecodeAll(dep, pt, RtpPackets(items[..m]));
    s.out + s.dep.queue == d.queue && s.dep.(queue := []) == d.(queue := [])
  }

  lemma {:induction false} PacketsSnoc(items: seq<Item>, m: nat)
    requires m < |items|
    ensures RtpPackets(items[..m + 1]) == RtpPackets(items[..m]) + RtpPackets([items[m]])
  {
    if m == 0 {
      assert items[..1] == [items[0]];
    } else {
      assert items[..m + 1][1..] == items[1..][..m];
      assert items[..m][1..] == items[1..][..m - 1];
      PacketsSnoc(items[1..], m - 1);
    }
  }

  lemma {:induction false} DecodeAllAppend(dep: H.Depack, pt: nat, a: seq<bytes>, b: seq<bytes>)
    ensures H.DecodeAll(dep, pt, a + b) == H.DecodeAll(H.DecodeAll(dep, pt, a), pt, b)
    decreases |a|
  {
    hide H.Decode;
    if a == [] {
      assert a + b == b;
    } else {
      assert (a + b)[1..] == a[1..] + b;
      DecodeAllAppend(H.Decode(dep, pt, a[0]), pt, a[1..], b);
    }
  }

  /** Taking one more item keeps the account. */
  lemma ItemConsumed(s: State, pt: nat, dep: H.Depack, items: seq<Item>, m: nat, s': State)
    requires AllItems(items) && Consumed(s, pt, dep, items, m) && m < |items|
    requires s' == State(StreamOf(items[m + 1..]), OnItem(s.dep, pt, items[m]), s.out)
    ensures Consumed(s', pt, dep, items, m + 1)
  {
    hide H.Decode, StreamOf, ValidItem;
    PacketsSnoc(items, m);
    var before := RtpPackets(items[..m]);
    var d := H.DecodeAll(dep, pt, before);
    DecodeAllAppend(dep, pt, before, RtpPackets([items[m]]));
    OnePacket(d, pt, items[m]);
    if items[m].Media? && items[m].channel == 0 {
      DecodeAppends(s.dep, pt, items[m].payload);
      DecodeAppends(d, pt, items[m].payload);
      var e := H.Decode(d.(queue := []), pt, items[m].payload);
      assert s.out + (s.dep.queue + e.queue) == s.out + s.dep.queue + e.queue;
    }
  }

  lemma OnePacket(d: H.Depack, pt: nat, it: Item)
    ensures H.DecodeAll(d, pt, RtpPackets([it])) == OnItem(d, pt, it)
  {
    hide H.Decode;
    assert [it][1..] == [];
    assert RtpPackets([]) == [];
    if it.Media? && it.channel == 0 {
      assert RtpPackets([it]) == [it.payload] && [it.payload][1..] == [];
    }
  }

  lemma StreamHead(items: seq<Item>, m: nat)
    requires AllItems(items) && m < |items|
    ensures AllItems(items[m + 1..]) && ValidItem(items[m])
    ensures StreamOf(items[m..]) == ItemBytes(items[m]) + StreamOf(items[m + 1..])
  {
    hide ItemBytes, ValidItem;
    assert items[m..][1..] == items[m + 1..];
  }

  lemma PullConsumes(s: State, pt: nat, dep: H.Depack, items: seq<Item>, m: nat)
    requires AllItems(items) && Consumed(s, pt, dep, items, m)
    ensures var r := Pull(s, pt);
            if m < |items| then r.code == 0 && r.s.out == s.out && Consumed(r.s, pt, dep, items, m + 1)
            else r.code == 1 && r.s == s
  {
    hide H.Decode, H.DecodeAll, ValidItem, ItemBytes, ReadFrame, DrainResponse;
    if m < |items| {
      StreamHead(items, m);
      var it := items[m];
      var rest := StreamOf(items[m + 1..]);
      if it.Media? {
        FrameReadsBack(it, rest);
        MediaNotEmpty(it);
      } else {
        ResponseReadsBack(it, rest);
      }
      ItemConsumed(s, pt, dep, items, m, State(rest, OnItem(s.dep, pt, it), s.out));
    }
  }

  lemma MediaNotEmpty(it: Item)
    requires it.Media? && ValidItem(it)
    ensures it.payload != []
  {
  }

  lemma {:induction false} AwaitConsumes(s: State, pt: nat, dep: H.Depack, items: seq<Item>, m: nat)
    returns (m': nat)
    requires AllItems(items) && Consumed(s, pt, dep, items, m)
    ensures m <= m' && Await(s, pt).s.out == s.out && Consumed(Await(s, pt).s, pt, dep, items, m')
    ensures Await(s, pt).code == 0 ==> m < m' && items[m' - 1].Response?
    decreases |items| - m
  {
    hide H.Decode, H.DecodeAll, ValidItem, ItemBytes, ReadFrame, ReadResponse, Consumed;
    m' := m;
    ConsumedInput(s, pt, dep, items, m);
    if m < |items| {
      StreamHead(items, m);
      var it := items[m];
      var rest := StreamOf(items[m + 1..]);
      var s1 := State(rest, OnItem(s.dep, pt, it), s.out);
      ItemConsumed(s, pt, dep, items, m, s1);
      if it.Media? {
        FrameReadsBack(it, rest);
        m' := AwaitConsumes(s1, pt, dep, items, m + 1);
      } else {
        ResponseReadsBack(it, rest);
        m' := m + 1;
      }
    }
  }

  lemma ConsumedInput(s: State, pt: nat, dep: H.Depack, items: seq<Item>, m: nat)
    requires AllItems(items) && Consumed(s, pt, dep, items, m)
    ensures m <= |items| && AllItems(items[m..]) && s.input == StreamOf(items[m..])
    ensures m == |items| ==> s.input == []
  {
    hide H.DecodeAll, RtpPackets;
  }

  lemma {:induction false} ReadConsumes(s: State, pt: nat, dep: H.Depack, items: seq<Item>, m: nat)
    returns (m': nat)
    requires AllItems(items) && Consumed(s, pt, dep, items, m)
    ensures m <= m' && Consumed(ReadNalu(s, pt).s, pt, dep, items, m')
    decreases |items| - m
  {
    hide H.DecodeAll, StreamOf, RtpPackets, Pull, ValidItem;
    m' := m;
    if s.dep.queue == [] {
      PullConsumes(s, pt, dep, items, m);
      var r := Pull(s, pt);
      if r.code == 0 {
        m' := ReadConsumes(r.s, pt, dep, items, m + 1);
      }
    } else {
      var r := ReadNalu(s, pt).s;
      assert r.out + r.dep.queue == s.out + s.dep.queue;
    }
  }

  /** The demultiplexer does not depend on where responses fall: on a well-formed stream, after
      any sequence of calls, the NAL units handed out followed by those queued are the decode of
      the channel-0 payloads consumed, in order; responses and other channels add nothing. */
  lemma {:induction false} DemuxConserves(s: State, pt: nat, dep: H.Depack, items: seq<Item>, m: nat, calls: seq<Call>)
    returns (m': nat)
    requires AllItems(items) && Consumed(s, pt, dep, items, m)
    ensures m <= m' && Consumed(DoAll(s, pt, calls), pt, dep, items, m')
    decreases |calls|
  {
    hide Consumed, Pull, Await, ReadNalu, ValidItem;
    m' := m;
    if calls != [] {
      match calls[0] {
        case CallPull =>
          PullConsumes(s, pt, dep, items, m);
          ConsumedBound(s, pt, dep, items, m);
          if m < |items| { m' := m + 1; }
        case CallAwait => m' := AwaitConsumes(s, pt, dep, items, m);
        case CallRead => m' := ReadConsumes(s, pt, dep, items, m);
      }
      var r := Do(s, pt, calls[0]);
      if r.code == 0 {
        m' := DemuxConserves(r.s, pt, dep, items, m', calls[1..]);
      }
    }
  }

  lemma ConsumedBound(s: State, pt: nat, dep: H.Depack, items: seq<Item>, m: nat)
    requires AllItems(items) && Consumed(s, pt, dep, items, m)
    ensures m <= |items|
  {
  }

  lemma {:induction false} PacketsSplit(items: seq<Item>, m: nat)
    requires m <= |items|
    ensures RtpPackets(items) == RtpPackets(items[..m]) + RtpPackets(items[m..])
    decreases m
  {
    if m == 0 {
      assert items[..0] == [] && items[0..] == items;
    } else {
      assert items[..m][1..] == items[1..][..m - 1] && items[1..][m - 1..] == items[m..];
      PacketsSplit(items[1..], m - 1);
    }
  }

  lemma NothingLeft(items: seq<Item>)
    requires AllItems(items)
    ensures StreamOf(items) == [] ==> items == []
  {
    if items != [] {
      ItemNotEmpty(items[0]);
    }
  }

  lemma ItemNotEmpty(it: Item)
    requires ValidItem(it)
    ensures |ItemBytes(it)| > 0
  {
    hide HeaderBytes;
  }

  const NoUnits: H.Depack := H.Depack([], [], 0, false)

  /** From the sender to the reader: NAL units, sent in any valid mix of packets, interleaved with
      any responses and frames of other channels. Whatever calls are made, the units handed out and
      then those queued are a prefix of the units sent, and all of them once the stream is used up. */
  lemma CameraDelivers(pt: nat, items: seq<Item>, ts: seq<H.Timed>, calls: seq<Call>)
    requires pt < 128 && AllItems(items) && H.AllValid(ts) && H.Carries(RtpPackets(items), pt, H.AllPayloads(ts))
    ensures var r := DoAll(State(StreamOf(items), NoUnits, []), pt, calls);
            r.out + r.dep.queue <= H.AllNalus(ts) &&
            (r.input == [] ==> r.out + r.dep.queue == H.AllNalus(ts))
  {
    hide StreamOf, DoAll, RtpPackets, H.DecodeAll, H.Carries, H.AllPayloads, H.AllNalus;
    var s := State(StreamOf(items), NoUnits, []);
    assert items[0..] == items && items[..0] == [];
    StartConsumed(s, pt, items);
    var m := DemuxConserves(s, pt, NoUnits, items, 0, calls);
    var r := DoAll(s, pt, calls);
    ConsumedBound(r, pt, NoUnits, items, m);
    PacketsSplit(items, m);
    H.DepacketisationInverts(NoUnits, pt, ts, RtpPackets(items));
    DecodeAllAppend(NoUnits, pt, RtpPackets(items[..m]), RtpPackets(items[m..]));
    var d := H.DecodeAll(NoUnits, pt, RtpPackets(items[..m]));
    DecodeAllAppends(d, pt, RtpPackets(items[m..]));
    assert [] + H.AllNalus(ts) == H.AllNalus(ts);
    if r.input == [] {
      NothingLeft(items[m..]);
      NoPackets(d, pt);
    }
  }

  lemma StartConsumed(s: State, pt: nat, items: seq<Item>)
    requires AllItems(items) && s == State(StreamOf(items), NoUnits, [])
    ensures Consumed(s, pt, NoUnits, items, 0)
  {
    hide StreamOf;
    assert items[0..] == items && items[..0] == [];
  }

  lemma NoPackets(d: H.Depack, pt: nat)
    ensures H.DecodeAll(d, pt, RtpPackets([])) == d
  {
  }

  // ---------- The connection object ----------

  class Connection {
    const client: H.Client
    var input: bytes
    ghost var out: seq<H.Nalu>

    constructor (stream: bytes, c: H.Client)
      ensures client == c && View() == State(stream, c.View(), [])
    {
      client, input, out := c, stream, [];
    }

    ghost function View(): State
      reads this, client
    {
      State(input, client.View(), out)
    }

    /** `ssl_read_line`, seeded with the bytes already taken. */
    method NextLine(seed: bytes) returns (code: int, line: bytes)
      modifies this`input
      ensures match ReadLine(seed, old(input))
              case Line(text, rest) => code == 0 && line == text && input == rest
              case LineCut(text, rest) => code == -1 && line == text && input == rest
              case LineEnd => code == 1 && input == []
    {
      line := seed;
      while |line| < MAX_LINE
        invariant ReadLine(line, input) == ReadLine(seed, old(input))
        decreases |input|
      {
        if input == [] { return 1, line; }
        var c := input[0];
        input := input[1..];
        if line != [] && line[|line| - 1] == CR && c == LF {
          return 0, line[..|line| - 1];
        }
        line := line + [c];
      }
      return -1, line;
    }

    method NextTail() returns (code: int, body: bytes)
      modifies this`input
      ensures match ReadTail(old(input))
              case Tail(b, rest) => code == 0 && body == b && input == rest
              case TailFail(c) => code == c
    {
      hide ReadLine, NextLength;
      var length := 0;
      body := [];
      while true
        invariant ReadHeaders(input, length) == ReadHeaders(old(input), 0)
        decreases |input|
      {
        var line;
        code, line := NextLine([]);
        if code != 0 { return; }
        if line == [] { break; }
        length := NextLength(length, line);
      }
      if length < 0 || length > MAX_BODY { return -1, body; }
      if length > |input| { return 1, body; }
      body := input[..length];
      input := input[length..];
    }

    method Response(first: byte) returns (code: int, status: int, body: bytes)
      modifies this`input
      ensures match ReadResponse(first, old(input))
              case Reply(st, b, rest) => code == 0 && status == st && body == b && input == rest
              case ReplyFail(c) => code == c
    {
      hide ReadLine, ReadTail, Atoi, Find;
      status, body := 0, [];
      var line;
      code, line := NextLine([first]);
      if code == 1 { return; }
      if |line| < 12 || line[..7] != RTSP_1 { return -1, status, body; }
      var sp := Find(line, SPACE, 9);
      if sp == None { return -1, status, body; }
      status := Atoi(line[9..sp.value]);
      code, body := NextTail();
    }

    method NextFrame() returns (code: int, channel: byte, payload: bytes)
      modifies this`input
      ensures match ReadFrame(old(input))
              case Frame(ch, p, rest) => code == 0 && channel == ch && payload == p && input == rest
              case FrameEnd => code == 1
    {
      channel, payload := 0, [];
      if |input| < 3 { return 1, channel, payload; }
      var n := H.U16(input, 1);
      channel := input[0];
      if |input| < 3 + n { return 1, channel, payload; }
      payload := input[3..3 + n];
      input := input[3 + n..];
      code := 0;
    }

    method AwaitResponse() returns (code: int)
      modifies this, client
      ensures code == Await(old(View()), client.pt).code
      ensures code == 0 ==> View() == Await(old(View()), client.pt).s
    {
      hide ReadFrame, ReadResponse, H.Decode;
      while true
        invariant Await(View(), client.pt) == Await(old(View()), client.pt)
        decreases |input|
      {
        if input == [] { return 1; }
        var prefix := input[0];
        input := input[1..];
        if prefix == DOLLAR {
          var channel, payload;
          code, channel, payload := NextFrame();
          if code != 0 { return; }
          if channel == 0 { client.DecodeRtpH264(payload); }
        } else {
          var status, body;
          code, status, body := Response(prefix);
          return;
        }
      }
    }

    method PullOneMessage() returns (code: int)
      modifies this, client
      ensures code == Pull(old(View()), client.pt).code
      ensures code == 0 ==> View() == Pull(old(View()), client.pt).s && |input| < |old(input)|
    {
      hide ReadFrame, ReadTail, ReadLine, H.Decode;
      if input == [] { return 1; }
      var prefix := input[0];
      input := input[1..];
      if prefix == DOLLAR {
        var channel, payload;
        code, channel, payload := NextFrame();
        if code != 0 { return; }
        if payload == [] { return -1; }
        if channel == 0 { client.DecodeRtpH264(payload); }
      } else if prefix == LETTER_R {
        var rest, body;
        code, rest := NextLine([]);
        if code != 0 { return; }
        code, body := NextTail();
      } else {
        code := -1;
      }
    }

    method ReadNextNalu() returns (code: int, nalu: H.Nalu)
      modifies this, client
      ensures code == ReadNalu(old(View()), client.pt).code
      ensures code == 0 ==> View() == ReadNalu(old(View()), client.pt).s && out == old(out) + [nalu]
    {
      hide Pull;
      nalu := H.Nalu([], 0, false);
      while client.queue == []
        invariant ReadNalu(View(), client.pt) == ReadNalu(old(View()), client.pt)
        invariant out == old(out)
        decreases |input|
      {
        ghost var before := View();
        code := PullOneMessage();
        PullKeepsOut(before, client.pt);
        if code != 0 { return; }
      }
      nalu := client.queue[0];
      client.queue := client.queue[1..];
      out := out + [nalu];
      code := 0;
    }
  }

  lemma PullKeepsOut(s: State, pt: nat)
    ensures Pull(s, pt).s.out == s.out
  {
    hide ReadFrame, DrainResponse, H.Decode;
  }
}
