/**
 The framed transport of the local tunnel (src/tunnel_local.cpp): the 16-byte header, frames
 cut out of a receive buffer, and the JSON-plus-binary body with its splitter.
 */
module Wire {
  import opened Bytes
  import opened Json

  const U32 := 0x1_0000_0000

  const MAGIC_LOGIN_CLIENT := 0x0101013F
  const MAGIC_LOGIN_SERVER := 0x0001013F
  const MAGIC_CTRL_CLIENT := 0x0102013F

  // ---------- Header ----------

  function WriteU32(v: nat): (s: bytes)
    requires v < U32
    ensures |s| == 4
  {
    [v % 256, v / 256 % 256, v / 65536 % 256, v / 16777216]
  }

  function ReadU32(s: bytes, p: nat): (v: nat)
    requires p + 4 <= |s|
    ensures v < U32
  {
    var b0: int, b1: int, b2: int, b3: int := s[p], s[p + 1], s[p + 2], s[p + 3];
    b0 + b1 * 256 + b2 * 65536 + b3 * 16777216
  }

  datatype FrameHeader = FrameHeader(payloadLen: nat, magic: nat, seqNo: nat)

  function BuildHeader(h: FrameHeader): (s: bytes)
    requires h.payloadLen < U32 && h.magic < U32 && h.seqNo < U32
    ensures |s| == 16
  {
    WriteU32(h.payloadLen) + WriteU32(h.magic) + WriteU32(h.seqNo) + [0, 0, 0, 0]
  }

  function ParseHeader(s: bytes): Option<FrameHeader> {
    if |s| < 16 then None
    else Some(FrameHeader(ReadU32(s, 0), ReadU32(s, 4), ReadU32(s, 8)))
  }

  lemma U32ReadsBack(s: bytes, p: nat, v: nat)
    requires v < U32 && At(s, p, WriteU32(v))
    ensures p + 4 <= |s| && ReadU32(s, p) == v
  {
    hide At;
    var w := WriteU32(v);
    AtIndex(s, p, w, 0);
    AtIndex(s, p, w, 1);
    AtIndex(s, p, w, 2);
    AtIndex(s, p, w, 3);
    assert v / 256 == v / 65536 * 256 + v / 256 % 256 by { assert v / 256 / 256 == v / 65536; }
    assert v / 65536 == v / 16777216 * 256 + v / 65536 % 256 by { assert v / 65536 / 256 == v / 16777216; }
  }

  lemma HeaderReadsBack(h: FrameHeader, rest: bytes)
    requires h.payloadLen < U32 && h.magic < U32 && h.seqNo < U32
    ensures ParseHeader(BuildHeader(h) + rest) == Some(h)
  {
    hide WriteU32, ReadU32;
    var s := BuildHeader(h) + rest;
    assert At(s, 0, WriteU32(h.payloadLen));
    assert At(s, 4, WriteU32(h.magic));
    assert At(s, 8, WriteU32(h.seqNo));
    U32ReadsBack(s, 0, h.payloadLen);
    U32ReadsBack(s, 4, h.magic);
    U32ReadsBack(s, 8, h.seqNo);
  }

  /** The value of four bytes, the lowest first. */
  function Little(s: bytes, p: nat): int
    requires p + 4 <= |s|
  {
    s[p] as int + 0x100 * (s[p + 1] as int) + 0x10000 * (s[p + 2] as int) + 0x1000000 * (s[p + 3] as int)
  }

  /** The sixteen bytes in front of a body: its length, the magic and the sequence number, each in four
      bytes with the lowest first, and four zeros. */
  lemma HeaderLayout(h: FrameHeader)
    requires h.payloadLen < 0x1_0000_0000 && h.magic < 0x1_0000_0000 && h.seqNo < 0x1_0000_0000
    ensures var s := BuildHeader(h);
            |s| == 16 && Little(s, 0) == h.payloadLen && Little(s, 4) == h.magic && Little(s, 8) == h.seqNo &&
            s[12..] == [0, 0, 0, 0]
  {
    WordLayout(h.payloadLen);
    WordLayout(h.magic);
    WordLayout(h.seqNo);
  }

  lemma WordLayout(v: nat)
    requires v < 0x1_0000_0000
    ensures Little(WriteU32(v), 0) == v
  {
    assert v / 256 == v / 65536 * 256 + v / 256 % 256 by { assert v / 256 / 256 == v / 65536; }
    assert v / 65536 == v / 16777216 * 256 + v / 65536 % 256 by { assert v / 65536 / 256 == v / 16777216; }
  }

  // ---------- Frames ----------

  /** The lengths whose sum with the 16 bytes of the header leaves 32 bits. */
  const LENGTH_LIMIT := U32 - 16

  /** The frame's length as the source computes it, in 32 bits. */
  function WrappedLen(n: nat): nat {
    (16 + n) % U32
  }

  /** The header at the head of the buffer leads the cutter astray: the wrapped sum passes the
      size test although it is not the length of header and body. The cutter then copies a body
      that does not belong to the frame it skips. */
  predicate Derails(s: bytes) {
    |s| >= 16 && var n := ReadU32(s, 0); WrappedLen(n) <= |s| && WrappedLen(n) != 16 + n
  }

  /** Length of the complete frame at the head of the buffer, if there is one. */
  function FrameLen(s: bytes): (r: Option<nat>)
    ensures r.Some? ==> 16 <= r.value <= |s|
  {
    if |s| < 16 then None
    else
      var n := ReadU32(s, 0);
      if WrappedLen(n) <= |s| && WrappedLen(n) == 16 + n then Some(16 + n) else None
  }

  lemma DerailsIff(s: bytes)
    ensures Derails(s) <==> |s| >= 16 && ReadU32(s, 0) >= LENGTH_LIMIT
    ensures FrameLen(s) == if |s| < 16 || ReadU32(s, 0) >= LENGTH_LIMIT || 16 + ReadU32(s, 0) > |s| then None
                           else Some(16 + ReadU32(s, 0))
  {
    hide ReadU32;
    if |s| >= 16 { Wraps(ReadU32(s, 0)); }
  }

  lemma Wraps(n: nat)
    requires n < U32
    ensures WrappedLen(n) == if n < LENGTH_LIMIT then 16 + n else n - LENGTH_LIMIT
  {
  }

  /** In a buffer below 4 GiB the copy that goes astray ends behind the buffer. */
  lemma DerailedCopy(s: bytes)
    requires Derails(s) && |s| < U32
    ensures 16 + ReadU32(s, 0) > |s|
  {
    hide ReadU32;
    DerailsIff(s);
  }

  /** Every frame that cutting the buffer comes to is copied whole from inside the buffer. */
  predicate Tame(s: bytes)
    decreases |s|
  {
    !Derails(s) && match FrameLen(s)
      case None => true
      case Some(n) => Tame(s[n..])
  }

  /** The lengths announced by the headers at frame boundaries. */
  function Announced(s: bytes): seq<nat>
    decreases |s|
  {
    if |s| < 16 then []
    else
      [ReadU32(s, 0)] +
      match FrameLen(s)
      case None => []
      case Some(n) => Announced(s[n..])
  }

  /** Cutting stays inside the buffer exactly when no header at a frame boundary announces
      2^32 - 16 bytes or more. */
  lemma {:induction false} TameIff(s: bytes)
    ensures Tame(s) <==> forall i :: 0 <= i < |Announced(s)| ==> Announced(s)[i] < LENGTH_LIMIT
    decreases |s|
  {
    hide Derails, FrameLen, ReadU32;
    DerailsIff(s);
    if |s| >= 16 {
      assert Announced(s)[0] == ReadU32(s, 0);
      match FrameLen(s) {
        case None =>
        case Some(n) =>
          TameIff(s[n..]);
          assert Announced(s)[1..] == Announced(s[n..]);
          assert forall i :: 0 <= i < |Announced(s[n..])| ==> Announced(s)[i + 1] == Announced(s[n..])[i];
      }
    }
  }

  /** A header alone that announces 2^32 - 16 bytes: the sum is 0, and the copy runs behind the
      buffer. */
  lemma WrappedHeader(magic: nat, seqNo: nat)
    requires magic < U32 && seqNo < U32
    ensures var s := BuildHeader(FrameHeader(LENGTH_LIMIT, magic, seqNo));
            Derails(s) && !Tame(s) && FrameLen(s) == None && 16 + ReadU32(s, 0) > |s|
  {
    hide ReadU32, BuildHeader;
    var h := FrameHeader(LENGTH_LIMIT, magic, seqNo);
    HeaderReadsBack(h, []);
    assert BuildHeader(h) + [] == BuildHeader(h);
    DerailsIff(BuildHeader(h));
  }

  /** Bodies of the complete frames at the head of the buffer. */
  function Bodies(s: bytes): seq<bytes>
    decreases |s|
  {
    match FrameLen(s)
    case None => []
    case Some(n) => [s[16..n]] + Bodies(s[n..])
  }

  /** What stays in the buffer once they are cut off. */
  function Rest(s: bytes): bytes
    decreases |s|
  {
    match FrameLen(s)
    case None => s
    case Some(n) => Rest(s[n..])
  }

  lemma NothingStrays(a: bytes, b: bytes)
    ensures |a| < 16 ==> !Derails(a) && FrameLen(a) == None
    ensures |a| >= 16 ==> (Derails(a + b) <==> Derails(a))
  {
    DerailsIff(a);
    DerailsIff(a + b);
    if |a| >= 16 { assert forall i :: 0 <= i < 4 ==> (a + b)[i] == a[i]; }
  }

  /** Cutting early stays inside exactly when cutting everything at once does. */
  lemma {:induction false} TameSplit(a: bytes, b: bytes)
    ensures Tame(a + b) <==> Tame(a) && Tame(Rest(a) + b)
    decreases |a|
  {
    hide FrameLen, Derails;
    NothingStrays(a, b);
    match FrameLen(a) {
      case None =>
      case Some(n) =>
        HeadGrows(a, b);
        TameSplit(a[n..], b);
    }
  }

  lemma HeadGrows(a: bytes, b: bytes)
    requires FrameLen(a).Some?
    ensures FrameLen(a + b) == FrameLen(a)
    ensures (a + b)[16..FrameLen(a).value] == a[16..FrameLen(a).value]
    ensures (a + b)[FrameLen(a).value..] == a[FrameLen(a).value..] + b
  {
    assert forall i :: 0 <= i < |a| ==> (a + b)[i] == a[i];
  }

  /** Cutting what has arrived and then the rest together with `b` is cutting everything. */
  lemma {:induction false} BodiesSplit(a: bytes, b: bytes)
    ensures Bodies(a + b) == Bodies(a) + Bodies(Rest(a) + b)
    ensures Rest(a + b) == Rest(Rest(a) + b)
    decreases |a|
  {
    hide FrameLen;
    match FrameLen(a) {
      case None =>
      case Some(n) =>
        HeadGrows(a, b);
        BodiesSplit(a[n..], b);
    }
  }

  lemma {:induction false} RestIsCut(s: bytes)
    ensures Bodies(Rest(s)) == [] && Rest(Rest(s)) == Rest(s) && FrameLen(Rest(s)) == None
    ensures |Rest(s)| <= |s| && s[|s| - |Rest(s)|..] == Rest(s)
    decreases |s|
  {
    hide FrameLen;
    match FrameLen(s) {
      case None =>
      case Some(n) => RestIsCut(s[n..]);
    }
  }

  /** Bytes arrive in reads of any size and the buffer is cut at any moments in between. */
  datatype BufferOp = Arrive(chunk: bytes) | Cut

  function Arrived(ops: seq<BufferOp>): bytes {
    if ops == [] then []
    else (if ops[0].Arrive? then ops[0].chunk else []) + Arrived(ops[1..])
  }

  /** What was cut, what is left, and whether some cut went astray; nothing is claimed after that. */
  datatype Buffered = Buffered(taken: seq<bytes>, buf: bytes, derailed: bool)

  function RunBuffer(s: Buffered, ops: seq<BufferOp>): Buffered
    decreases |ops|
  {
    if ops == [] then s
    else match ops[0]
      case Arrive(c) => RunBuffer(s.(buf := s.buf + c), ops[1..])
      case Cut => RunBuffer(CutOf(s), ops[1..])
  }

  function CutOf(s: Buffered): Buffered {
    Buffered(s.taken + Bodies(s.buf), Rest(s.buf), s.derailed || !Tame(s.buf))
  }

  /** Chunk independence: however the stream is read and whenever it is cut, the bodies taken
      so far and those still buffered are the bodies of the whole stream, and so is the rest, as
      long as no cut went astray; and one has, or the buffer will make the next one do so,
      exactly when the whole stream does. */
  lemma {:induction false} ChunkIndependent(s: Buffered, ops: seq<BufferOp>)
    ensures var r := RunBuffer(s, ops);
            (r.derailed || !Tame(r.buf)) <==> (s.derailed || !Tame(s.buf + Arrived(ops)))
    ensures var r := RunBuffer(s, ops);
            !r.derailed ==>
              r.taken + Bodies(r.buf) == s.taken + Bodies(s.buf + Arrived(ops)) &&
              Rest(r.buf) == Rest(s.buf + Arrived(ops))
    decreases |ops|
  {
    hide Bodies, Rest, Tame;
    if ops == [] {
      assert s.buf + [] == s.buf;
    } else {
      var a := Arrived(ops[1..]);
      match ops[0] {
        case Arrive(c) =>
          assert s.buf + c + a == s.buf + Arrived(ops);
          ChunkIndependent(s.(buf := s.buf + c), ops[1..]);
        case Cut =>
          assert Arrived(ops) == a;
          BodiesSplit(s.buf, a);
          TameSplit(s.buf, a);
          ChunkIndependent(CutOf(s), ops[1..]);
      }
    }
  }

  // ---------- Frames as they are sent ----------

  datatype Frame = Frame(magic: nat, seqNo: nat, body: bytes)

  ghost predicate Sendable(f: Frame) {
    f.magic < U32 && f.seqNo < U32 && |f.body| < LENGTH_LIMIT
  }

  function Encode(f: Frame): bytes
    requires Sendable(f)
  {
    BuildHeader(FrameHeader(|f.body|, f.magic, f.seqNo)) + f.body
  }

  ghost predicate AllSendable(fs: seq<Frame>) {
    forall i :: 0 <= i < |fs| ==> Sendable(fs[i])
  }

  function Stream(fs: seq<Frame>): bytes
    requires AllSendable(fs)
  {
    if fs == [] then [] else Encode(fs[0]) + Stream(fs[1..])
  }

  function BodiesOf(fs: seq<Frame>): seq<bytes> {
    if fs == [] then [] else [fs[0].body] + BodiesOf(fs[1..])
  }

  lemma EncodedHead(f: Frame, rest: bytes)
    requires Sendable(f)
    ensures FrameLen(Encode(f) + rest) == Some(|Encode(f)|)
    ensures (Encode(f) + rest)[16..|Encode(f)|] == f.body
    ensures (Encode(f) + rest)[|Encode(f)|..] == rest
    ensures !Derails(Encode(f) + rest)
  {
    hide BuildHeader, ReadU32;
    DerailsIff(Encode(f) + rest);
    var h := FrameHeader(|f.body|, f.magic, f.seqNo);
    HeaderReadsBack(h, f.body + rest);
    assert Encode(f) + rest == BuildHeader(h) + (f.body + rest);
  }

  lemma EncodedPrefixIncomplete(f: Frame, k: nat)
    requires Sendable(f) && k < |Encode(f)|
    ensures FrameLen(Encode(f)[..k]) == None && !Derails(Encode(f)[..k])
  {
    hide FrameLen, Derails;
    DerailsIff(Encode(f)[..k]);
    var e := Encode(f);
    var h := FrameHeader(|f.body|, f.magic, f.seqNo);
    if k >= 16 {
      HeaderReadsBack(h, f.body);
      assert ReadU32(e[..k], 0) == ReadU32(e, 0) == |f.body|;
    }
  }

  /** Built frames come out whole and in order. */
  lemma {:induction false} StreamReadsBack(fs: seq<Frame>)
    requires AllSendable(fs)
    ensures Bodies(Stream(fs)) == BodiesOf(fs) && Rest(Stream(fs)) == [] && Tame(Stream(fs))
  {
    hide Encode, FrameLen, Derails;
    if fs == [] {
      TooShort([]);
    } else {
      EncodedHead(fs[0], Stream(fs[1..]));
      StreamReadsBack(fs[1..]);
    }
  }

  /** A stream of built frames cut anywhere: the frames before the cut are complete and what
      stays buffered is a strict prefix of the one frame that the cut falls into. */
  lemma {:induction false} CutInsideOneFrame(fs: seq<Frame>, k: nat) returns (j: nat)
    requires AllSendable(fs) && k < |Stream(fs)|
    ensures j < |fs| && Bodies(Stream(fs)[..k]) == BodiesOf(fs[..j])
    ensures var r := Rest(Stream(fs)[..k]);
            |r| < |Encode(fs[j])| && r == Encode(fs[j])[..|r|]
    ensures Tame(Stream(fs)[..k])
    decreases |fs|
  {
    hide Encode, FrameLen, Derails;
    var e := Encode(fs[0]);
    var s := Stream(fs);
    if k < |e| {
      j := 0;
      assert s[..k] == e[..k];
      EncodedPrefixIncomplete(fs[0], k);
      assert fs[..0] == [];
    } else {
      var j' := CutInsideOneFrame(fs[1..], k - |e|);
      j := j' + 1;
      assert s[..k] == e + Stream(fs[1..])[..k - |e|];
      EncodedHead(fs[0], Stream(fs[1..])[..k - |e|]);
      assert fs[..j][1..] == fs[1..][..j'];
    }
  }

  lemma FrameAt(data: bytes, i: nat)
    requires i + 16 <= |data|
    ensures var n := ReadU32(data, i);
            FrameLen(data[i..]) == (if n >= LENGTH_LIMIT || i + 16 + n > |data| then None else Some(16 + n)) &&
            (Derails(data[i..]) <==> n >= LENGTH_LIMIT) &&
            WrappedLen(n) == if n >= LENGTH_LIMIT then n - LENGTH_LIMIT else 16 + n
    ensures var n := ReadU32(data, i);
            i + 16 + n <= |data| ==>
              data[i..][16..16 + n] == data[i + 16..i + 16 + n] &&
              data[i..][16 + n..] == data[i + 16 + n..]
  {
    assert forall k :: 0 <= k < 4 ==> data[i..][k] == data[i + k];
    DerailsIff(data[i..]);
    Wraps(ReadU32(data, i));
  }

  /** The loop of `consume_frames`, up to the first copy that goes astray: there the run of the
      source is over as far as this model is concerned. */
  method ConsumeFrames(data: bytes) returns (bodies: seq<bytes>, i: nat, derailed: bool)
    ensures bodies == Bodies(data)
    ensures i <= |data| && data[i..] == Rest(data)
    ensures derailed <==> !Tame(data)
  {
    hide FrameLen, ReadU32, Derails, WrappedLen;
    i := 0;
    bodies := [];
    assert data[0..] == data;
    while i + 16 <= |data|
      invariant i <= |data|
      invariant bodies + Bodies(data[i..]) == Bodies(data)
      invariant Rest(data[i..]) == Rest(data) && Tame(data[i..]) == Tame(data)
    {
      var n := ReadU32(data, i);
      FrameAt(data, i);
      var frameLen := WrappedLen(n);
      if i + frameLen > |data| { return bodies, i, false; }
      if frameLen != 16 + n { return bodies, i, true; }
      bodies := bodies + [data[i + 16..i + 16 + n]];
      i := i + frameLen;
    }
    TooShort(data[i..]);
    derailed := false;
  }

  lemma TooShort(s: bytes)
    ensures |s| < 16 ==> FrameLen(s) == None && !Derails(s)
  {
  }

  // ---------- JSON with a binary tail ----------

  const NL: byte := 10
  const CR: byte := 13
  const MTYPE_KEY: bytes := [109, 116, 121, 112, 101] // mtype
  const MTYPE_CTRL_JSON := 12289
  const MTYPE_CTRL_SETUP := 12291

  /** Behind an opening brace, inside `depth` of them: where the outermost is closed. */
  function JsonEnd(t: bytes, i: nat, depth: nat, inStr: bool, esc: bool): (r: Option<nat>)
    requires i <= |t| && depth > 0
    ensures r.Some? ==> i < r.value <= |t|
    decreases |t| - i
  {
    if i == |t| then None
    else if inStr then
      if esc then JsonEnd(t, i + 1, depth, true, false)
      else JsonEnd(t, i + 1, depth, t[i] != QUOTE, t[i] == BACKSLASH)
    else if t[i] == QUOTE then JsonEnd(t, i + 1, depth, true, false)
    else if t[i] == LBRACE then JsonEnd(t, i + 1, depth + 1, false, false)
    else if t[i] == RBRACE then
      if depth == 1 then Some(i + 1) else JsonEnd(t, i + 1, depth - 1, false, false)
    else JsonEnd(t, i + 1, depth, false, false)
  }

  /** Where the binary starts when the JSON ends at `i`. */
  function BinaryStart(t: bytes, i: nat): (r: nat)
    requires i <= |t|
    ensures i <= r <= |t|
  {
    if i + 1 < |t| && t[i] == NL && t[i + 1] == NL then i + 2
    else if i + 3 < |t| && t[i] == CR && t[i + 1] == NL && t[i + 2] == CR && t[i + 3] == NL then i + 4
    else i
  }

  datatype Parts = Parts(json: bytes, bin: bytes)

  function Split(t: bytes): (r: Option<Parts>)
  {
    if t == [] || t[0] != LBRACE then None
    else match JsonEnd(t, 1, 1, false, false)
      case None => None
      case Some(i) => Some(Parts(t[..i], t[BinaryStart(t, i)..]))
  }

  /** `split_json_prefix` as the scanning loop it is. */
  method SplitJsonPrefix(t: bytes) returns (r: Option<Parts>)
    ensures r == Split(t)
  {
    hide BinaryStart;
    if t == [] || t[0] != LBRACE { return None; }
    var depth, inStr, esc, i := 0, false, false, 0;
    while i < |t|
      invariant i <= |t| && depth >= 0
      invariant i == 0 ==> depth == 0 && !inStr && !esc
      invariant i > 0 ==> depth > 0 && JsonEnd(t, i, depth, inStr, esc) == JsonEnd(t, 1, 1, false, false)
      invariant esc ==> inStr
    {
      var c := t[i];
      if inStr {
        if esc { esc := false; }
        else if c == BACKSLASH { esc := true; }
        else if c == QUOTE { inStr := false; }
        i := i + 1;
        continue;
      }
      if c == QUOTE { inStr := true; }
      else if c == LBRACE { depth := depth + 1; }
      else if c == RBRACE {
        depth := depth - 1;
        if depth == 0 {
          i := i + 1;
          break;
        }
      }
      i := i + 1;
    }
    if depth != 0 { return None; }
    return Some(Parts(t[..i], t[BinaryStart(t, i)..]));
  }

  predicate IsTrailingSpace(c: byte) {
    c == NL || c == CR || c == 32 || c == 9
  }

  function Trimmed(s: bytes): bytes {
    if s != [] && IsTrailingSpace(s[|s| - 1]) then Trimmed(s[..|s| - 1]) else s
  }

  const MTYPE_OPENING: bytes := [LBRACE] + [QUOTE] + MTYPE_KEY + [QUOTE]
  const WRAP_OPENING: bytes := MTYPE_OPENING + [COLON] + [49, 50, 50, 56, 57] + [COMMA] // {"mtype":12289,

  function Wrap(abi: bytes): bytes {
    var s := Trimmed(abi);
    if MTYPE_OPENING <= s then abi
    else if s != [] && s[0] == LBRACE then WRAP_OPENING + s[1..]
    else abi
  }

  /** The body as `wrap_ctrl_abi_with_binary` and the streaming sender build it. */
  function WrapWithBinary(abi: bytes, bin: bytes): bytes {
    if bin == [] then Wrap(abi) else Wrap(abi) + [NL, NL] + bin
  }

  method WrapCtrlAbi(abi: bytes) returns (wire: bytes)
    ensures wire == Wrap(abi)
  {
    if abi == [] { return abi; }
    var s := abi;
    while s != [] && IsTrailingSpace(s[|s| - 1])
      invariant Trimmed(s) == Trimmed(abi)
    {
      s := s[..|s| - 1];
    }
    if MTYPE_OPENING <= s { return abi; }
    if s != [] && s[0] == LBRACE { return WRAP_OPENING + s[1..]; }
    return abi;
  }

  /** What `take_pending_wire_json` makes of a body: its JSON part, or all of it. */
  function MessageOf(body: bytes): bytes {
    match Split(body)
    case Some(p) => p.json
    case None => body
  }

  function Messages(bodies: seq<bytes>): seq<bytes> {
    if bodies == [] then []
    else (if bodies[0] == [] then [] else [MessageOf(bodies[0])]) + Messages(bodies[1..])
  }
}
