/**
 A session on the local tunnel (src/tunnel_local.cpp): the polled handshake, the frame
 counter and the receive buffer, for whatever the printer sends and however the
 connection delivers it. TLS appears as the outcome of each write and read.
 */
module Session {
  import opened Bytes
  import opened Json
  import opened JsonRoundTrip
  import opened JsonSpelling
  import opened Replies
  import opened Wire

  datatype Phase = NotStarted | LoginSent | SetupSent | Ready | Failed

  datatype Config = Config(username: bytes, accessCode: bytes, clientId: bytes, clientVer: bytes)

  /** One read: nothing yet, connection gone, or some bytes. */
  datatype Read = Want | Gone | Data(chunk: bytes)

  function ReadAt(input: seq<Read>, k: nat): Read {
    if k < |input| then input[k] else Want
  }

  // ---------- What is sent ----------

  const KEY_PEER_T: bytes := [112, 101, 101, 114, 95, 116]
  const KEY_PID: bytes := [112, 105, 100]
  const KEY_T_AV: bytes := [116, 95, 97, 118]
  const KEY_VER: bytes := [118, 101, 114]
  const KEY_REQ: bytes := [114, 101, 113]
  const KEY_SEQUENCE: bytes := [115, 101, 113, 117, 101, 110, 99, 101]

  /** A fixed-width field: cut to the width, padded with zero bytes. */
  function AsciiField(s: bytes, width: nat): (f: bytes)
    ensures |f| == width
  {
    if |s| >= width then s[..width] else s + seq(width - |s|, _ => 0)
  }

  function LoginPayload(cfg: Config): (p: bytes)
    ensures |p| == 16
  {
    AsciiField(cfg.username, 8) + AsciiField(cfg.accessCode, 8)
  }

  function Hex8(n: nat): bytes
    requires n < U32
  {
    HexDigits4(n / 65536) + HexDigits4(n % 65536)
  }

  function SetupValue(clientId: bytes, clientVer: bytes): Value {
    Object([
      Member(MTYPE_KEY, Number(MTYPE_CTRL_SETUP as real)),
      Member(KEY_REQ, Object([
        Member(MTYPE_KEY, Number(MTYPE_CTRL_JSON as real)),
        Member(KEY_PEER_T, Number(3.0)),
        Member(KEY_PID, String(clientId)),
        Member(KEY_T_AV, Number(1.0)),
        Member(KEY_VER, String(clientVer))])),
      Member(KEY_SEQUENCE, Number(0.0))])
  }

  function SetupPayload(cfg: Config, seqNo: nat): bytes
    requires seqNo < U32
  {
    Text(SetupValue(if cfg.clientId == [] then Hex8(seqNo) else cfg.clientId, cfg.clientVer))
  }

  /** The setup request, whatever the client id and version contain, is JSON that parses back. */
  lemma SetupParses(clientId: bytes, clientVer: bytes)
    ensures var v := SetupValue(clientId, clientVer); Parse(Text(v)) == Ok(v, |Text(v)|)
  {
    hide Parse, Text;
    var v := SetupValue(clientId, clientVer);
    KeyOrder();
    var m := v.members;
    var r := m[1].val.members;
    assert Sorted(r) && Sorted(m) by { hide Less; }
    assert Printable(m[1].val) by { hide Less; }
    assert Printable(v) by { hide Less; }
    DumpParses(v);
  }

  /** The login payload: two fields of eight bytes, zeros behind what is shorter. */
  lemma LoginLayout(cfg: Config, i: nat)
    requires i < 8
    ensures |LoginPayload(cfg)| == 16
    ensures LoginPayload(cfg)[i] == if i < |cfg.username| then cfg.username[i] else 0
    ensures LoginPayload(cfg)[8 + i] == if i < |cfg.accessCode| then cfg.accessCode[i] else 0
  {
  }

  /** The setup request is a text of this value, key by key; it names the client's id, or the sequence
      number when there is none. */
  lemma SetupLayout(cfg: Config, seqNo: nat)
    requires seqNo < U32
    ensures Writes(SetupPayload(cfg, seqNo), Object([
              Member(Ascii("mtype"), Number(12291.0)),
              Member(Ascii("req"), Object([
                Member(Ascii("mtype"), Number(12289.0)), Member(Ascii("peer_t"), Number(3.0)),
                Member(Ascii("pid"), String(if |cfg.clientId| > 0 then cfg.clientId else Hex8(seqNo))),
                Member(Ascii("t_av"), Number(1.0)), Member(Ascii("ver"), String(cfg.clientVer))])),
              Member(Ascii("sequence"), Number(0.0))]))
  {
    hide Parse, Text, Writes, Hex8;
    SetupKeys();
    var v := SetupValue(if cfg.clientId == [] then Hex8(seqNo) else cfg.clientId, cfg.clientVer);
    SetupParses(if cfg.clientId == [] then Hex8(seqNo) else cfg.clientId, cfg.clientVer);
    ParsesIff(Text(v), v);
  }

  lemma SetupKeys()
    ensures Ascii("mtype") == MTYPE_KEY && Ascii("req") == KEY_REQ && Ascii("peer_t") == KEY_PEER_T
    ensures Ascii("pid") == KEY_PID && Ascii("t_av") == KEY_T_AV && Ascii("ver") == KEY_VER
    ensures Ascii("sequence") == KEY_SEQUENCE
  {
  }

  /** Without a client id the request names its sequence number: eight hexadecimal digits in lower case. */
  lemma Hex8Layout(n: nat)
    requires n < 4294967296
    ensures var h := Hex8(n);
            |h| == 8 && IsHex4(h[..4], n / 65536) && IsHex4(h[4..], n % 65536) &&
            forall i :: 0 <= i < 8 ==> !('A' <= h[i] as char <= 'Z')
  {
    hide HexDigits4;
    var hi, lo := HexDigits4(n / 65536), HexDigits4(n % 65536);
    assert Hex8(n)[..4] == hi && Hex8(n)[4..] == lo;
    LowerHex(n / 65536);
    LowerHex(n % 65536);
  }

  lemma LowerHex(n: nat)
    requires n < 65536
    ensures IsHex4(HexDigits4(n), n) && forall i :: 0 <= i < 4 ==> !('A' <= HexDigits4(n)[i] as char <= 'Z')
  {
    hide HexDigit, HexLetter;
    LowerLetter(n / 4096);
    LowerLetter(n / 256 % 16);
    LowerLetter(n / 16 % 16);
    LowerLetter(n % 16);
  }

  lemma LowerLetter(d: nat)
    requires d < 16
    ensures HexLetter(HexDigit(d), d) && !('A' <= HexDigit(d) as char <= 'Z')
  {
  }

  lemma KeyOrder()
    ensures Less(MTYPE_KEY, KEY_REQ) && Less(KEY_REQ, KEY_SEQUENCE) && Less(MTYPE_KEY, KEY_SEQUENCE)
    ensures Less(MTYPE_KEY, KEY_PEER_T) && Less(MTYPE_KEY, KEY_PID) && Less(MTYPE_KEY, KEY_T_AV)
    ensures Less(MTYPE_KEY, KEY_VER) && Less(KEY_PEER_T, KEY_PID) && Less(KEY_PEER_T, KEY_T_AV)
    ensures Less(KEY_PEER_T, KEY_VER) && Less(KEY_PID, KEY_T_AV) && Less(KEY_PID, KEY_VER)
    ensures Less(KEY_T_AV, KEY_VER)
  {
    assert KEY_PEER_T[1..][0] < KEY_PID[1..][0];
  }

  // ---------- What is accepted ----------

  predicate AcceptsSetup(body: bytes) {
    body != [] && Parse(body).Ok? &&
    AsInt(Field(Parse(body).value, MTYPE_KEY)) == MTYPE_CTRL_SETUP &&
    AsInt(Field(Parse(body).value, KEY_RESULT)) == 0
  }

  /** The members of a setup reply that opens the session: the message type without its fraction is
      12291, and a `result` that is a number has nothing in front of its fraction. */
  ghost predicate Accepting(m: seq<Member>) {
    (exists r :: Member(Ascii("mtype"), Number(r)) in m && 12291.0 <= r < 12292.0) &&
    forall r :: Member(Ascii("result"), Number(r)) in m ==> -1.0 < r < 1.0
  }

  lemma KeyIsMtype()
    ensures Ascii("mtype") == MTYPE_KEY
  {
  }

  lemma AcceptedMembers(body: bytes, m: seq<Member>)
    requires body != [] && Parse(body) == Ok(Object(m), |body|) && Sorted(m)
    ensures AcceptsSetup(body) <==> Accepting(m)
  {
    hide Parse, Field, AsInt;
    KeyIsMtype();
    KeyIsResult();
    var a, b := Field(Object(m), MTYPE_KEY), Field(Object(m), KEY_RESULT);
    FieldIff(m, MTYPE_KEY, a);
    FieldIff(m, KEY_RESULT, b);
    forall r | Member(MTYPE_KEY, Number(r)) in m ensures a == Number(r) { FieldIff(m, MTYPE_KEY, Number(r)); }
    forall r | Member(KEY_RESULT, Number(r)) in m ensures b == Number(r) { FieldIff(m, KEY_RESULT, Number(r)); }
    if a.Number? { AsIntIff(a.r, 12291); } else { NoNumber(a); }
    if b.Number? { AsIntIff(b.r, 0); } else { NoNumber(b); }
  }

  lemma OnlyObjectsAccepted(body: bytes)
    requires AcceptsSetup(body)
    ensures Parse(body).value.Object?
  {
    hide Parse;
  }

  /** A setup reply is accepted exactly when it is, in any spelling, an object with such members. */
  lemma SetupAcceptedIff(body: bytes)
    ensures AcceptsSetup(body) <==> exists m :: Writes(body, Object(m)) && Accepting(m)
  {
    hide AcceptsSetup, Parse, Writes, Accepting;
    if m :| Writes(body, Object(m)) && Accepting(m) {
      ParsedObject(body, m);
      NotEmpty(body);
      AcceptedMembers(body, m);
    }
    if AcceptsSetup(body) {
      OnlyObjectsAccepted(body);
      NotRefused(body);
      var m := Parse(body).value.members;
      ParsedObject(body, m);
      AcceptedMembers(body, m);
    }
  }

  lemma NotEmpty(body: bytes)
    requires Parse(body).Ok?
    ensures body != []
  {
  }

  lemma NotRefused(body: bytes)
    requires AcceptsSetup(body)
    ensures body != [] && Parse(body).Ok?
  {
  }

  /** For the printer's own spelling. */
  lemma PrintedSetupIff(m: seq<Member>)
    requires Printable(Object(m))
    ensures AcceptsSetup(Text(Object(m))) <==> Accepting(m)
  {
    hide AcceptsSetup, Parse, Accepting, Text;
    var body := Text(Object(m));
    DumpParses(Object(m));
    NotEmpty(body);
    AcceptedMembers(body, m);
  }

  /** The first header is a login reply and its frame has arrived; the length sum is 32-bit. */
  predicate HaveLoginAck(buf: bytes) {
    match ParseHeader(buf)
    case None => false
    case Some(h) => h.magic == MAGIC_LOGIN_SERVER && |buf| >= WrappedLen(h.payloadLen)
  }

  // ---------- The session as a state machine ----------

  datatype Sent = Sent(magic: nat, seqNo: nat, payload: bytes, delivered: bool)

  /** The session's own fields, and what has happened so far: every send attempt, every byte
      read, every body cut from the buffer, how many of those were cut with the login reply, and
      whether a cut has gone astray. */
  datatype State = State(seqNo: nat, phase: Phase, buf: bytes,
                         sent: seq<Sent>, got: bytes, taken: seq<bytes>, ackCut: nat, derailed: bool)

  function Start(seed: nat): State {
    State(seed % U32, NotStarted, [], [], [], [], 0, false)
  }

  function Send(s: State, magic: nat, payload: bytes, ok: bool): State {
    s.(seqNo := (s.seqNo + 1) % U32, sent := s.sent + [Sent(magic, s.seqNo, payload, ok)])
  }

  function Receive(s: State, chunk: bytes): State {
    s.(buf := s.buf + chunk, got := s.got + chunk)
  }

  function CutFrames(s: State): State {
    s.(buf := Rest(s.buf), taken := s.taken + Bodies(s.buf), derailed := s.derailed || !Tame(s.buf))
  }

  datatype Outcome = Outcome(s: State, code: int)

  function Fail(s: State): Outcome {
    Outcome(s.(phase := Failed), -1)
  }

  function LoginStep(s: State, cfg: Config, writeOk: bool): Outcome {
    var s' := Send(s, MAGIC_LOGIN_CLIENT, LoginPayload(cfg), writeOk);
    if writeOk then Outcome(s'.(phase := LoginSent), 1) else Fail(s')
  }

  function AckStep(s: State, cfg: Config, writeOk: bool, read: Read): Outcome
    requires s.seqNo < U32
  {
    match read
    case Gone => Fail(s)
    case Want => Outcome(s, 1)
    case Data(chunk) =>
      var s1 := Receive(s, chunk);
      if !HaveLoginAck(s1.buf) then Outcome(s1, 1)
      else
        var s2 := CutFrames(s1).(ackCut := |CutFrames(s1).taken|);
        var s3 := Send(s2, MAGIC_CTRL_CLIENT, SetupPayload(cfg, s2.seqNo), writeOk);
        if writeOk then Outcome(s3.(phase := SetupSent), 1) else Fail(s3)
  }

  const ATTEMPTS := 32

  /** From attempt `k` on: cut, look for the setup reply, read more. */
  function SetupSteps(s: State, input: seq<Read>, k: nat): Outcome
    requires k <= ATTEMPTS
    decreases ATTEMPTS - k
  {
    if k == ATTEMPTS then Outcome(s, 1)
    else
      var s1 := CutFrames(s);
      if exists i :: 0 <= i < |Bodies(s.buf)| && AcceptsSetup(Bodies(s.buf)[i])
      then Outcome(s1.(phase := Ready), 0)
      else match ReadAt(input, k)
        case Gone => Fail(s1)
        case Want => Outcome(s1, 1)
        case Data(chunk) => SetupSteps(Receive(s1, chunk), input, k + 1)
  }

  function Handshake(s: State, cfg: Config, writeOk: bool, input: seq<Read>): Outcome
    requires s.seqNo < U32
  {
    match s.phase
    case Ready => Outcome(s, 0)
    case Failed => Outcome(s, -1)
    case NotStarted => LoginStep(s, cfg, writeOk)
    case LoginSent => AckStep(s, cfg, writeOk, ReadAt(input, 0))
    case SetupSent => SetupSteps(s, input, 0)
  }

  datatype Received = Received(s: State, code: int, body: bytes)

  /** `recv_payload`: all complete frames are cut, the first one is returned. */
  function RecvPayload(s: State, input: seq<Read>): Received
    decreases |input|
  {
    var s1 := CutFrames(s);
    if Bodies(s.buf) != [] then Received(s1, 0, Bodies(s.buf)[0])
    else match ReadAt(input, 0)
      case Gone => Received(s1, -1, [])
      case Want => Received(s1, 1, [])
      case Data(chunk) => RecvPayload(Receive(s1, chunk), input[1..])
  }

  /** What a user of the session may call. */
  datatype Op =
    | DoHandshake(cfg: Config, writeOk: bool, input: seq<Read>)
    | DoSend(abi: bytes, writeOk: bool)
    | DoRecv(input: seq<Read>)
    | DoDrain

  function Step(s: State, op: Op): State
    requires s.seqNo < U32
  {
    match op
    case DoHandshake(cfg, w, r) => Handshake(s, cfg, w, r).s
    case DoSend(abi, w) => Send(s, MAGIC_CTRL_CLIENT, Wrap(abi), w)
    case DoRecv(r) => RecvPayload(s, r).s
    case DoDrain => CutFrames(s)
  }

  // ---------- What the polling for the setup reply decides ----------

  /** What `n` reads from the `k`-th on bring. */
  function Chunks(input: seq<Read>, k: nat, n: nat): bytes
    decreases n
  {
    if n == 0 then []
    else (if ReadAt(input, k).Data? then ReadAt(input, k).chunk else []) + Chunks(input, k + 1, n - 1)
  }

  /** The call makes at most 32 reads and cuts what it can; it ends ready exactly when one of the bodies
      it has cut is an accepting setup reply, and gives up early only when a read brings nothing. */
  lemma {:induction false} SetupDecides(s: State, input: seq<Read>, k: nat) returns (n: nat)
    requires s.phase == SetupSent && k <= 32
    ensures k + n <= 32 && forall i :: k <= i < k + n ==> ReadAt(input, i).Data?
    ensures var r := SetupSteps(s, input, k);
            r.s.got == s.got + Chunks(input, k, n) && s.taken <= r.s.taken &&
            r.code == (match r.s.phase case Ready => 0 case SetupSent => 1 case _ => -1) &&
            (r.s.phase == Ready <==> exists j :: |s.taken| <= j < |r.s.taken| && AcceptsSetup(r.s.taken[j])) &&
            (r.s.phase == SetupSent ==> k + n == 32 || ReadAt(input, k + n) == Want) &&
            (r.s.phase != Ready && r.s.phase != SetupSent ==> ReadAt(input, k + n) == Gone)
    decreases 32 - k
  {
    hide Bodies, Rest, AcceptsSetup, Tame, ReadAt;
    n := 0;
    if k < 32 {
      var s1, b := CutFrames(s), Bodies(s.buf);
      if i :| 0 <= i < |b| && AcceptsSetup(b[i]) {
        assert s1.taken[|s.taken| + i] == b[i];
      } else {
        assert forall j :: |s.taken| <= j < |s1.taken| ==> s1.taken[j] == b[j - |s.taken|];
        match ReadAt(input, k) {
          case Data(chunk) =>
            n := SetupDecides(Receive(s1, chunk), input, k + 1);
            n := n + 1;
            assert s.got + chunk + Chunks(input, k + 1, n - 1) == s.got + (chunk + Chunks(input, k + 1, n - 1));
          case _ =>
        }
      }
    }
  }

  /** A buffer of whole frames: with an accepting reply among their bodies the next call ends ready; with
      none of them, and nothing more to read, it goes on waiting. */
  lemma BufferedSetup(s: State, fs: seq<Frame>, input: seq<Read>)
    requires s.phase == SetupSent && AllSendable(fs) && s.buf == Stream(fs)
    ensures (exists i :: 0 <= i < |fs| && AcceptsSetup(fs[i].body)) ==>
              SetupSteps(s, input, 0).code == 0 && SetupSteps(s, input, 0).s.phase == Ready
    ensures (forall i :: 0 <= i < |fs| ==> !AcceptsSetup(fs[i].body)) && ReadAt(input, 0) == Want ==>
              SetupSteps(s, input, 0).code == 1 && SetupSteps(s, input, 0).s.phase == SetupSent
  {
    hide Bodies, Rest, AcceptsSetup, Stream, BodiesOf;
    StreamReadsBack(fs);
    forall i | 0 <= i < |fs| ensures i < |BodiesOf(fs)| && BodiesOf(fs)[i] == fs[i].body { BodyAt(fs, i); }
    BodyCount(fs);
  }

  lemma {:induction false} BodyAt(fs: seq<Frame>, i: nat)
    requires i < |fs|
    ensures i < |BodiesOf(fs)| && BodiesOf(fs)[i] == fs[i].body
    decreases |fs|
  {
    if i > 0 { BodyAt(fs[1..], i - 1); }
  }

  lemma {:induction false} BodyCount(fs: seq<Frame>)
    ensures |BodiesOf(fs)| == |fs|
    decreases |fs|
  {
    if fs != [] { BodyCount(fs[1..]); }
  }

  // ---------- Invariant of every run ----------

  ghost predicate Numbered(seed: nat, s: State) {
    s.seqNo == (seed + |s.sent|) % U32 &&
    forall i :: 0 <= i < |s.sent| ==> s.sent[i].seqNo == (seed + i) % U32
  }

  ghost predicate AckHeads(got: bytes) {
    ParseHeader(got).Some? && ParseHeader(got).value.magic == 0x0001013F
  }

  /** No byte is lost or made up by the buffer. */
  ghost predicate Conserved(s: State) {
    s.taken + Bodies(s.buf) == Bodies(s.got) && Rest(s.buf) == Rest(s.got)
  }

  /** A cut has gone astray, or the next one will, exactly when some header at a frame boundary
      of what was received announces too much. */
  ghost predicate Watched(s: State) {
    (s.derailed || !Tame(s.buf)) <==> !Tame(s.got)
  }

  /** The setup request went out behind a login reply that was really taken. */
  ghost predicate LoginTaken(s: State) {
    |s.sent| >= 2 ==> 1 <= s.ackCut <= |s.taken|
  }

  /** Login first and once; then, behind the login reply, setup once; commands after that. */
  ghost predicate SentInOrder(s: State) {
    match s.phase
    case NotStarted => s.sent == []
    case LoginSent => |s.sent| == 1 && s.sent[0].magic == 0x0101013F && s.sent[0].delivered
    case SetupSent => |s.sent| == 2 && Opened(s)
    case Ready =>
      (|s.sent| >= 2 && Opened(s) &&
       forall i :: 2 <= i < |s.sent| ==> s.sent[i].magic == 0x0102013F)
    case Failed =>
      (1 <= |s.sent| <= 2 && s.sent[0].magic == 0x0101013F &&
       (|s.sent| == 2 ==> s.sent[1].magic == 0x0102013F && AckHeads(s.got)))
  }

  ghost predicate Opened(s: State)
    requires |s.sent| >= 2
  {
    s.sent[0].magic == 0x0101013F && s.sent[0].delivered &&
    s.sent[1].magic == 0x0102013F && s.sent[1].delivered &&
    AckHeads(s.got) && s.ackCut <= |s.taken|
  }

  /** What goes out: a login, a setup request that carries its own frame's sequence number or the
      client's id, then wrapped commands. */
  ghost predicate Payloads(s: State) {
    (|s.sent| > 0 ==> IsLogin(s.sent[0].payload)) &&
    (|s.sent| > 1 ==> IsSetup(s.sent[1])) &&
    forall i :: 2 <= i < |s.sent| ==> IsCommand(s.sent[i].payload)
  }

  ghost predicate IsLogin(payload: bytes) {
    exists cfg :: payload == LoginPayload(cfg)
  }

  ghost predicate IsSetup(m: Sent) {
    m.seqNo < U32 && exists cfg :: m.payload == SetupPayload(cfg, m.seqNo)
  }

  ghost predicate IsCommand(payload: bytes) {
    exists abi :: payload == Wrap(abi)
  }

  /** A ready session has seen, after the frames of the login reply, an accepting setup reply. */
  ghost predicate ReadyIsEarned(s: State) {
    s.phase == Ready ==>
      exists k :: s.ackCut <= k < |s.taken| && AcceptsSetup(s.taken[k])
  }

  ghost predicate Inv(seed: nat, s: State) {
    Numbered(seed, s) && Conserved(s) && Watched(s) && SentInOrder(s) && ReadyIsEarned(s) &&
    (!s.derailed ==> LoginTaken(s)) &&
    (s.phase == NotStarted ==> s.got == [] && s.buf == []) &&
    (s.phase == LoginSent ==> s.buf == s.got && s.taken == [])
  }

  lemma StartInv(seed: nat)
    ensures Inv(seed, Start(seed))
  {
    TooShort([]);
  }

  lemma CutConserves(s: State)
    requires Conserved(s) && Watched(s)
    ensures Conserved(CutFrames(s)) && Watched(CutFrames(s))
  {
    hide Bodies, Rest, Tame;
    RestIsCut(s.buf);
    if Tame(s.buf) { RestIsTame(s.buf); }
    assert s.taken + Bodies(s.buf) + [] == Bodies(s.got);
  }

  /** Behind a cut that stayed inside, the next header is harmless until more arrives. */
  lemma {:induction false} RestIsTame(s: bytes)
    requires Tame(s)
    ensures Tame(Rest(s))
    decreases |s|
  {
    hide FrameLen, Derails;
    match FrameLen(s) {
      case None =>
      case Some(n) => RestIsTame(s[n..]);
    }
  }

  lemma ReceiveConserves(s: State, chunk: bytes)
    requires Conserved(s) && Watched(s)
    ensures Conserved(Receive(s, chunk)) && Watched(Receive(s, chunk))
  {
    hide Bodies, Rest, Tame;
    TameSplit(s.buf, chunk);
    TameSplit(s.got, chunk);
    BodiesSplit(s.buf, chunk);
    BodiesSplit(s.got, chunk);
    var m := Bodies(Rest(s.buf) + chunk);
    assert s.taken + (Bodies(s.buf) + m) == s.taken + Bodies(s.buf) + m;
  }

  lemma NextNumber(x: nat)
    ensures (x + 1) % U32 == (x % U32 + 1) % U32
  {
    var r := x % U32 + 1;
    assert x + 1 == x / U32 * U32 + r;
    if r == U32 { assert x + 1 == (x / U32 + 1) * U32; }
  }

  lemma SendNumbers(seed: nat, s: State, magic: nat, payload: bytes, ok: bool)
    requires Numbered(seed, s)
    ensures Numbered(seed, Send(s, magic, payload, ok))
  {
    NextNumber(seed + |s.sent|);
  }

  lemma AckStays(got: bytes, more: bytes)
    requires AckHeads(got)
    ensures AckHeads(got + more)
  {
    assert forall i :: 0 <= i < 16 ==> (got + more)[i] == got[i];
  }

  lemma {:induction false} SetupStepsInv(seed: nat, s: State, input: seq<Read>, k: nat)
    requires Inv(seed, s) && s.phase == SetupSent && k <= ATTEMPTS
    ensures Inv(seed, SetupSteps(s, input, k).s)
    decreases ATTEMPTS - k
  {
    hide Bodies, Rest, AcceptsSetup, AckHeads, Conserved;
    if k < ATTEMPTS {
      var s1 := CutFrames(s);
      CutConserves(s);
      var b := Bodies(s.buf);
      if i :| 0 <= i < |b| && AcceptsSetup(b[i]) {
        assert s1.taken[|s.taken| + i] == b[i];
        ConservedPhase(s1, Ready);
      } else {
        match ReadAt(input, k) {
          case Gone => ConservedPhase(s1, Failed);
          case Want =>
          case Data(chunk) =>
            ReceiveConserves(s1, chunk);
            AckStays(s.got, chunk);
            SetupStepsInv(seed, Receive(s1, chunk), input, k + 1);
        }
      }
    }
  }

  lemma ConservedPhase(s: State, p: Phase)
    requires Conserved(s) && Watched(s)
    ensures Conserved(s.(phase := p)) && Watched(s.(phase := p))
  {
  }

  /** Unless its length wraps, a login reply counts as one only when its frame is complete. */
  lemma AckIsFrame(buf: bytes)
    requires HaveLoginAck(buf)
    ensures AckHeads(buf)
    ensures Tame(buf) ==> Bodies(buf) != []
  {
    hide ReadU32;
    DerailsIff(buf);
    Wraps(ReadU32(buf, 0));
  }

  /** What counts as a login reply, as long as no length wraps: a complete frame with the server's
      login magic. */
  lemma AckIff(buf: bytes)
    requires Tame(buf)
    ensures HaveLoginAck(buf) <==> AckHeads(buf) && Bodies(buf) != []
  {
    hide ReadU32;
    DerailsIff(buf);
    if |buf| >= 16 { Wraps(ReadU32(buf, 0)); }
  }

  /** The code of a call says where the handshake stands. */
  lemma HandshakeCode(s: State, cfg: Config, writeOk: bool, input: seq<Read>)
    requires s.seqNo < U32
    ensures var r := Handshake(s, cfg, writeOk, input);
            r.code == (match r.s.phase case Ready => 0 case Failed => -1 case _ => 1)
  {
    hide SetupSteps, HaveLoginAck, SetupPayload, LoginPayload, Bodies, Rest, Tame;
    if s.phase == SetupSent {
      var n := SetupDecides(s, input, 0);
      var r := SetupSteps(s, input, 0);
      SetupEnds(s, input, 0);
    }
  }

  lemma {:induction false} SetupEnds(s: State, input: seq<Read>, k: nat)
    requires s.phase == SetupSent && k <= 32
    ensures SetupSteps(s, input, k).s.phase in {Ready, SetupSent, Failed}
    decreases 32 - k
  {
    hide Bodies, Rest, AcceptsSetup, Tame;
    if k < 32 && ReadAt(input, k).Data? { SetupEnds(Receive(CutFrames(s), ReadAt(input, k).chunk), input, k + 1); }
  }

  /** A printer that answers the login with a frame of its kind and the setup with an accepting reply
      gets a ready session in three calls. */
  lemma HandshakeCompletes(seed: nat, cfg: Config, ack: Frame, reply: Frame)
    requires Sendable(ack) && Sendable(reply) && ack.magic == 0x0001013F && AcceptsSetup(reply.body)
    ensures var s1 := Handshake(Start(seed), cfg, true, []).s;
            var s2 := Handshake(s1, cfg, true, [Data(Encode(ack))]).s;
            var r := Handshake(s2, cfg, true, [Data(Encode(reply))]);
            s1.phase == LoginSent && s2.phase == SetupSent && r.s.phase == Ready && r.code == 0 &&
            r.s.taken == [ack.body, reply.body] && r.s.buf == []
  {
    hide Bodies, Rest, AcceptsSetup, AckHeads, LoginPayload, Encode, Tame, AckStep, SetupSteps;
    var s1 := Handshake(Start(seed), cfg, true, []).s;
    OneFrame(ack);
    OneFrame(reply);
    AckArrives(s1, cfg, Encode(ack), ack.body);
    SetupArrives(AckStep(s1, cfg, true, Data(Encode(ack))).s, Encode(reply), reply.body);
  }

  lemma AckArrives(s: State, cfg: Config, chunk: bytes, body: bytes)
    requires s.phase == LoginSent && s.buf == [] && s.taken == [] && s.seqNo < U32
    requires Bodies(chunk) == [body] && Rest(chunk) == [] && AckHeads(chunk) && Tame(chunk)
    ensures var t := AckStep(s, cfg, true, Data(chunk)).s;
            t.phase == SetupSent && t.taken == [body] && t.buf == [] && t.seqNo < U32
  {
    hide Bodies, Rest, AckHeads, HaveLoginAck, SetupPayload, Tame;
    assert [] + chunk == chunk;
    AckIff(chunk);
  }

  lemma OneFrame(f: Frame)
    requires Sendable(f)
    ensures var t := Encode(f);
            Bodies(t) == [f.body] && Rest(t) == [] && Tame(t) && (AckHeads(t) <==> f.magic == 0x0001013F)
  {
    hide Encode, Bodies, Rest, Tame, BuildHeader, ReadU32;
    assert Stream([f]) == Encode(f) by { assert [f][1..] == [] && Encode(f) + [] == Encode(f); }
    StreamReadsBack([f]);
    assert BodiesOf([f]) == [f.body] by { assert [f][1..] == []; }
    EncodedHeader(f);
  }

  lemma EncodedHeader(f: Frame)
    requires Sendable(f)
    ensures ParseHeader(Encode(f)) == Some(FrameHeader(|f.body|, f.magic, f.seqNo))
  {
    hide BuildHeader, ParseHeader;
    HeaderReadsBack(FrameHeader(|f.body|, f.magic, f.seqNo), f.body);
  }

  lemma SetupArrives(s: State, chunk: bytes, body: bytes)
    requires s.phase == SetupSent && s.buf == [] && Bodies(chunk) == [body] && Rest(chunk) == [] && AcceptsSetup(body)
    ensures var r := SetupSteps(s, [Data(chunk)], 0);
            r.s.phase == Ready && r.code == 0 && r.s.taken == s.taken + [body] && r.s.buf == []
  {
    hide Bodies, Rest, AcceptsSetup, Tame;
    TooShort([]);
    NoBodies([]);
    var s1 := Receive(CutFrames(s), chunk);
    assert s.taken + [] == s.taken && [] + chunk == chunk;
    assert s1.buf == chunk && s1.taken == s.taken;
    assert Bodies(s1.buf)[0] == body;
    assert SetupSteps(s1, [Data(chunk)], 1) == Outcome(CutFrames(s1).(phase := Ready), 0);
  }

  lemma AckStepInv(seed: nat, s: State, cfg: Config, writeOk: bool, read: Read)
    requires Inv(seed, s) && s.phase == LoginSent
    ensures Inv(seed, AckStep(s, cfg, writeOk, read).s)
  {
    hide Bodies, Rest, SetupPayload, ReadU32, Tame, HaveLoginAck;
    match read {
      case Gone =>
      case Want =>
      case Data(chunk) =>
        var s1 := Receive(s, chunk);
        ReceiveConserves(s, chunk);
        if HaveLoginAck(s1.buf) {
          var s2 := CutFrames(s1).(ackCut := |CutFrames(s1).taken|);
          CutConserves(s1);
          AckIsFrame(s1.buf);
          SendNumbers(seed, s2, MAGIC_CTRL_CLIENT, SetupPayload(cfg, s2.seqNo), writeOk);
        }
    }
  }

  lemma {:induction false} RecvInv(seed: nat, s: State, input: seq<Read>)
    requires Inv(seed, s) && s.phase == Ready
    ensures Inv(seed, RecvPayload(s, input).s) && RecvPayload(s, input).s.phase == Ready
    decreases |input|
  {
    hide Bodies, Rest, AcceptsSetup, AckHeads, Conserved;
    CutReady(seed, s);
    var s1 := CutFrames(s);
    if Bodies(s.buf) == [] {
      match ReadAt(input, 0) {
        case Gone =>
        case Want =>
        case Data(chunk) =>
          ReceiveConserves(s1, chunk);
          AckStays(s.got, chunk);
          RecvInv(seed, Receive(s1, chunk), input[1..]);
      }
    }
  }

  lemma CutReady(seed: nat, s: State)
    requires Inv(seed, s) && s.phase == Ready
    ensures Inv(seed, CutFrames(s))
  {
    hide Bodies, Rest, AcceptsSetup, AckHeads, Conserved;
    CutConserves(s);
    var k :| s.ackCut <= k < |s.taken| && AcceptsSetup(s.taken[k]);
    assert CutFrames(s).taken[k] == s.taken[k];
  }

  /** Every step keeps the invariant; sending, receiving and draining are for ready sessions. */
  lemma StepInv(seed: nat, s: State, op: Op)
    requires Inv(seed, s) && (op.DoHandshake? || s.phase == Ready)
    ensures Inv(seed, Step(s, op))
  {
    hide Bodies, Rest, AcceptsSetup, AckHeads, AckStep, SetupSteps, RecvPayload, LoginPayload;
    match op {
      case DoHandshake(cfg, w, r) =>
        match s.phase {
          case NotStarted => SendNumbers(seed, s, MAGIC_LOGIN_CLIENT, LoginPayload(cfg), w);
          case LoginSent => AckStepInv(seed, s, cfg, w, ReadAt(r, 0));
          case SetupSent => SetupStepsInv(seed, s, r, 0);
          case _ =>
        }
      case DoSend(abi, w) => SendNumbers(seed, s, MAGIC_CTRL_CLIENT, Wrap(abi), w);
      case DoRecv(r) => RecvInv(seed, s, r);
      case DoDrain => CutReady(seed, s);
    }
  }

  function Rank(p: Phase): nat {
    match p
    case NotStarted => 0
    case LoginSent => 1
    case SetupSent => 2
    case Ready => 3
    case Failed => 4
  }

  /** Phases move forward one at a time or to Failed; Ready and Failed are final. */
  ghost predicate PhaseStep(p: Phase, q: Phase) {
    p == q || (p != Ready && p != Failed && (q == Failed || Rank(q) == Rank(p) + 1))
  }

  lemma {:induction false} SetupStepsPhase(s: State, input: seq<Read>, k: nat)
    requires k <= ATTEMPTS && s.phase == SetupSent
    ensures PhaseStep(SetupSent, SetupSteps(s, input, k).s.phase)
    decreases ATTEMPTS - k
  {
    hide Bodies, Rest, AcceptsSetup;
    if k < ATTEMPTS {
      match ReadAt(input, k) {
        case Data(chunk) => SetupStepsPhase(Receive(CutFrames(s), chunk), input, k + 1);
        case _ =>
      }
    }
  }

  lemma StepPhase(seed: nat, s: State, op: Op)
    requires Inv(seed, s) && (op.DoHandshake? || s.phase == Ready)
    ensures PhaseStep(s.phase, Step(s, op).phase)
  {
    hide Bodies, Rest, AcceptsSetup, SetupSteps, RecvPayload, SetupPayload, LoginPayload, HaveLoginAck;
    match op {
      case DoHandshake(_, _, r) =>
        if s.phase == SetupSent { SetupStepsPhase(s, r, 0); }
      case DoRecv(r) => RecvInv(seed, s, r);
      case _ =>
    }
  }

  lemma {:induction false} SetupStepsSent(s: State, input: seq<Read>, k: nat)
    requires k <= ATTEMPTS
    ensures SetupSteps(s, input, k).s.sent == s.sent
    decreases ATTEMPTS - k
  {
    hide Bodies, Rest, AcceptsSetup, Tame;
    if k < ATTEMPTS {
      match ReadAt(input, k) {
        case Data(chunk) => SetupStepsSent(Receive(CutFrames(s), chunk), input, k + 1);
        case _ =>
      }
    }
  }

  lemma {:induction false} RecvSent(s: State, input: seq<Read>)
    ensures RecvPayload(s, input).s.sent == s.sent
    decreases |input|
  {
    hide Bodies, Rest, Tame;
    match ReadAt(input, 0) {
      case Data(chunk) => RecvSent(Receive(CutFrames(s), chunk), input[1..]);
      case _ =>
    }
  }

  lemma SentPayload(s: State, t: State, m: Sent)
    requires Payloads(s) && t.sent == s.sent + [m]
    requires s.sent == [] ==> IsLogin(m.payload)
    requires |s.sent| == 1 ==> IsSetup(m)
    requires |s.sent| >= 2 ==> IsCommand(m.payload)
    ensures Payloads(t)
  {
    hide IsLogin, IsSetup, IsCommand;
  }

  /** Every step sends what its place in the handshake calls for. */
  lemma StepPayloads(s: State, op: Op)
    requires SentInOrder(s) && Payloads(s) && s.seqNo < U32 && (op.DoHandshake? || s.phase == Ready)
    ensures Payloads(Step(s, op))
  {
    hide Bodies, Rest, AcceptsSetup, SetupSteps, RecvPayload, SetupPayload, LoginPayload, HaveLoginAck, Wrap, Tame;
    hide IsLogin, IsSetup, IsCommand;
    match op {
      case DoHandshake(cfg, w, r) =>
        match s.phase {
          case NotStarted =>
            var m := Sent(MAGIC_LOGIN_CLIENT, s.seqNo, LoginPayload(cfg), w);
            LoginIsLogin(cfg);
            SentPayload(s, Step(s, op), m);
          case LoginSent =>
            var m := Sent(MAGIC_CTRL_CLIENT, s.seqNo, SetupPayload(cfg, s.seqNo), w);
            SetupIsSetup(cfg, m);
            if Step(s, op).sent != s.sent { SentPayload(s, Step(s, op), m); }
          case SetupSent => SetupStepsSent(s, r, 0);
          case _ =>
        }
      case DoSend(abi, w) =>
        WrapIsCommand(abi);
        SentPayload(s, Step(s, op), Sent(MAGIC_CTRL_CLIENT, s.seqNo, Wrap(abi), w));
      case DoRecv(r) => RecvSent(s, r);
      case DoDrain =>
    }
  }

  lemma LoginIsLogin(cfg: Config)
    ensures IsLogin(LoginPayload(cfg))
  {
  }

  lemma SetupIsSetup(cfg: Config, m: Sent)
    requires m.seqNo < U32 && m.payload == SetupPayload(cfg, m.seqNo)
    ensures IsSetup(m)
  {
  }

  lemma WrapIsCommand(abi: bytes)
    ensures IsCommand(Wrap(abi))
  {
  }

  /** The states a run passes through, when commands are used on a ready session only. */
  ghost predicate IsRun(seed: nat, ops: seq<Op>, states: seq<State>) {
    |states| == |ops| + 1 && states[0] == Start(seed) &&
    forall i :: 0 <= i < |ops| ==>
      states[i].seqNo < U32 && states[i + 1] == Step(states[i], ops[i]) &&
      (ops[i].DoHandshake? || states[i].phase == Ready)
  }

  lemma NothingSent(seed: nat)
    ensures Payloads(Start(seed))
  {
  }

  lemma InvOrder(seed: nat, s: State)
    requires Inv(seed, s)
    ensures SentInOrder(s)
  {
  }

  /** The model's invariant along every run. */
  lemma {:induction false} RunInv(seed: nat, ops: seq<Op>, states: seq<State>, n: nat)
    requires IsRun(seed, ops, states) && n <= |ops|
    ensures Inv(seed, states[n]) && Payloads(states[n])
    ensures n > 0 ==> PhaseStep(states[n - 1].phase, states[n].phase)
    decreases n
  {
    hide Step, Inv, PhaseStep, Payloads;
    if n == 0 {
      StartInv(seed);
      assert Payloads(states[0]) by { NothingSent(seed); }
    } else {
      RunInv(seed, ops, states, n - 1);
      InvOrder(seed, states[n - 1]);
      StepPayloads(states[n - 1], ops[n - 1]);
      StepInv(seed, states[n - 1], ops[n - 1]);
      StepPhase(seed, states[n - 1], ops[n - 1]);
    }
  }

  /** Safety of every run: a cut has gone astray or will with the next one exactly when the bytes
      received announce a frame of 2^32 - 16 bytes or more, and until then the state satisfies the
      invariant and the last step moved the phase forward. */
  lemma RunIsSafe(seed: nat, ops: seq<Op>, states: seq<State>, n: nat)
    requires IsRun(seed, ops, states) && n <= |ops|
    ensures var s := states[n];
            (s.derailed || !Tame(s.buf)) <==>
              exists i :: 0 <= i < |Announced(s.got)| && Announced(s.got)[i] >= LENGTH_LIMIT
    ensures !states[n].derailed ==>
              Inv(seed, states[n]) && LoginTaken(states[n]) && Payloads(states[n]) &&
              (n > 0 ==> PhaseStep(states[n - 1].phase, states[n].phase))
  {
    hide PhaseStep, Tame, Announced, Numbered, Conserved, SentInOrder, ReadyIsEarned, LoginTaken, Payloads;
    RunInv(seed, ops, states, n);
    TameIff(states[n].got);
  }

  /** In any run login is attempted at most once and so is setup, whose attempt follows a login
      reply that heads everything received and has been taken. */
  lemma HandshakeSendsOnce(seed: nat, ops: seq<Op>, states: seq<State>, n: nat)
    requires IsRun(seed, ops, states) && n <= |ops| && !states[n].derailed
    ensures var s := states[n];
            (forall i :: 0 <= i < |s.sent| && s.sent[i].magic == MAGIC_LOGIN_CLIENT ==> i == 0) &&
            (|s.sent| > 1 ==>
               AckHeads(s.got) && s.taken != [] && Bodies(s.got) != [] && s.taken[0] == Bodies(s.got)[0]) &&
            (s.phase != Ready ==> |s.sent| <= 2)
  {
    hide IsRun, AckHeads, Numbered, Bodies, Rest, ReadyIsEarned, Watched, Payloads;
    RunInv(seed, ops, states, n);
  }

  /** A lone header of the login reply's kind that announces 2^32 - 16 bytes passes for a complete
      login reply, and cutting it goes astray. */
  lemma WrappedReplyDerails(s: State, cfg: Config, writeOk: bool, seqNo: nat)
    requires s.buf == [] && s.seqNo < U32 && seqNo < U32
    ensures var h := BuildHeader(FrameHeader(LENGTH_LIMIT, MAGIC_LOGIN_SERVER, seqNo));
            HaveLoginAck(h) && Bodies(h) == [] && AckStep(s, cfg, writeOk, Data(h)).s.derailed
  {
    hide BuildHeader, ReadU32, Bodies, Rest, SetupPayload, Tame, FrameLen;
    var f := FrameHeader(LENGTH_LIMIT, MAGIC_LOGIN_SERVER, seqNo);
    var h := BuildHeader(f);
    WrappedHeader(MAGIC_LOGIN_SERVER, seqNo);
    HeaderReadsBack(f, []);
    assert h + [] == h && [] + h == h;
    assert Bodies(h) == [] by { NoBodies(h); }
  }

  lemma NoBodies(h: bytes)
    requires FrameLen(h) == None
    ensures Bodies(h) == [] && Rest(h) == h
  {
    hide FrameLen;
  }

  // ---------- recv_payload can lose frames ----------

  /** The body handed out, if any. */
  function HandedOut(r: Received): seq<bytes> {
    if r.code == 0 then [r.body] else []
  }

  /** From every state and for every input: `recv_payload` cuts some bodies `bs`, hands out the
      first of them, leaves none in the buffer, and so keeps everything exactly when it cut at
      most one. */
  lemma {:induction false} RecvKeepsAllIff(s: State, input: seq<Read>) returns (bs: seq<bytes>)
    ensures var r := RecvPayload(s, input);
            r.s.taken == s.taken + bs && Bodies(r.s.buf) == [] &&
            (r.code == 0 <==> bs != []) && (bs != [] ==> r.body == bs[0])
    ensures var r := RecvPayload(s, input); HandedOut(r) == bs <==> |bs| <= 1
    decreases |input|
  {
    hide Bodies, Rest, Tame;
    RestIsCut(s.buf);
    if Bodies(s.buf) != [] {
      bs := Bodies(s.buf);
    } else {
      bs := [];
      assert s.taken + [] == s.taken;
      match ReadAt(input, 0) {
        case Data(chunk) => bs := RecvKeepsAllIff(Receive(CutFrames(s), chunk), input[1..]);
        case _ =>
      }
    }
  }

  /** It reads until a body comes, and gives up only on a read that brings nothing. */
  lemma {:induction false} RecvReads(s: State, input: seq<Read>) returns (n: nat)
    ensures forall i :: 0 <= i < n ==> ReadAt(input, i).Data?
    ensures var r := RecvPayload(s, input);
            r.s.got == s.got + Chunks(input, 0, n) &&
            (r.code == 0 || (r.code == 1 && ReadAt(input, n) == Want) || (r.code == -1 && ReadAt(input, n) == Gone))
    decreases |input|
  {
    hide Bodies, Rest, Tame;
    n := 0;
    if Bodies(s.buf) == [] && ReadAt(input, 0).Data? {
      var chunk := ReadAt(input, 0).chunk;
      n := RecvReads(Receive(CutFrames(s), chunk), input[1..]);
      ChunksBehind(input, 0, n);
      n := n + 1;
      assert s.got + chunk + Chunks(input[1..], 0, n - 1) == s.got + (chunk + Chunks(input[1..], 0, n - 1));
      forall i | 0 <= i < n ensures ReadAt(input, i).Data? {
        if i > 0 { assert ReadAt(input, i) == ReadAt(input[1..], i - 1); }
      }
    }
  }

  lemma {:induction false} ChunksBehind(input: seq<Read>, k: nat, n: nat)
    requires input != []
    ensures Chunks(input[1..], k, n) == Chunks(input, k + 1, n)
    decreases n
  {
    if n > 0 { ChunksBehind(input, k + 1, n - 1); }
  }

  /** Two replies in one read: the second one is gone. */
  lemma RecvLosesSecond(a: Frame, b: Frame)
    requires Sendable(a) && Sendable(b)
    ensures var r := RecvPayload(Start(0), [Data(Stream([a, b]))]);
            r.code == 0 && r.body == a.body && Bodies(r.s.buf) == []
  {
    hide Bodies, Rest, Encode, Stream, RecvPayload, BodiesOf, Tame;
    var all := Stream([a, b]);
    StreamReadsBack([a, b]);
    TwoBodies(a, b);
    RecvEmpty(Start(0), all);
    var bs := RecvKeepsAllIff(Start(0), [Data(all)]);
    var none := Start(0).taken;
    assert none == [] && none + bs == bs && none + Bodies(all) == Bodies(all);
  }

  lemma TwoBodies(a: Frame, b: Frame)
    ensures BodiesOf([a, b]) == [a.body, b.body]
  {
    assert [a, b][1..] == [b] && [b][1..] == [];
    assert BodiesOf([b]) == [b.body] + [];
  }

  lemma RecvEmpty(s: State, chunk: bytes)
    requires s.buf == []
    ensures RecvPayload(s, [Data(chunk)]) == RecvPayload(Receive(CutFrames(s), chunk), [])
    ensures Receive(CutFrames(s), chunk).buf == chunk
    ensures Bodies(chunk) != [] ==>
              RecvPayload(s, [Data(chunk)]).s.buf == Rest(chunk) &&
              RecvPayload(s, [Data(chunk)]).s.taken == s.taken + Bodies(chunk)
  {
    hide Bodies, Rest, Tame;
    TooShort([]);
    NoBodies([]);
    assert [Data(chunk)][1..] == [];
    assert [] + chunk == chunk;
    assert s.taken + [] == s.taken;
  }

  /** A second cut finds nothing. */
  lemma CutTwice(s: State)
    ensures var t := CutFrames(s); Bodies(t.buf) == [] && CutFrames(t) == t
  {
    hide Bodies, Rest, Tame;
    RestIsCut(s.buf);
    if Tame(s.buf) { RestIsTame(s.buf); }
  }

  // ---------- The object ----------

  class Tunnel {
    var seqNo: nat
    var phase: Phase
    var recvBuf: bytes
    ghost var sent: seq<Sent>
    ghost var got: bytes
    ghost var taken: seq<bytes>
    ghost var ackCut: nat
    ghost var derailed: bool

    ghost function View(): State
      reads this
    {
      State(seqNo, phase, recvBuf, sent, got, taken, ackCut, derailed)
    }

    constructor (seed: nat)
      ensures View() == Start(seed)
    {
      seqNo, phase, recvBuf := seed % U32, NotStarted, [];
      sent, got, taken, ackCut, derailed := [], [], [], 0, false;
    }

    method SendFrame(magic: nat, payload: bytes, writeOk: bool) returns (rc: int)
      modifies this
      ensures View() == Send(old(View()), magic, payload, writeOk)
      ensures rc == if writeOk then 0 else -1
    {
      sent := sent + [Sent(magic, seqNo, payload, writeOk)];
      seqNo := (seqNo + 1) % U32;
      rc := if writeOk then 0 else -1;
    }

    method TryReadFrames(read: Read) returns (rc: int)
      modifies this
      ensures View() == if read.Data? then Receive(old(View()), read.chunk) else old(View())
      ensures rc == if read.Data? then 0 else if read.Want? then 1 else -1
    {
      match read
      case Want => rc := 1;
      case Gone => rc := -1;
      case Data(chunk) =>
        recvBuf := recvBuf + chunk;
        got := got + chunk;
        rc := 0;
    }

    method TakeFrames() returns (bodies: seq<bytes>)
      modifies this
      ensures bodies == Bodies(old(recvBuf)) && View() == CutFrames(old(View()))
    {
      hide Bodies, Rest;
      hide Tame;
      var consumed, astray;
      bodies, consumed, astray := ConsumeFrames(recvBuf);
      recvBuf := recvBuf[consumed..];
      taken := taken + bodies;
      derailed := derailed || astray;
    }

    method HandshakeStep(cfg: Config, writeOk: bool, input: seq<Read>) returns (rc: int)
      requires seqNo < U32
      modifies this
      ensures Outcome(View(), rc) == Handshake(old(View()), cfg, writeOk, input)
    {
      hide Bodies, Rest, SetupSteps, HaveLoginAck;
      if phase == Ready { return 0; }
      if phase == Failed { return -1; }
      if phase == NotStarted {
        rc := SendFrame(MAGIC_LOGIN_CLIENT, LoginPayload(cfg), writeOk);
        if rc != 0 { phase := Failed; return -1; }
        phase := LoginSent;
        return 1;
      }
      if phase == LoginSent {
        rc := TryReadFrames(ReadAt(input, 0));
        if rc < 0 { phase := Failed; return -1; }
        if rc > 0 || !HaveLoginAck(recvBuf) { return 1; }
        var bodies := TakeFrames();
        ackCut := |taken|;
        rc := SendFrame(MAGIC_CTRL_CLIENT, SetupPayload(cfg, seqNo), writeOk);
        if rc != 0 { phase := Failed; return -1; }
        phase := SetupSent;
        return 1;
      }
      rc := AwaitSetup(input);
    }

    method AwaitSetup(input: seq<Read>) returns (rc: int)
      requires phase == SetupSent
      modifies this
      ensures Outcome(View(), rc) == SetupSteps(old(View()), input, 0)
    {
      hide Bodies, Rest, AcceptsSetup;
      var attempt := 0;
      while attempt < ATTEMPTS
        invariant attempt <= ATTEMPTS && phase == SetupSent
        invariant SetupSteps(View(), input, attempt) == SetupSteps(old(View()), input, 0)
      {
        var bodies := TakeFrames();
        var i := 0;
        while i < |bodies|
          invariant i <= |bodies| && forall j :: 0 <= j < i ==> !AcceptsSetup(bodies[j])
        {
          if AcceptsSetup(bodies[i]) {
            phase := Ready;
            return 0;
          }
          i := i + 1;
        }
        var rr := TryReadFrames(ReadAt(input, attempt));
        if rr < 0 {
          phase := Failed;
          return -1;
        }
        if rr > 0 { return 1; }
        attempt := attempt + 1;
      }
      return 1;
    }

    method SendAbiJson(abi: bytes, writeOk: bool) returns (rc: int)
      modifies this
      ensures View() == Send(old(View()), MAGIC_CTRL_CLIENT, Wrap(abi), writeOk)
      ensures rc == if writeOk then 0 else -1
    {
      var wire := WrapCtrlAbi(abi);
      rc := SendFrame(MAGIC_CTRL_CLIENT, wire, writeOk);
    }

    method Recv(input: seq<Read>) returns (rc: int, out: bytes)
      modifies this
      ensures Received(View(), rc, out) == RecvPayload(old(View()), input)
    {
      hide Bodies, Rest;
      out := [];
      var left := input;
      while true
        invariant RecvPayload(View(), left) == RecvPayload(old(View()), input)
        decreases |left|
      {
        var bodies := TakeFrames();
        if bodies != [] { return 0, bodies[0]; }
        rc := TryReadFrames(ReadAt(left, 0));
        if rc < 0 { return -1, []; }
        if rc > 0 { return 1, []; }
        left := left[1..];
      }
    }

    /** `take_pending_wire_json` on the session's buffer. The loop runs until no frame comes out
        any more, which is after one pass, see `CutTwice`. */
    method DrainPendingWireJson() returns (msgs: seq<bytes>)
      modifies this
      ensures msgs == Messages(Bodies(old(recvBuf)))
      ensures View() == CutFrames(old(View()))
    {
      hide Bodies, Rest, MessageOf;
      ghost var was := View();
      CutTwice(was);
      msgs := [];
      var bodies := TakeFrames();
      while bodies != []
        invariant View() == CutFrames(was) && Bodies(recvBuf) == []
        invariant (bodies == Bodies(was.buf) && msgs == []) ||
                  (bodies == [] && msgs == Messages(Bodies(was.buf)))
        decreases |bodies|
      {
        msgs := AppendMessages(msgs, bodies);
        bodies := TakeFrames();
      }
    }

    method AppendMessages(before: seq<bytes>, bodies: seq<bytes>) returns (msgs: seq<bytes>)
      ensures msgs == before + Messages(bodies)
    {
      hide MessageOf;
      msgs := before;
      var i := 0;
      assert bodies[0..] == bodies;
      while i < |bodies|
        invariant i <= |bodies| && msgs + Messages(bodies[i..]) == before + Messages(bodies)
      {
        if bodies[i] != [] {
          var m := MessageOf(bodies[i]);
          msgs := msgs + [m];
        }
        assert bodies[i..][1..] == bodies[i + 1..];
        i := i + 1;
      }
    }
  }
}
