/**
 The CTRL channel of the tunnel (stubs/BambuSource.cpp): callers put requests into an inbox
 and poll an outbox, a worker thread sends one request at a time and collects its replies.
 */
module Ctrl {
  import opened Bytes
  import opened Json
  import opened JsonRoundTrip
  import opened JsonSpelling
  import opened Replies

  const RES_CONTINUE := 1
  const CTRL_TYPE := 0x3001
  const NL: byte := 10

  /** Text up to the first blank line, which separates JSON from binary. */
  function JsonPart(s: bytes, i: nat): bytes
    requires i <= |s|
    decreases |s| - i
  {
    if i + 1 >= |s| then s
    else if s[i] == NL && s[i + 1] == NL then s[..i]
    else JsonPart(s, i + 1)
  }

  /** The `result` of a reply, -1 when there is none. */
  function WireResult(reply: bytes): int {
    WireCode(JsonPart(reply, 0))
  }

  /** `j` is the text in front of the first blank line of `t`, or all of it when there is none. */
  ghost predicate Heads(j: bytes, t: bytes) {
    |j| <= |t| && j == t[..|j|] &&
    (|j| < |t| ==> |j| + 1 < |t| && t[|j|] as char == '\n' && t[|j| + 1] as char == '\n') &&
    forall i :: 0 <= i < |j| && i + 1 < |t| ==> !(t[i] as char == '\n' && t[i + 1] as char == '\n')
  }

  lemma {:induction false} JsonPartHeads(t: bytes, i: nat)
    requires i <= |t| && forall k :: 0 <= k < i && k + 1 < |t| ==> !(t[k] == NL && t[k + 1] == NL)
    ensures Heads(JsonPart(t, i), t)
    decreases |t| - i
  {
    if i + 1 < |t| && !(t[i] == NL && t[i + 1] == NL) { JsonPartHeads(t, i + 1); }
  }

  lemma OneHead(j: bytes, k: bytes, t: bytes)
    requires Heads(j, t) && Heads(k, t)
    ensures j == k
  {
    if |j| < |t| { HeadStops(k, t, |j|); }
    if |k| < |t| { HeadStops(j, t, |k|); }
  }

  lemma HeadStops(j: bytes, t: bytes, i: nat)
    requires Heads(j, t) && i + 1 < |t| && t[i] == NL && t[i + 1] == NL
    ensures |j| <= i
  {
  }

  /** What a reply's `result` is: that of the object written in front of the first blank line, whatever
      binary follows; -1 when there is no such object, or no number in it. */
  lemma WireResultIff(j: bytes, t: bytes, code: int)
    requires Heads(j, t)
    ensures WireResult(t) == code <==> StandsFor(j, code)
  {
    hide WireCode, StandsFor, Heads, JsonPart;
    assert Heads(JsonPart(t, 0), t) by { JsonPartHeads(t, 0); }
    OneHead(JsonPart(t, 0), j, t);
    WireCodeIff(j, code);
  }

  /** For the printer's own spelling, alone or in front of a binary. */
  lemma PrintedResult(m: seq<Member>, binary: bytes, code: int)
    requires Printable(Object(m))
    ensures WireResult(Text(Object(m))) == code <==> CodeOf(m, code)
    ensures WireResult(Text(Object(m)) + ['\n' as byte, '\n' as byte] + binary) == code <==> CodeOf(m, code)
  {
    hide Writes, CodeOf, Text, WireResult, Heads, StandsFor;
    var j := Text(Object(m));
    TextWrites(Object(m));
    TextIsStrict(Object(m));
    StrictHeads(j, binary);
    WireResultIff(j, j, code);
    WireResultIff(j, j + ['\n' as byte, '\n' as byte] + binary, code);
    WrittenCode(j, m, code);
  }

  lemma StrictHeads(j: bytes, binary: bytes)
    requires NoControls(j)
    ensures Heads(j, j) && Heads(j, j + ['\n' as byte, '\n' as byte] + binary)
  {
  }

  /** Where the worker is: about to look at the inbox, holding a request, waiting for a reply,
      holding one, or gone. */
  datatype Worker = Idle | Holding(req: bytes) | Awaiting | Replying(reply: bytes) | Exited

  datatype Fate = Pending | Sent | Unsent

  /** What became of a request that left the inbox. */
  datatype Attempt = Attempt(req: bytes, fate: Fate)

  /** What the printer sends: the number of the attempt it answers, and the reply. */
  datatype Answer = Answer(request: nat, data: bytes)

  /** A reply, the attempt that the worker was serving when it came, and the one it answers. */
  datatype Reply = Reply(turn: nat, answers: nat, data: bytes)

  /** The tunnel's fields, then the history: requests accepted, attempts made, replies received
      and replies handed to the caller. Last the printer's side of the session: the attempts it
      still owes the final reply to. */
  datatype State = State(inbox: seq<bytes>, outbox: seq<bytes>, mode: bool, stop: bool, session: bool,
                         worker: Worker,
                         accepted: seq<bytes>, attempts: seq<Attempt>, received: seq<Reply>, read: seq<bytes>,
                         due: seq<nat>)

  const Start: State := State([], [], false, false, false, Exited, [], [], [], [], [])

  /** One step is one section under the channel's mutex, or one call of the worker into the session;
      any caller and worker steps may interleave. */
  datatype Event =
    | Open                            // handshake finished: mode on, worker started
    | SendMessage(req: bytes)
    | ReadSample
    | Wake                            // worker looks at the inbox
    | Forward(ok: bool)               // worker sends the request it holds
    | Receive(answers: seq<Answer>)   // worker's receive takes what has come in, nothing when it fails
    | PushReply
    | RequestStop
    | Join                            // stop_ctrl_mode after the worker has exited

  /** What the printer still owes once an answer has come in: a `continue` reply leaves its
      request due. */
  function Settle(due: seq<nat>, a: Answer): seq<nat> {
    if due != [] && a.request == due[0] && WireResult(a.data) != RES_CONTINUE then due[1..] else due
  }

  function SettleAll(due: seq<nat>, answers: seq<Answer>): seq<nat>
    decreases |answers|
  {
    if answers == [] then due else SettleAll(Settle(due, answers[0]), answers[1..])
  }

  function SetFate(a: seq<Attempt>, f: Fate): seq<Attempt>
    requires a != []
  {
    a[|a| - 1 := a[|a| - 1].(fate := f)]
  }

  /** A step that is not possible now leaves the state as it is. A receive hands out the first of
      the answers it takes and loses the rest (`Session.RecvKeepsAllIff`). */
  function Step(s: State, e: Event): State {
    match e
    case Open =>
      if s.mode || s.worker != Exited then s
      else s.(mode := true, stop := false, session := true, worker := Idle, due := [])
    case SendMessage(r) =>
      if !s.mode then s else s.(inbox := s.inbox + [r], accepted := s.accepted + [r])
    case ReadSample =>
      if !s.mode || s.outbox == [] then s
      else s.(outbox := s.outbox[1..], read := s.read + [s.outbox[0]])
    case Wake =>
      if s.worker != Idle then s
      else if s.stop then s.(worker := Exited)
      else if s.inbox == [] then s
      else s.(inbox := s.inbox[1..], worker := Holding(s.inbox[0]),
              attempts := s.attempts + [Attempt(s.inbox[0], Pending)])
    case Forward(ok) =>
      if !s.worker.Holding? || s.attempts == [] then s
      else if s.session && ok then
        s.(worker := Awaiting, attempts := SetFate(s.attempts, Sent), due := s.due + [|s.attempts| - 1])
      else s.(worker := Idle, attempts := SetFate(s.attempts, Unsent))
    case Receive(b) =>
      if s.worker != Awaiting || s.attempts == [] then s
      else if b == [] then s.(worker := Idle)
      else
        s.(worker := Replying(b[0].data),
           received := s.received + [Reply(|s.attempts| - 1, b[0].request, b[0].data)],
           due := SettleAll(s.due, b))
    case PushReply =>
      if !s.worker.Replying? then s
      else s.(outbox := s.outbox + [s.worker.reply],
              worker := if WireResult(s.worker.reply) == RES_CONTINUE then Awaiting else Idle)
    case RequestStop => if s.mode then s.(stop := true) else s
    case Join =>
      if s.mode && s.stop && s.worker == Exited then s.(session := false, mode := false) else s
  }

  function Run(s: State, es: seq<Event>): State
    decreases |es|
  {
    if es == [] then s else Run(Step(s, es[0]), es[1..])
  }

  // ---------- Invariant of every interleaving ----------

  function Requests(a: seq<Attempt>): seq<bytes> {
    seq(|a|, i requires 0 <= i < |a| => a[i].req)
  }

  function Contents(r: seq<Reply>): seq<bytes> {
    seq(|r|, i requires 0 <= i < |r| => r[i].data)
  }

  /** Requests leave the inbox in the order they were accepted and none is lost in it. */
  ghost predicate RequestsInOrder(s: State) {
    s.accepted == Requests(s.attempts) + s.inbox
  }

  /** Replies are handed out in the order they were received and none is lost or repeated. */
  ghost predicate RepliesInOrder(s: State) {
    Contents(s.received) == s.read + s.outbox + (if s.worker.Replying? then [s.worker.reply] else [])
  }

  /** One request at a time: only the last attempt can be undecided, and the worker holds it. */
  ghost predicate OneOutstanding(s: State) {
    (forall i :: 0 <= i < |s.attempts| && s.attempts[i].fate == Pending ==>
       i == |s.attempts| - 1 && s.worker == Holding(s.attempts[i].req)) &&
    (s.worker.Holding? ==> s.attempts != [] && s.attempts[|s.attempts| - 1].fate == Pending) &&
    (s.worker == Awaiting || s.worker.Replying? ==>
       s.attempts != [] && s.attempts[|s.attempts| - 1].fate == Sent)
  }

  /** Replies come in while a request that was sent is being served; those of one turn all come
      before those of the next; and only `continue` replies have another one of the same turn
      behind them. */
  ghost predicate TurnsGrouped(s: State) {
    (forall i :: 0 <= i < |s.received| ==>
       s.received[i].turn < |s.attempts| && s.attempts[s.received[i].turn].fate == Sent) &&
    (forall i, j :: 0 <= i < j < |s.received| ==> s.received[i].turn <= s.received[j].turn) &&
    (forall i :: 0 <= i < |s.received| - 1 && s.received[i].turn == s.received[i + 1].turn ==>
       WireResult(s.received[i].data) == RES_CONTINUE)
  }

  /** A request is waited for only while its last reply said `continue`. */
  ghost predicate WaitsOnContinue(s: State) {
    var n := |s.received|;
    (s.worker == Awaiting && n > 0 && s.received[n - 1].turn == |s.attempts| - 1 ==>
       WireResult(s.received[n - 1].data) == RES_CONTINUE) &&
    (s.worker.Replying? ==>
       n > 0 && s.received[n - 1].turn == |s.attempts| - 1 && s.received[n - 1].data == s.worker.reply) &&
    (s.worker.Holding? && n > 0 ==> s.received[n - 1].turn < |s.attempts| - 1)
  }

  ghost predicate Order(s: State) {
    RequestsInOrder(s) && RepliesInOrder(s) && OneOutstanding(s) && TurnsGrouped(s) && WaitsOnContinue(s)
  }

  /** The worker runs only while the channel is open, and the channel is open with its session. */
  ghost predicate Attended(s: State) {
    (s.worker != Exited ==> s.mode) && (s.mode <==> s.session)
  }

  // The printer's side.

  /** The answers come in the order of the requests that are due, for each of them any number of
      `continue` replies and one that is not. */
  ghost predicate InOrder(due: seq<nat>, answers: seq<Answer>)
    decreases |answers|
  {
    answers == [] ||
    (due != [] && answers[0].request == due[0] && InOrder(Settle(due, answers[0]), answers[1..]))
  }

  ghost predicate Orderly(s: State, e: Event) {
    e.Receive? && s.worker == Awaiting ==> InOrder(s.due, e.answers)
  }

  ghost predicate OrderlyRun(s: State, es: seq<Event>)
    decreases |es|
  {
    es == [] || (Orderly(s, es[0]) && OrderlyRun(Step(s, es[0]), es[1..]))
  }

  /** The requests it owes an answer are numbered upwards, and have been sent. */
  ghost predicate DueSorted(s: State) {
    (forall i, j :: 0 <= i < j < |s.due| ==> s.due[i] < s.due[j]) &&
    (forall i :: 0 <= i < |s.due| ==> s.due[i] < |s.attempts| - (if s.worker.Holding? then 1 else 0))
  }

  /** The worker waits for another reply to its last attempt, or is about to. */
  ghost predicate Serving(s: State) {
    s.worker == Awaiting || (s.worker.Replying? && WireResult(s.worker.reply) == RES_CONTINUE)
  }

  /** The printer owes a reply to a request that the worker has given up. */
  ghost predicate Behind(s: State) {
    s.due != [] && (Serving(s) ==> s.due[0] < |s.attempts| - 1)
  }

  /** The replies to one request all come before those to the next, none comes before its request
      was sent, and only `continue` replies have another one to the same request behind them. */
  ghost predicate AnswersGrouped(s: State) {
    var n := |s.received|;
    (forall i :: 0 <= i < n ==> s.received[i].answers <= s.received[i].turn < |s.attempts|) &&
    (forall i, j :: 0 <= i < j < n ==> s.received[i].answers <= s.received[j].answers) &&
    (forall i :: 0 <= i < n - 1 && s.received[i].answers == s.received[i + 1].answers ==>
       WireResult(s.received[i].data) == RES_CONTINUE) &&
    (s.worker.Holding? ==> forall i :: 0 <= i < n ==> s.received[i].answers < |s.attempts| - 1) &&
    (n > 0 && s.due != [] ==>
       s.received[n - 1].answers <= s.due[0] &&
       (s.received[n - 1].answers == s.due[0] ==> WireResult(s.received[n - 1].data) == RES_CONTINUE))
  }

  ghost predicate Attribution(s: State) {
    DueSorted(s) && AnswersGrouped(s)
  }

  /** Every reply answers the request that was being served when it came. */
  ghost predicate AllAttributed(s: State) {
    forall i :: 0 <= i < |s.received| ==> s.received[i].answers == s.received[i].turn
  }

  /** No reply comes in while an older request is due. */
  ghost predicate Timely(s: State, es: seq<Event>)
    decreases |es|
  {
    es == [] ||
    ((es[0].Receive? && es[0].answers != [] && s.worker == Awaiting ==> !Behind(s)) &&
     Timely(Step(s, es[0]), es[1..]))
  }

  /** A reply keeps its request waiting exactly when the object in it has the result 1. */
  lemma ContinueWaits(s: State, j: bytes, m: seq<Member>)
    requires s.worker.Replying? && Heads(j, s.worker.reply) && Writes(j, Object(m))
    ensures Step(s, PushReply).worker == if CodeOf(m, 1) then Awaiting else Idle
  {
    hide Writes, CodeOf, WireResult, Heads, StandsFor;
    WireResultIff(j, s.worker.reply, 1);
    WrittenCode(j, m, 1);
  }

  lemma StartOrder()
    ensures Order(Start)
  {
    hide WireResult;
  }

  lemma StartAttribution()
    ensures Attribution(Start)
  {
    hide WireResult;
  }

  lemma WakeOrder(s: State)
    requires Order(s) && s.worker == Idle && !s.stop && s.inbox != []
    ensures Order(Step(s, Wake))
  {
    hide WireResult;
    var t := Step(s, Wake);
    assert Requests(t.attempts) == Requests(s.attempts) + [s.inbox[0]];
    assert [s.inbox[0]] + s.inbox[1..] == s.inbox;
    assert forall i :: 0 <= i < |s.attempts| ==> t.attempts[i] == s.attempts[i];
  }

  lemma ForwardOrder(s: State, ok: bool)
    requires Order(s) && s.worker.Holding?
    ensures Order(Step(s, Forward(ok)))
  {
    hide WireResult;
    var t := Step(s, Forward(ok));
    assert Requests(t.attempts) == Requests(s.attempts);
    forall i | 0 <= i < |t.received|
      ensures t.received[i].turn < |t.attempts| && t.attempts[t.received[i].turn].fate == Sent
    {
      assert s.attempts[s.received[i].turn].fate == Sent;
    }
  }

  lemma ReceiveGrouped(s: State, b: seq<Answer>)
    requires OneOutstanding(s) && TurnsGrouped(s) && WaitsOnContinue(s) && s.worker == Awaiting && b != []
    ensures TurnsGrouped(Step(s, Receive(b)))
  {
    hide WireResult, SettleAll;
    var t, n := Step(s, Receive(b)), |s.received|;
    assert t.received[..n] == s.received && t.received[n].turn == |s.attempts| - 1;
    forall i, j | 0 <= i < j < |t.received| ensures t.received[i].turn <= t.received[j].turn {
      if j < n { assert s.received[i].turn <= s.received[j].turn; }
    }
    forall i | 0 <= i < |t.received| - 1 && t.received[i].turn == t.received[i + 1].turn
      ensures WireResult(t.received[i].data) == RES_CONTINUE
    {
      if i < n - 1 { assert s.received[i].turn == s.received[i + 1].turn; }
    }
  }

  lemma ReceiveOrder(s: State, b: seq<Answer>)
    requires Order(s) && s.worker == Awaiting && b != []
    ensures Order(Step(s, Receive(b)))
  {
    hide WireResult, TurnsGrouped, SettleAll;
    var t := Step(s, Receive(b));
    assert Contents(t.received) == Contents(s.received) + [b[0].data];
    assert s.read + s.outbox + [] + [b[0].data] == t.read + t.outbox + [b[0].data];
    ReceiveGrouped(s, b);
  }

  lemma PushOrder(s: State)
    requires Order(s) && s.worker.Replying?
    ensures Order(Step(s, PushReply))
  {
    hide WireResult, Requests, Contents, TurnsGrouped;
    var t := Step(s, PushReply);
    assert t.read + t.outbox + [] == s.read + s.outbox + [s.worker.reply];
    assert TurnsGrouped(t) by { SameReplies(s, t); }
  }

  lemma SameReplies(s: State, t: State)
    requires TurnsGrouped(s) && t.received == s.received && t.attempts == s.attempts
    ensures TurnsGrouped(t)
  {
    hide WireResult;
  }

  /** Steps of callers, and worker steps that change no list. */
  lemma QuietOrder(s: State, e: Event)
    requires Order(s)
    requires e.Open? || e.SendMessage? || e.ReadSample? || e.RequestStop? || e.Join? ||
             (e.Wake? && (s.stop || s.inbox == [])) || e == Receive([])
    ensures Order(Step(s, e))
  {
    hide WireResult, Requests, Contents, TurnsGrouped;
    var t := Step(s, e);
    SameReplies(s, t);
    match e {
      case SendMessage(r) =>
        assert Requests(s.attempts) + s.inbox + [r] == Requests(s.attempts) + (s.inbox + [r]);
      case ReadSample =>
        if s.mode && s.outbox != [] {
          assert s.read + s.outbox == t.read + t.outbox;
        }
      case _ =>
    }
  }

  lemma StepOrder(s: State, e: Event)
    requires Order(s)
    ensures Order(Step(s, e))
  {
    hide Order;
    match e {
      case Wake =>
        if s.stop || s.inbox == [] { QuietOrder(s, e); }
        else if s.worker == Idle { WakeOrder(s); }
      case Forward(ok) =>
        if s.worker.Holding? { ForwardOrder(s, ok); }
      case Receive(r) =>
        if r == [] { QuietOrder(s, e); }
        else if s.worker == Awaiting { ReceiveOrder(s, r); }
      case PushReply =>
        if s.worker.Replying? { PushOrder(s); }
      case _ => QuietOrder(s, e);
    }
  }

  /** Answers that come in order settle the oldest requests due: what is left is the rest, and the
      request they start with stays due only when its answer says `continue`. */
  lemma {:induction false} SettleDrops(due: seq<nat>, answers: seq<Answer>) returns (k: nat)
    requires InOrder(due, answers)
    ensures k <= |due| && SettleAll(due, answers) == due[k..]
    ensures answers != [] ==> due != [] && answers[0].request == due[0]
    ensures answers != [] && k == 0 ==> WireResult(answers[0].data) == RES_CONTINUE
    decreases |answers|
  {
    hide WireResult;
    k := 0;
    if answers != [] {
      k := SettleDrops(Settle(due, answers[0]), answers[1..]);
      if WireResult(answers[0].data) != RES_CONTINUE {
        assert due[1..][k..] == due[k + 1..];
        k := k + 1;
      }
    }
  }

  /** The reply handed out answers the oldest request that is due: the one being served exactly
      when the printer owes no older one. */
  lemma ReceiveAttribution(s: State, b: seq<Answer>)
    requires Order(s) && Attribution(s) && s.worker == Awaiting && b != [] && InOrder(s.due, b)
    ensures Attribution(Step(s, Receive(b)))
    ensures b[0].request == |s.attempts| - 1 <==> !Behind(s)
    ensures AllAttributed(Step(s, Receive(b))) <==> AllAttributed(s) && !Behind(s)
  {
    hide WireResult, SettleAll, InOrder, TurnsGrouped, RequestsInOrder, RepliesInOrder, WaitsOnContinue, AnswersGrouped;
    var t, n := Step(s, Receive(b)), |s.received|;
    var k := SettleDrops(s.due, b);
    assert t.received[..n] == s.received && t.received[n] == Reply(|s.attempts| - 1, b[0].request, b[0].data);
    ReceiveAnswers(s, b, k);
    if !AllAttributed(s) {
      var i :| 0 <= i < n && s.received[i].answers != s.received[i].turn;
      assert t.received[i] == s.received[i];
    }
    if AllAttributed(t) {
      assert t.received[n].answers == t.received[n].turn;
    }
  }

  lemma {:induction false} ReceiveAnswers(s: State, b: seq<Answer>, k: nat)
    requires DueSorted(s) && AnswersGrouped(s) && s.worker == Awaiting && s.attempts != []
    requires s.due != [] && b != [] && b[0].request == s.due[0] && k <= |s.due| && SettleAll(s.due, b) == s.due[k..]
    requires k == 0 ==> WireResult(b[0].data) == RES_CONTINUE
    ensures AnswersGrouped(Step(s, Receive(b)))
  {
    hide WireResult, SettleAll;
    var t, n := Step(s, Receive(b)), |s.received|;
    assert t.received[..n] == s.received;
    assert t.due != [] ==> t.due[0] == s.due[k];
    forall i, j | 0 <= i < j < |t.received| ensures t.received[i].answers <= t.received[j].answers {
      if j < n { assert s.received[i].answers <= s.received[j].answers; }
      else { assert s.received[i].answers <= s.received[n - 1].answers; }
    }
    forall i | 0 <= i < |t.received| - 1 && t.received[i].answers == t.received[i + 1].answers
      ensures WireResult(t.received[i].data) == RES_CONTINUE
    {
      if i < n - 1 { assert s.received[i].answers == s.received[i + 1].answers; }
    }
  }

  lemma ForwardAttribution(s: State, ok: bool)
    requires Attribution(s) && s.worker.Holding?
    ensures Attribution(Step(s, Forward(ok)))
  {
    hide WireResult;
  }

  lemma WakeAttribution(s: State)
    requires Attribution(s) && s.worker == Idle
    ensures Attribution(Step(s, Wake))
  {
    hide WireResult;
  }

  /** Other steps leave the attempts and the replies alone; nothing is due in a new session. */
  lemma SameSides(s: State, t: State)
    requires Attribution(s) && t.attempts == s.attempts && t.received == s.received
    requires (t.worker.Holding? ==> s.worker.Holding?) && (t.due == s.due || t.due == [])
    ensures Attribution(t)
  {
    hide WireResult;
  }

  /** Steps other than a receive that brings something. */
  lemma SilentAttribution(s: State, e: Event)
    requires Attribution(s) && !(e.Receive? && e.answers != [])
    ensures Attribution(Step(s, e)) && Step(s, e).received == s.received
  {
    hide Attribution, WireResult, SettleAll;
    match e {
      case Forward(ok) =>
        if s.worker.Holding? { ForwardAttribution(s, ok); }
      case Wake =>
        if s.worker == Idle { WakeAttribution(s); }
      case _ => SameSides(s, Step(s, e));
    }
  }

  lemma StepAttribution(s: State, e: Event)
    requires Order(s) && Attribution(s) && Orderly(s, e)
    ensures Attribution(Step(s, e))
    ensures AllAttributed(Step(s, e)) <==>
            AllAttributed(s) && (e.Receive? && e.answers != [] && s.worker == Awaiting ==> !Behind(s))
  {
    hide Attribution, WireResult, RequestsInOrder, RepliesInOrder, TurnsGrouped, WaitsOnContinue, SettleAll, Behind;
    if e.Receive? && e.answers != [] {
      if s.worker == Awaiting { ReceiveAttribution(s, e.answers); }
    } else {
      SilentAttribution(s, e);
    }
  }

  /** What is left behind a receive leaves the worker behind. */
  ghost predicate StillOwed(s: State, left: seq<nat>, reply: bytes) {
    left != [] && (left == [|s.attempts| - 1] ==> WireResult(reply) != RES_CONTINUE)
  }

  /** When the worker is behind. It falls behind only by a receive that fails while a reply is due,
      and catches up only by a receive that takes the last of the older replies, or in a new session. */
  lemma BehindIff(s: State, e: Event)
    requires Order(s) && Attribution(s) && Orderly(s, e)
    ensures Behind(Step(s, e)) <==>
            match e
            case Open => Behind(s) && (s.mode || s.worker != Exited)
            case Receive(b) =>
              if s.worker != Awaiting then Behind(s)
              else if b == [] then s.due != []
              else Behind(s) && StillOwed(s, SettleAll(s.due, b), b[0].data)
            case _ => Behind(s)
  {
    hide WireResult, InOrder, SettleAll, RequestsInOrder, RepliesInOrder, TurnsGrouped, WaitsOnContinue, AnswersGrouped;
    if e.Receive? && e.answers != [] && s.worker == Awaiting {
      var k := SettleDrops(s.due, e.answers);
      var left := s.due[k..];
      if left != [] {
        assert left[0] == s.due[k] && (k > 0 ==> s.due[0] < s.due[k]);
        assert left[0] == |s.attempts| - 1 ==> left == [left[0]] by {
          if |left| > 1 { assert s.due[k] < s.due[k + 1]; }
        }
      }
    }
  }

  lemma StepInv(s: State, e: Event)
    requires Order(s)
    ensures Order(Step(s, e))
    ensures Attribution(s) && Orderly(s, e) ==> Attribution(Step(s, e))
  {
    hide Order, Attribution, Orderly, Step;
    StepOrder(s, e);
    if Attribution(s) && Orderly(s, e) { StepAttribution(s, e); }
  }

  lemma StepAttended(s: State, e: Event)
    requires Attended(s)
    ensures Attended(Step(s, e))
  {
    hide WireResult, SettleAll;
  }

  /** A channel that is asked to stop while its worker looks for work closes with its session. */
  lemma StopCloses(s: State)
    requires s.mode && s.worker == Idle
    ensures var t := RunOf3(s, RequestStop, Wake, Join);
            t == s.(stop := true, worker := Exited, session := false, mode := false)
  {
  }

  /** Channel ordering, over all interleavings of callers and worker, restarts included. */
  lemma {:induction false} RunInv(s: State, es: seq<Event>)
    requires Order(s)
    ensures Order(Run(s, es))
    ensures Attended(s) ==> Attended(Run(s, es))
    ensures Attribution(s) && OrderlyRun(s, es) ==> Attribution(Run(s, es))
    decreases |es|
  {
    hide Order, Attribution, Orderly, Step, Attended;
    if es != [] {
      StepInv(s, es[0]);
      if Attended(s) { StepAttended(s, es[0]); }
      RunInv(Step(s, es[0]), es[1..]);
    }
  }

  lemma {:induction false} RunAttribution(s: State, es: seq<Event>)
    requires Order(s) && Attribution(s) && OrderlyRun(s, es)
    ensures AllAttributed(Run(s, es)) <==> AllAttributed(s) && Timely(s, es)
    decreases |es|
  {
    hide Order, Attribution, Orderly, Step, AllAttributed, Behind;
    if es != [] {
      StepInv(s, es[0]);
      StepAttribution(s, es[0]);
      RunAttribution(Step(s, es[0]), es[1..]);
    }
  }

  /** Every reply read so far was received in the turn of the request it answers, exactly when none
      came in while an older request was due. */
  lemma AttributedIff(es: seq<Event>)
    requires OrderlyRun(Start, es)
    ensures AllAttributed(Run(Start, es)) <==> Timely(Start, es)
  {
    hide Run, WireResult, Order, Attribution, OrderlyRun, Timely;
    StartOrder();
    StartAttribution();
    RunAttribution(Start, es);
  }

  /** The requests that reached the wire. */
  function OnWire(a: seq<Attempt>): seq<bytes> {
    if a == [] then []
    else OnWire(a[..|a| - 1]) + (if a[|a| - 1].fate == Sent then [a[|a| - 1].req] else [])
  }

  ghost predicate NoneUnsent(a: seq<Attempt>) {
    forall i :: 0 <= i < |a| ==> a[i].fate != Unsent
  }

  lemma {:induction false} OnWireShort(a: seq<Attempt>)
    ensures |OnWire(a)| <= |a|
    ensures |OnWire(a)| == |a| <==> forall i :: 0 <= i < |a| ==> a[i].fate == Sent
    ensures |OnWire(a)| == |a| ==> OnWire(a) == Requests(a)
    decreases |a|
  {
    if a != [] {
      var n := |a| - 1;
      OnWireShort(a[..n]);
      if |OnWire(a)| == |a| {
        assert Requests(a) == Requests(a[..n]) + [a[n].req];
      }
    }
  }

  /** Between requests, everything accepted has reached the wire or is still in the inbox, in
      order, exactly when no send has failed: a failed send drops its request. */
  lemma WireIsPrefixIff(s: State)
    requires Order(s) && !s.worker.Holding?
    ensures s.accepted == OnWire(s.attempts) + s.inbox <==> NoneUnsent(s.attempts)
  {
    hide WireResult, OnWire;
    OnWireShort(s.attempts);
    if NoneUnsent(s.attempts) {
      assert forall i :: 0 <= i < |s.attempts| ==> s.attempts[i].fate == Sent;
    } else {
      assert |OnWire(s.attempts)| < |s.attempts| == |Requests(s.attempts)|;
    }
  }

  /** No receive fails while a reply is due. */
  ghost predicate Awaited(s: State, es: seq<Event>)
    decreases |es|
  {
    es == [] ||
    ((es[0] == Receive([]) && s.worker == Awaiting ==> s.due == []) && Awaited(Step(s, es[0]), es[1..]))
  }

  /** Then no reply is handed to the wrong request, whatever the receives lose. */
  lemma {:induction false} AwaitedIsTimely(s: State, es: seq<Event>)
    requires Order(s) && Attribution(s) && OrderlyRun(s, es) && !Behind(s) && Awaited(s, es)
    ensures Timely(s, es) && !Behind(Run(s, es))
    decreases |es|
  {
    hide Order, Attribution, Orderly, Step, Behind;
    if es != [] {
      BehindIff(s, es[0]);
      StepInv(s, es[0]);
      AwaitedIsTimely(Step(s, es[0]), es[1..]);
    }
  }

  function RunOf3(s: State, a: Event, b: Event, c: Event): State {
    Step(Step(Step(s, a), b), c)
  }

  lemma RunThree(s: State, es: seq<Event>)
    requires |es| >= 3
    ensures Run(s, es) == Run(RunOf3(s, es[0], es[1], es[2]), es[3..])
    ensures forall t :: Run(t, []) == t
  {
    hide Step;
    var s1 := Step(s, es[0]);
    var s2 := Step(s1, es[1]);
    assert es[1..][1..] == es[2..] && es[2..][1..] == es[3..];
    assert Run(s, es) == Run(s1, es[1..]) == Run(s2, es[2..]) == Run(Step(s2, es[2]), es[3..]);
  }

  /** A session with two requests in the inbox. */
  function TwoRequests(a: bytes, b: bytes): State {
    State([a, b], [], true, false, true, Idle, [a, b], [], [], [], [])
  }

  lemma OpensWithTwo(a: bytes, b: bytes)
    ensures RunOf3(Start, Open, SendMessage(a), SendMessage(b)) == TwoRequests(a, b)
  {
  }

  /** The first one sent, and the receive failed. */
  function Unanswered(a: bytes, b: bytes): State {
    State([b], [], true, false, true, Idle, [a, b], [Attempt(a, Sent)], [], [], [0])
  }

  lemma ReceiveFails(a: bytes, b: bytes)
    ensures RunOf3(TwoRequests(a, b), Wake, Forward(true), Receive([])) == Unanswered(a, b)
  {
  }

  lemma LateReplyComes(a: bytes, b: bytes, r: bytes)
    ensures var s := RunOf3(Unanswered(a, b), Wake, Forward(true), Receive([Answer(0, r)]));
            s.received == [Reply(1, 0, r)]
  {
    hide WireResult, SettleAll;
  }

  /** A receive that fails leaves the reply on the wire: it comes in while the next request is
      served. */
  lemma LateReply(a: bytes, b: bytes, r: bytes)
    ensures var s := Run(Start, [Open, SendMessage(a), SendMessage(b), Wake, Forward(true), Receive([]),
                                 Wake, Forward(true), Receive([Answer(0, r)])]);
            s.received == [Reply(1, 0, r)] && !AllAttributed(s)
  {
    hide RunOf3, Run, Start;
    var es := [Open, SendMessage(a), SendMessage(b), Wake, Forward(true), Receive([]),
               Wake, Forward(true), Receive([Answer(0, r)])];
    RunThree(Start, es);
    OpensWithTwo(a, b);
    RunThree(TwoRequests(a, b), es[3..]);
    ReceiveFails(a, b);
    RunThree(Unanswered(a, b), es[6..]);
    LateReplyComes(a, b, r);
    assert es[3..][3..] == es[6..] && es[6..][3..] == [];
    var s := RunOf3(Unanswered(a, b), Wake, Forward(true), Receive([Answer(0, r)]));
    assert s.received[0].answers != s.received[0].turn;
  }

  /** The second one sent, and one receive took the replies to both. */
  function TookBoth(a: bytes, b: bytes, ra: bytes): State {
    State([], [], true, false, true, Replying(ra), [a, b], [Attempt(a, Sent), Attempt(b, Sent)],
          [Reply(1, 0, ra)], [], [])
  }

  lemma BothCome(a: bytes, b: bytes, ra: bytes, rb: bytes)
    requires WireResult(ra) != RES_CONTINUE && WireResult(rb) != RES_CONTINUE
    ensures RunOf3(Unanswered(a, b), Wake, Forward(true), Receive([Answer(0, ra), Answer(1, rb)])) ==
            TookBoth(a, b, ra)
  {
    hide WireResult;
    var both := [Answer(0, ra), Answer(1, rb)];
    assert both[1..] == [Answer(1, rb)] && both[1..][1..] == [];
    assert SettleAll([0, 1], both) == SettleAll([1], both[1..]) == SettleAll([], []) == [];
  }

  /** Nothing is due, and the third request is in hand. */
  function ThirdInHand(a: bytes, b: bytes, c: bytes, ra: bytes): State {
    State([], [ra], true, false, true, Holding(c), [a, b, c],
          [Attempt(a, Sent), Attempt(b, Sent), Attempt(c, Pending)], [Reply(1, 0, ra)], [], [])
  }

  lemma ThirdTaken(a: bytes, b: bytes, c: bytes, ra: bytes)
    requires WireResult(ra) != RES_CONTINUE
    ensures RunOf3(TookBoth(a, b, ra), PushReply, SendMessage(c), Wake) == ThirdInHand(a, b, c, ra)
  {
    hide WireResult;
  }

  lemma ThirdAnswered(a: bytes, b: bytes, c: bytes, ra: bytes, rc: bytes)
    ensures RunOf3(ThirdInHand(a, b, c, ra), Forward(true), Receive([Answer(2, rc)]), PushReply).received ==
            [Reply(1, 0, ra), Reply(2, 2, rc)]
  {
    hide WireResult, SettleAll;
  }

  /** Two replies in one receive: the late one is handed out, the second request's own reply is
      lost, and the third request gets its own again. */
  lemma CatchUp(a: bytes, b: bytes, c: bytes, ra: bytes, rb: bytes, rc: bytes)
    requires WireResult(ra) != RES_CONTINUE && WireResult(rb) != RES_CONTINUE
    ensures var s := Run(Start, [Open, SendMessage(a), SendMessage(b), Wake, Forward(true), Receive([]),
                                 Wake, Forward(true), Receive([Answer(0, ra), Answer(1, rb)]),
                                 PushReply, SendMessage(c), Wake,
                                 Forward(true), Receive([Answer(2, rc)]), PushReply]);
            s.received == [Reply(1, 0, ra), Reply(2, 2, rc)]
  {
    hide RunOf3, Run, Start, WireResult, TwoRequests, Unanswered, TookBoth, ThirdInHand;
    var es := [Open, SendMessage(a), SendMessage(b), Wake, Forward(true), Receive([]),
               Wake, Forward(true), Receive([Answer(0, ra), Answer(1, rb)]),
               PushReply, SendMessage(c), Wake,
               Forward(true), Receive([Answer(2, rc)]), PushReply];
    RunThree(Start, es);
    OpensWithTwo(a, b);
    RunThree(TwoRequests(a, b), es[3..]);
    ReceiveFails(a, b);
    RunThree(Unanswered(a, b), es[6..]);
    BothCome(a, b, ra, rb);
    RunThree(TookBoth(a, b, ra), es[9..]);
    ThirdTaken(a, b, c, ra);
    RunThree(ThirdInHand(a, b, c, ra), es[12..]);
    ThirdAnswered(a, b, c, ra, rc);
    assert es[3..][3..] == es[6..] && es[6..][3..] == es[9..] && es[9..][3..] == es[12..] && es[12..][3..] == [];
  }

  lemma SendFails(a: bytes, b: bytes)
    ensures RunOf3(TwoRequests(a, b), Wake, Forward(false), Wake) ==
            State([], [], true, false, true, Holding(b), [a, b], [Attempt(a, Unsent), Attempt(b, Pending)], [], [], [])
  {
  }

  /** A send that fails drops its request, and the next one goes out. */
  lemma DroppedRequest(a: bytes, b: bytes)
    ensures var s := Run(Start, [Open, SendMessage(a), SendMessage(b), Wake, Forward(false), Wake, Forward(true)]);
            s.accepted == [a, b] && s.inbox == [] && OnWire(s.attempts) == [b]
  {
    hide RunOf3, Run, Start, OnWire;
    var es := [Open, SendMessage(a), SendMessage(b), Wake, Forward(false), Wake, Forward(true)];
    RunThree(Start, es);
    OpensWithTwo(a, b);
    RunThree(TwoRequests(a, b), es[3..]);
    SendFails(a, b);
    assert es[3..][3..] == [Forward(true)];
    var s2 := RunOf3(TwoRequests(a, b), Wake, Forward(false), Wake);
    RunOne(s2, Forward(true));
    assert Step(s2, Forward(true)).attempts == [Attempt(a, Unsent), Attempt(b, Sent)];
    OnlySecond(a, b);
  }

  lemma OnlySecond(a: bytes, b: bytes)
    ensures OnWire([Attempt(a, Unsent), Attempt(b, Sent)]) == [b]
  {
    var both := [Attempt(a, Unsent), Attempt(b, Sent)];
    assert both[..1] == [Attempt(a, Unsent)] && both[..1][..0] == [];
    assert OnWire(both[..1]) == [];
  }

  /** Of the receives from `i` on, the replies that a turn hands out. */
  function Collected(receives: seq<seq<Answer>>, i: nat): seq<bytes>
    decreases |receives| - i
  {
    if i >= |receives| || receives[i] == [] then []
    else
      [receives[i][0].data] +
      (if WireResult(receives[i][0].data) == RES_CONTINUE then Collected(receives, i + 1) else [])
  }

  /** The steps of a turn after its send. */
  function TurnSteps(receives: seq<seq<Answer>>, i: nat): seq<Event>
    decreases |receives| - i
  {
    if i >= |receives| || receives[i] == [] then [Receive([])]
    else
      [Receive(receives[i]), PushReply] +
      (if WireResult(receives[i][0].data) == RES_CONTINUE then TurnSteps(receives, i + 1) else [])
  }

  function Pushed(s: State, b: seq<Answer>): State
    requires s.attempts != [] && b != []
  {
    s.(outbox := s.outbox + [b[0].data],
       worker := if WireResult(b[0].data) == RES_CONTINUE then Awaiting else Idle,
       received := s.received + [Reply(|s.attempts| - 1, b[0].request, b[0].data)],
       due := SettleAll(s.due, b))
  }

  /** The receive and the push, as one change of the state. */
  lemma ReceiveStep(s: State, b: seq<Answer>)
    requires s.worker == Awaiting && s.attempts != [] && b != []
    ensures Step(Step(s, Receive(b)), PushReply) == Pushed(s, b)
  {
    hide WireResult, SettleAll;
  }

  lemma BusyHasAttempt(s: State)
    requires Order(s) && (s.worker.Holding? || s.worker == Awaiting)
    ensures s.attempts != []
  {
  }

  lemma ForwardLeaves(s: State, ok: bool)
    requires s.worker.Holding? && s.attempts != []
    ensures Step(s, Forward(ok)).worker == if s.session && ok then Awaiting else Idle
    ensures Step(s, Forward(ok)).outbox == s.outbox
  {
  }

  lemma ReceiveLeaves(s: State, b: seq<Answer>)
    requires s.worker == Awaiting && s.attempts != []
    ensures b == [] ==> Step(s, Receive(b)).worker == Idle && Step(s, Receive(b)).outbox == s.outbox
    ensures var t := Step(Step(s, Receive(b)), PushReply);
            b != [] ==> t.worker == (if WireResult(b[0].data) == RES_CONTINUE then Awaiting else Idle) &&
                        t.outbox == s.outbox + [b[0].data]
  {
    hide WireResult, SettleAll;
  }

  /** A run continued by a receive and, when it brings a reply, its push. */
  lemma ReceiveRun(start: State, es: seq<Event>, b: seq<Answer>)
    requires Order(Run(start, es))
    ensures var t := Step(Run(start, es), Receive(b));
            b == [] ==> Run(start, es + [Receive(b)]) == t && Order(t)
    ensures var t := Step(Step(Run(start, es), Receive(b)), PushReply);
            b != [] ==> Run(start, es + [Receive(b), PushReply]) == t && Order(t)
  {
    hide Order, Attribution, Orderly, Step;
    var s, e := Run(start, es), Receive(b);
    RunSnoc(start, es, e);
    StepInv(s, e);
    if b != [] {
      RunSnoc(start, es + [e], PushReply);
      StepInv(Step(s, e), PushReply);
      assert es + [e] + [PushReply] == es + [Receive(b), PushReply];
    }
  }

  // ---------- The object ----------

  /** The history part of the state. */
  datatype Past = Past(accepted: seq<bytes>, attempts: seq<Attempt>, received: seq<Reply>, read: seq<bytes>,
                       due: seq<nat>)

  class Tunnel {
    var ctrlIn: seq<bytes>
    var ctrlOut: seq<bytes>
    var ctrlMode: bool
    var ctrlStop: bool
    var tlSession: bool
    var worker: Worker
    ghost var past: Past

    ghost function View(): State
      reads this
    {
      State(ctrlIn, ctrlOut, ctrlMode, ctrlStop, tlSession, worker, past.accepted, past.attempts, past.received,
            past.read, past.due)
    }

    constructor ()
      ensures View() == Start
    {
      ctrlIn, ctrlOut, ctrlMode, ctrlStop, tlSession, worker := [], [], false, false, false, Exited;
      past := Past([], [], [], [], []);
    }

    /** Only channel 0x3001 is the CTRL channel; any other is accepted and ignored. */
    method BambuSendMessage(ctrl: int, data: bytes) returns (rc: int)
      modifies this
      ensures View() == if data == [] || ctrl != 0x3001 then old(View()) else Step(old(View()), SendMessage(data))
      ensures rc == if data == [] then -1 else if ctrl != 0x3001 || old(ctrlMode) then 0 else -1
    {
      if data == [] { return -1; }
      if ctrl != CTRL_TYPE { return 0; }
      if !ctrlMode { return -1; }
      ctrlIn := ctrlIn + [data];
      past := past.(accepted := past.accepted + [data]);
      return 0;
    }

    method BambuReadSample() returns (reply: Option<bytes>)
      requires ctrlMode
      modifies this
      ensures View() == Step(old(View()), ReadSample)
      ensures reply == if old(ctrlOut) == [] then None else Some(old(ctrlOut)[0])
    {
      if ctrlOut == [] { return None; }
      var r := ctrlOut[0];
      ctrlOut := ctrlOut[1..];
      past := past.(read := past.read + [r]);
      return Some(r);
    }

    /** The head of the worker's loop. */
    method TakeRequest()
      requires worker == Idle
      modifies this
      ensures View() == Step(old(View()), Wake)
    {
      if ctrlStop { worker := Exited; return; }
      if ctrlIn == [] { return; }
      var req := ctrlIn[0];
      ctrlIn := ctrlIn[1..];
      worker := Holding(req);
      past := past.(attempts := past.attempts + [Attempt(req, Pending)]);
    }

    /** The send of the request in hand. */
    method ForwardRequest(sendOk: bool)
      requires worker.Holding? && past.attempts != []
      modifies this`worker, this`past
      ensures View() == Step(old(View()), Forward(sendOk))
    {
      if !tlSession || !sendOk {
        past := past.(attempts := SetFate(past.attempts, Unsent));
        worker := Idle;
      } else {
        past := past.(attempts := SetFate(past.attempts, Sent), due := past.due + [|past.attempts| - 1]);
        worker := Awaiting;
      }
    }

    /** One receive and, when it brings a reply, `push_reply`. */
    method ReceiveReply(b: seq<Answer>)
      requires worker == Awaiting && past.attempts != []
      modifies this`worker, this`ctrlOut, this`past
      ensures var t := Step(old(View()), Receive(b));
              View() == if b == [] then t else Step(t, PushReply)
    {
      hide WireResult, SettleAll;
      if b == [] {
        worker := Idle;
        return;
      }
      ReceiveStep(View(), b);
      var reply := b[0].data;
      ctrlOut := ctrlOut + [reply];
      past := past.(received := past.received + [Reply(|past.attempts| - 1, b[0].request, reply)],
                    due := SettleAll(past.due, b));
      worker := if WireResult(reply) == RES_CONTINUE then Awaiting else Idle;
    }

    /** One turn of the worker with the answers the session gives: whether the send works, and
        what each receive takes until one fails. It leaves no request outstanding. */
    method ServeRequest(sendOk: bool, receives: seq<seq<Answer>>)
      requires worker.Holding? && Order(View())
      modifies this
      ensures var sent := old(tlSession) && sendOk;
              View() == Run(old(View()), [Forward(sendOk)] + (if sent then TurnSteps(receives, 0) else [])) &&
              ctrlOut == old(ctrlOut) + (if sent then Collected(receives, 0) else [])
      ensures Order(View()) && worker == Idle
    {
      hide WireResult, Run, Order, Attribution, Orderly, Step, SettleAll;
      ghost var es, start := [Forward(sendOk)], View();
      ghost var turn := [Forward(sendOk)] + (if tlSession && sendOk then TurnSteps(receives, 0) else []);
      ghost var out := ctrlOut + (if tlSession && sendOk then Collected(receives, 0) else []);
      StepInv(start, Forward(sendOk));
      RunOne(start, Forward(sendOk));
      BusyHasAttempt(start);
      ForwardRequest(sendOk);
      ForwardLeaves(start, sendOk);
      var i := 0;
      while worker == Awaiting
        invariant View() == Run(start, es) && Order(View())
        invariant worker == Awaiting || worker == Idle
        invariant i <= |receives| + 1 && (worker == Awaiting ==> i <= |receives|)
        invariant es + (if worker == Awaiting then TurnSteps(receives, i) else []) == turn
        invariant ctrlOut + (if worker == Awaiting then Collected(receives, i) else []) == out
        decreases |receives| + 1 - i
      {
        var b := if i < |receives| then receives[i] else [];
        BusyHasAttempt(View());
        ReceiveRun(start, es, b);
        ReceiveLeaves(View(), b);
        ghost var more := if b == [] then [Receive(b)] else [Receive(b), PushReply];
        Joined(es, more, TurnSteps(receives, i + 1));
        if b != [] { Joined(ctrlOut, [b[0].data], Collected(receives, i + 1)); }
        ReceiveReply(b);
        es := es + more;
        i := i + 1;
      }
      assert es + [] == es && ctrlOut + [] == ctrlOut;
    }

    method StartCtrlMode()
      requires worker == Exited
      modifies this
      ensures View() == Step(old(View()), Open)
    {
      hide WireResult;
      if ctrlMode { return; }
      ctrlMode, ctrlStop, tlSession, worker := true, false, true, Idle;
      past := past.(due := []);
    }

    /** The end of `stop_ctrl_mode`, once the worker thread has been joined. */
    method FinishStop()
      requires ctrlMode && ctrlStop && worker == Exited
      modifies this
      ensures View() == Step(old(View()), Join)
    {
      tlSession, ctrlMode := false, false;
    }

    method RequestStopMode()
      modifies this
      ensures View() == Step(old(View()), RequestStop)
    {
      if !ctrlMode { return; }
      ctrlStop := true;
    }
  }

  lemma RunOne(s: State, e: Event)
    ensures Run(s, [e]) == Step(s, e)
  {
    hide Step;
    assert [e][1..] == [];
    assert Run(Step(s, e), []) == Step(s, e);
  }

  lemma {:induction false} RunSnoc(s: State, es: seq<Event>, e: Event)
    ensures Run(s, es + [e]) == Step(Run(s, es), e)
    decreases |es|
  {
    hide Step;
    if es == [] {
      RunOne(s, e);
      assert es + [e] == [e];
    } else {
      assert (es + [e])[1..] == es[1..] + [e];
      RunSnoc(Step(s, es[0]), es[1..], e);
    }
  }
}
