/**
 The FTP control reader (src/ftps.cpp): lines and replies out of a buffer that is filled by reads
 of any size. What it returns must not depend on how the reads cut the stream.

 A reply is what section 4.2 of RFC 959 describes, with one difference that the source makes: any
 line of three digits and a blank ends it, not only one that repeats the code of the first line.
 `WholeReplyIff` says when that difference shows; the client object at the end is proved against
 the functions in front of it.
 */
module Ftp {
  import opened Bytes
  import opened Digits

  const LF: byte := 10
  const CR: byte := 13
  const SPACE: byte := 32
  const CHUNK := 512

  function Newline(s: bytes): (r: Option<nat>)
    ensures r.Some? ==> r.value < |s| && s[r.value] == LF
    ensures r.Some? ==> forall i :: 0 <= i < r.value ==> s[i] != LF
    ensures r.None? ==> forall i :: 0 <= i < |s| ==> s[i] != LF
  {
    if s == [] then None
    else if s[0] == LF then Some(0)
    else match Newline(s[1..])
      case None => None
      case Some(n) => Some(n + 1)
  }

  function WithoutCr(line: bytes): bytes {
    if line != [] && line[|line| - 1] == CR then line[..|line| - 1] else line
  }

  datatype Line = Line(text: bytes, rest: bytes) | NoLine

  /** The first line of what is pending, and what is pending behind it. */
  function FirstLine(pending: bytes): (r: Line)
    ensures r.Line? ==> |r.rest| < |pending|
  {
    match Newline(pending)
    case None => NoLine
    case Some(n) => Line(WithoutCr(pending[..n]), pending[n + 1..])
  }

  predicate IsDigit(c: byte) { 48 <= c <= 57 }

  /** Three digits and a space end a reply, whatever the digits are. */
  predicate EndsReply(line: bytes) {
    |line| >= 4 && IsDigit(line[0]) && IsDigit(line[1]) && IsDigit(line[2]) && line[3] == SPACE
  }

  function CodeOf(line: bytes): int
    requires EndsReply(line)
  {
    (line[0] as int - 48) * 100 + (line[1] as int - 48) * 10 + (line[2] as int - 48)
  }

  /** The accumulated text of a reply: its lines, newline between them; an empty first line
      leaves no newline behind. */
  function Accumulate(acc: bytes, line: bytes): bytes {
    if acc == [] then line else acc + [LF] + line
  }

  datatype Reply = Reply(code: int, body: bytes, rest: bytes) | NoReply

  function FirstReply(pending: bytes, acc: bytes): (r: Reply)
    decreases |pending|
  {
    match FirstLine(pending)
    case NoLine => NoReply
    case Line(text, rest) =>
      var acc' := Accumulate(acc, text);
      if EndsReply(text) then Reply(CodeOf(text), acc', rest) else FirstReply(rest, acc')
  }

  // ---------- What a server sends ----------

  /** A line as sent: its text and whether a CR stands in front of the LF. */
  datatype Sent = Sent(text: bytes, cr: bool)

  ghost predicate ValidLine(l: Sent) {
    (forall i :: 0 <= i < |l.text| ==> l.text[i] as char != '\n') &&
    (!l.cr && l.text != [] ==> l.text[|l.text| - 1] as char != '\r')
  }

  ghost predicate ValidLines(ls: seq<Sent>) {
    forall i :: 0 <= i < |ls| ==> ValidLine(ls[i])
  }

  function LineBytes(l: Sent): bytes {
    l.text + (if l.cr then ['\r' as byte, '\n' as byte] else ['\n' as byte])
  }

  function StreamOf(ls: seq<Sent>): bytes {
    if ls == [] then [] else LineBytes(ls[0]) + StreamOf(ls[1..])
  }

  /** A final line: a code of three digits, a blank, and any text. */
  ghost predicate FinalLine(text: bytes, code: int) {
    |text| >= 4 && text[3] as char == ' ' &&
    exists ds :: |ds| == 3 && AreDigits(ds) && text[..3] == DigitsText(ds) && code == Positional(ds)
  }

  lemma EndsReplyIff(line: bytes, code: int)
    ensures EndsReply(line) && CodeOf(line) == code <==> FinalLine(line, code)
  {
    if EndsReply(line) {
      var ds: seq<nat> := [line[0] as int - 48, line[1] as int - 48, line[2] as int - 48];
      assert line[..3] == DigitsText(ds);
      ThreePlaces(ds);
    }
    if FinalLine(line, code) {
      var ds :| |ds| == 3 && AreDigits(ds) && line[..3] == DigitsText(ds) && code == Positional(ds);
      ThreePlaces(ds);
      assert forall i :: 0 <= i < 3 ==> line[i] == line[..3][i] == DigitsText(ds)[i] == 48 + ds[i];
    }
  }

  lemma ThreePlaces(ds: seq<nat>)
    requires |ds| == 3
    ensures Positional(ds) == ds[0] * 100 + ds[1] * 10 + ds[2]
  {
    assert ds[1..][1..] == ds[2..] && ds[2..][1..] == [];
    assert Power(0) == 1 && Power(1) == 10 * Power(0) && Power(2) == 10 * Power(1);
    assert Positional(ds[2..]) == ds[2] * Power(0);
  }

  /** Lines with a line break between them. */
  function JoinedLines(texts: seq<bytes>): bytes {
    if texts == [] then [] else texts[0] + (if |texts| == 1 then [] else ['\n' as byte]) + JoinedLines(texts[1..])
  }

  function TextsOf(ls: seq<Sent>): seq<bytes> {
    seq(|ls|, i requires 0 <= i < |ls| => ls[i].text)
  }

  /** The text of a reply is its lines joined, those that are empty at the start left out. */
  lemma {:induction false} TextsJoin(acc: bytes, ls: seq<Sent>)
    ensures acc != [] ==> Texts(acc, ls) == JoinedLines([acc] + TextsOf(ls))
    ensures ls != [] && ls[0].text != [] ==> Texts([], ls) == JoinedLines(TextsOf(ls))
    ensures ls != [] && ls[0].text == [] ==> Texts([], ls) == Texts([], ls[1..])
    decreases |ls|
  {
    if ls == [] {
      assert [acc][1..] == [];
    } else {
      var t := ls[0].text;
      assert TextsOf(ls) == [t] + TextsOf(ls[1..]);
      TextsJoin(Accumulate(acc, t), ls[1..]);
      if t != [] { TextsJoin(t, ls[1..]); }
      if acc != [] { OneMore(acc, t, TextsOf(ls[1..])); }
    }
  }

  lemma OneMore(a: bytes, b: bytes, more: seq<bytes>)
    ensures JoinedLines([a] + ([b] + more)) == JoinedLines([a + ['\n' as byte] + b] + more)
  {
    var x, y := [a] + ([b] + more), [a + ['\n' as byte] + b] + more;
    assert x[1..] == [b] + more && ([b] + more)[1..] == more && y[1..] == more;
    assert JoinedLines([b] + more) == b + (if |more| == 0 then [] else ['\n' as byte]) + JoinedLines(more);
  }

  lemma {:induction false} NewlineAt(s: bytes, n: nat)
    requires n < |s| && s[n] == LF && forall i :: 0 <= i < n ==> s[i] != LF
    ensures Newline(s) == Some(n)
    decreases n
  {
    if n > 0 { NewlineAt(s[1..], n - 1); }
  }

  /** A line comes back as its text, under either line ending. */
  lemma LineReadsBack(l: Sent, rest: bytes)
    requires ValidLine(l)
    ensures FirstLine(LineBytes(l) + rest) == Line(l.text, rest)
  {
    var s := LineBytes(l) + rest;
    var n := if l.cr then |l.text| + 1 else |l.text|;
    assert s[..n] == if l.cr then l.text + [CR] else l.text;
    assert s[n + 1..] == rest;
    NewlineAt(s, n);
  }

  function Texts(acc: bytes, ls: seq<Sent>): bytes
    decreases |ls|
  {
    if ls == [] then acc else Texts(Accumulate(acc, ls[0].text), ls[1..])
  }

  /** A reply ends with the first line of three digits and a space: that line decides the code,
      the lines up to it are the text, and every byte behind it is left for the next reply. */
  lemma {:induction false} ReplyReadsBack(ls: seq<Sent>, k: nat, rest: bytes, acc: bytes)
    requires ValidLines(ls) && k < |ls| && EndsReply(ls[k].text)
    requires forall i :: 0 <= i < k ==> !EndsReply(ls[i].text)
    ensures FirstReply(StreamOf(ls) + rest, acc) ==
            Reply(CodeOf(ls[k].text), Texts(acc, ls[..k + 1]), StreamOf(ls[k + 1..]) + rest)
    ensures FinalLine(ls[k].text, FirstReply(StreamOf(ls) + rest, acc).code)
    decreases k
  {
    hide EndsReply, CodeOf, LineBytes, FirstLine, Accumulate, FinalLine;
    EndsReplyIff(ls[k].text, CodeOf(ls[k].text));
    var more := StreamOf(ls[1..]) + rest;
    assert StreamOf(ls) + rest == LineBytes(ls[0]) + more;
    LineReadsBack(ls[0], more);
    var head := ls[..k + 1];
    assert head[0] == ls[0] && head[1..] == ls[1..][..k];
    if k == 0 {
      assert head[1..] == [];
    } else {
      ReplyReadsBack(ls[1..], k - 1, rest, Accumulate(acc, ls[0].text));
      assert ls[1..][(k - 1) + 1..] == ls[k + 1..];
    }
  }

  /** As long as no whole line ends it there is no reply. */
  lemma {:induction false} NoReplyYet(ls: seq<Sent>, rest: bytes, acc: bytes)
    requires ValidLines(ls) && forall i :: 0 <= i < |ls| ==> !EndsReply(ls[i].text)
    requires forall i :: 0 <= i < |rest| ==> rest[i] as char != '\n'
    ensures FirstReply(StreamOf(ls) + rest, acc) == NoReply
    decreases |ls|
  {
    hide EndsReply, LineBytes, FirstLine, Accumulate;
    if ls == [] {
      assert StreamOf(ls) + rest == rest;
      NoLineYet(rest);
    } else {
      var more := StreamOf(ls[1..]) + rest;
      assert StreamOf(ls) + rest == LineBytes(ls[0]) + more;
      LineReadsBack(ls[0], more);
      NoReplyYet(ls[1..], rest, Accumulate(acc, ls[0].text));
    }
  }

  lemma NoLineYet(s: bytes)
    requires forall i :: 0 <= i < |s| ==> s[i] as char != '\n'
    ensures FirstLine(s) == NoLine
  {
  }

  /** A server reply whose last line ends it is consumed whole exactly when no earlier line looks
      like an end: the code's terminator is looser than the standard's, which asks for the code
      of the first line. */
  lemma WholeReplyIff(ls: seq<Sent>, rest: bytes)
    requires ValidLines(ls) && ls != [] && EndsReply(ls[|ls| - 1].text)
    ensures var r := FirstReply(StreamOf(ls) + rest, []);
            r.Reply? && (r.rest == rest <==> forall i :: 0 <= i < |ls| - 1 ==> !EndsReply(ls[i].text))
  {
    hide EndsReply, CodeOf, FirstReply, Texts;
    var k := FirstEnd(ls, 0);
    ReplyReadsBack(ls, k, rest, []);
    if k == |ls| - 1 {
      assert StreamOf(ls[k + 1..]) + rest == rest;
    } else {
      StreamGrows(ls[k + 1..]);
    }
  }

  /** The lines `220-a`, `331 b`, `220 c`: one reply to the standard, but the code ends it at the
      second line, reports 331, and takes the third for the next reply. */
  lemma WholeReplyFails(rest: bytes)
    ensures var a, b, c: bytes := [50, 50, 48, 45, 97], [51, 51, 49, 32, 98], [50, 50, 48, 32, 99];
            var ls := [Sent(a, true), Sent(b, true), Sent(c, true)];
            FirstReply(StreamOf(ls) + rest, []) == Reply(331, a + [LF] + b, c + [CR, LF] + rest)
  {
    hide FirstReply, FirstLine, LineBytes;
    var a, b, c: bytes := [50, 50, 48, 45, 97], [51, 51, 49, 32, 98], [50, 50, 48, 32, 99];
    var ls := [Sent(a, true), Sent(b, true), Sent(c, true)];
    ReplyReadsBack(ls, 1, rest, []);
    assert ls[..2] == [ls[0], ls[1]] && ls[2..] == [ls[2]];
    TwoTexts(ls[0], ls[1]);
    LastLine(ls[2]);
  }

  lemma TwoTexts(x: Sent, y: Sent)
    ensures Texts([], [x, y]) == Accumulate(x.text, y.text)
  {
    assert [x, y][1..] == [y] && [y][1..] == [];
    assert Texts(x.text, [y]) == Texts(Accumulate(x.text, y.text), []);
  }

  lemma LastLine(l: Sent)
    requires l.cr
    ensures StreamOf([l]) == l.text + [CR, LF]
  {
    assert [l][1..] == [];
  }

  ghost function FirstEnd(ls: seq<Sent>, i: nat): (k: nat)
    requires i < |ls| && EndsReply(ls[|ls| - 1].text)
    ensures i <= k < |ls| && EndsReply(ls[k].text) && forall j :: i <= j < k ==> !EndsReply(ls[j].text)
    decreases |ls| - i
  {
    if EndsReply(ls[i].text) then i else FirstEnd(ls, i + 1)
  }

  lemma StreamGrows(ls: seq<Sent>)
    requires ls != []
    ensures |StreamOf(ls)| > 0
  {
  }

  // ---------- The reader ----------

  lemma {:induction false} NewlineStays(a: bytes, b: bytes)
    requires Newline(a).Some?
    ensures Newline(a + b) == Newline(a)
  {
    NewlineAt(a + b, Newline(a).value);
  }

  class Client {
    var ctrlBuf: bytes
    var wire: bytes // what still arrives before the connection fails or times out

    constructor (stream: bytes)
      ensures Pending() == stream && ctrlBuf == []
    {
      ctrlBuf, wire := [], stream;
      new;
      assert [] + stream == stream;
    }

    /** Everything received or still to come that has not been read as lines. */
    ghost function Pending(): bytes
      reads this
    {
      ctrlBuf + wire
    }

    /** `ctrl_read`: some of what is on the wire, cut anywhere up to the size of the buffer. */
    method CtrlRead() returns (got: bytes)
      modifies this`wire
      ensures old(wire) == got + wire && |got| <= CHUNK
      ensures got == [] <==> old(wire) == []
    {
      if wire == [] { return []; }
      var n :| 1 <= n <= |wire| && n <= CHUNK;
      got := wire[..n];
      wire := wire[n..];
    }

    /** The line does not depend on how the stream was cut into reads. */
    method ReadLine() returns (ok: bool, line: bytes)
      modifies this
      ensures match FirstLine(old(Pending()))
              case Line(text, rest) => ok && line == text && Pending() == rest
              case NoLine => !ok && Pending() == old(Pending())
    {
      hide Newline;
      line := [];
      while true
        invariant Pending() == old(Pending())
        decreases |wire|
      {
        var nl := Newline(ctrlBuf);
        if nl.Some? {
          NewlineStays(ctrlBuf, wire);
          assert Pending()[..nl.value] == ctrlBuf[..nl.value];
          assert Pending()[nl.value + 1..] == ctrlBuf[nl.value + 1..] + wire;
          line := WithoutCr(ctrlBuf[..nl.value]);
          ctrlBuf := ctrlBuf[nl.value + 1..];
          return true, line;
        }
        var got := CtrlRead();
        if got == [] {
          assert Pending() == ctrlBuf;
          return false, line;
        }
        assert ctrlBuf + (got + wire) == ctrlBuf + got + wire;
        ctrlBuf := ctrlBuf + got;
      }
    }

    /** The reply does not either, and nothing behind it is consumed. */
    method ReadReply() returns (code: int, body: bytes)
      modifies this
      ensures match FirstReply(old(Pending()), [])
              case Reply(c, b, rest) => code == c && body == b && Pending() == rest
              case NoReply => code == -1
    {
      hide FirstLine, Accumulate, EndsReply;
      body := [];
      while true
        invariant FirstReply(Pending(), body) == FirstReply(old(Pending()), [])
        decreases |Pending()|
      {
        var ok, line := ReadLine();
        if !ok { return -1, body; }
        body := Accumulate(body, line);
        if EndsReply(line) { return CodeOf(line), body; }
      }
    }

    /** `send_cmd` reads the reply to its command; the command itself goes out on the write side. */
    method SendCmd(written: bool) returns (code: int, body: bytes)
      modifies this
      ensures !written ==> code == -1 && Pending() == old(Pending())
      ensures written ==> match FirstReply(old(Pending()), [])
              case Reply(c, b, rest) => code == c && body == b && Pending() == rest
              case NoReply => code == -1
    {
      if !written { return -1, []; }
      code, body := ReadReply();
    }
  }
}
