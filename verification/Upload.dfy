/**
 The resumable chunked upload (src/tunnel_upload.cpp): hash the part the printer already has,
 then send the rest chunk by chunk, the digest of the whole file riding on the last chunk.
 Reads, sends, digest calls and the user's cancel button may turn out any way.
 */
module Upload {
  import opened Bytes
  import opened Json
  import opened JsonRoundTrip
  import opened JsonSpelling
  import opened Replies
  import opened Wire
  import opened Session

  const U64 := 0x1_0000_0000_0000_0000

  /** One FILE_UPLOAD fragment. The digest is kept as the bytes it has absorbed. */
  datatype Chunk = Chunk(fragId: nat, offset: nat, size: nat, digest: Option<bytes>, data: bytes)

  datatype Result = Done | Cancelled | ReadError | DigestError | SendError

  // ---------- The reply to the init request ----------

  const KEY_REPLY: bytes := [114, 101, 112, 108, 121]
  const KEY_CHUNK_SIZE: bytes := [99, 104, 117, 110, 107, 95, 115, 105, 122, 101]
  const KEY_OFFSET: bytes := [111, 102, 102, 115, 101, 116]
  const RESULT_CONTINUE := 1
  const RESULT_FILE_EXIST := 19

  datatype Init = Init(bufferSize: nat, offset: nat)

  /** `parse_upload_init_reply`, the chunk size turned into bytes as its caller does. */
  function ParseInit(wire: bytes): (r: Option<Init>)
    ensures r.Some? ==> 1024 <= r.value.bufferSize && r.value.offset < U64
  {
    match Parse(wire)
    case Err(_) => None
    case Ok(v, _) =>
      var code := ResultCode(v);
      var reply := Field(v, KEY_REPLY);
      if (code != RESULT_CONTINUE && code != RESULT_FILE_EXIST) || !reply.Object? then None
      else
        var kb := AsInt(Field(reply, KEY_CHUNK_SIZE)) % U32;
        if kb == 0 then None else Some(Init(kb * 1024, AsInt(Field(reply, KEY_OFFSET)) % U64))
  }

  /** What a text grants: the result is 1 or 19, and under `reply` there is an object whose `chunk_size`,
      in units of 1024 bytes and 32 bits wide, is not zero, and whose `offset` is 64 bits wide. */
  ghost predicate Announces(t: bytes, size: int, offset: int) {
    exists m, r, k, n ::
      Writes(t, Object(m)) && (CodeOf(m, 1) || CodeOf(m, 19)) && Member(Ascii("reply"), Object(r)) in m &&
      Reads(r, Ascii("chunk_size"), k) && Reads(r, Ascii("offset"), n) && k % 4294967296 != 0 &&
      size == k % 4294967296 * 1024 && offset == n % 18446744073709551616
  }

  lemma KeysAre()
    ensures Ascii("reply") == KEY_REPLY && Ascii("chunk_size") == KEY_CHUNK_SIZE && Ascii("offset") == KEY_OFFSET
  {
  }

  /** The init reply is taken for exactly what its text grants. */
  lemma ParseInitIff(t: bytes, size: int, offset: int)
    ensures Announces(t, size, offset) <==>
            ParseInit(t).Some? && ParseInit(t).value.bufferSize == size && ParseInit(t).value.offset == offset
  {
    hide Parse, Writes, CodeOf, Reads, ParseInit;
    KeysAre();
    if m, r, k, n :|
        Writes(t, Object(m)) && (CodeOf(m, 1) || CodeOf(m, 19)) && Member(Ascii("reply"), Object(r)) in m &&
        Reads(r, Ascii("chunk_size"), k) && Reads(r, Ascii("offset"), n) && k % 4294967296 != 0 &&
        size == k % 4294967296 * 1024 && offset == n % 18446744073709551616 {
      ParsedObject(t, m);
      InitOfMembers(t, m);
      FieldIff(m, KEY_REPLY, Object(r));
      SortedInside(t, m, r);
      ReadsIff(r, KEY_CHUNK_SIZE, k);
      ReadsIff(r, KEY_OFFSET, n);
      ResultCodeIff(m, 1);
      ResultCodeIff(m, 19);
    }
    if ParseInit(t).Some? {
      var m, r := InitNeedsMembers(t);
      ParsedObject(t, m);
      InitOfMembers(t, m);
      FieldIff(m, KEY_REPLY, Object(r));
      SortedInside(t, m, r);
      ResultCodeIff(m, ResultCode(Object(m)));
      ReadsIff(r, KEY_CHUNK_SIZE, AsInt(Field(Object(r), KEY_CHUNK_SIZE)));
      ReadsIff(r, KEY_OFFSET, AsInt(Field(Object(r), KEY_OFFSET)));
      assert Writes(t, Object(m));
    }
  }

  /** `parse_upload_init_reply` in terms of the object read. */
  lemma InitOfMembers(t: bytes, m: seq<Member>)
    requires Parse(t) == Ok(Object(m), |t|)
    ensures var code, reply := ResultCode(Object(m)), Field(Object(m), KEY_REPLY);
            var kb := AsInt(Field(reply, KEY_CHUNK_SIZE)) % 4294967296;
            ParseInit(t) ==
              if (code == 1 || code == 19) && reply.Object? && kb != 0
              then Some(Init(kb * 1024, AsInt(Field(reply, KEY_OFFSET)) % 18446744073709551616)) else None
  {
    hide Parse, ResultCode, Field, AsInt;
  }

  lemma InitNeedsMembers(t: bytes) returns (m: seq<Member>, r: seq<Member>)
    requires ParseInit(t).Some?
    ensures Parse(t) == Ok(Object(m), |t|) && Field(Object(m), KEY_REPLY) == Object(r)
  {
    hide ParseValue, ResultCode, AsInt;
    var v := Parse(t).value;
    m, r := v.members, Field(v, KEY_REPLY).members;
  }

  lemma SortedInside(t: bytes, m: seq<Member>, r: seq<Member>)
    requires Parse(t) == Ok(Object(m), |t|) && Member(KEY_REPLY, Object(r)) in m
    ensures Sorted(r)
  {
    hide ParseValue, SkipWs, Sorted;
    ParsedIsWellFormed(t, SkipWs(t, 0));
    var i :| 0 <= i < |m| && m[i] == Member(KEY_REPLY, Object(r));
    assert WellFormed(m[i].val);
  }

  /** A reply with whole numbers in the printer's own spelling: the upload resumes at the offset given. */
  lemma InitReads(m: seq<Member>, r: seq<Member>, k: nat, n: nat)
    requires Printable(Object(m)) && (CodeOf(m, 1) || CodeOf(m, 19)) && Member(Ascii("reply"), Object(r)) in m
    requires Member(Ascii("chunk_size"), Number(k as real)) in r && 0 < k < 4294967296
    requires Member(Ascii("offset"), Number(n as real)) in r && n < 9223372036854775808
    ensures ParseInit(Text(Object(m))) == Some(Init(k * 1024, n))
  {
    hide Writes, CodeOf, Text, ParseInit, Announces;
    var t := Text(Object(m));
    TextWrites(Object(m));
    assert Announces(t, k * 1024, n) by { Granted(t, m, r, k, n); }
    ParseInitIff(t, k * 1024, n);
  }

  lemma Granted(t: bytes, m: seq<Member>, r: seq<Member>, k: nat, n: nat)
    requires Writes(t, Object(m)) && (CodeOf(m, 1) || CodeOf(m, 19)) && Member(Ascii("reply"), Object(r)) in m
    requires Member(Ascii("chunk_size"), Number(k as real)) in r && 0 < k < 4294967296
    requires Member(Ascii("offset"), Number(n as real)) in r && n < 9223372036854775808
    ensures Announces(t, k * 1024, n)
  {
    hide Writes, CodeOf;
    assert Truncates(k as real, k) && Truncates(n as real, n);
    assert Reads(r, Ascii("chunk_size"), k) && Reads(r, Ascii("offset"), n);
    assert k % 4294967296 == k && n % 18446744073709551616 == n;
  }

  /** Any other result refuses the upload. */
  lemma InitRefused(t: bytes, m: seq<Member>)
    requires Writes(t, Object(m)) && !CodeOf(m, 1) && !CodeOf(m, 19)
    ensures ParseInit(t) == None
  {
    hide Parse, Writes, CodeOf, ParseInit;
    ParsedObject(t, m);
    InitOfMembers(t, m);
    ResultCodeIff(m, 1);
    ResultCodeIff(m, 19);
  }

  // ---------- What a run of chunks is ----------

  /** The chunks cover `file[from..to]` end to end: numbered from 0, each starting where the one
      before ended, each carrying its slice, and the digest of the whole file exactly on the
      chunk that reaches its end. */
  ghost predicate Tiles(sent: seq<Chunk>, file: bytes, from: nat, to: nat)
    decreases |sent|
  {
    if sent == [] then from == to <= |file|
    else
      var c := sent[|sent| - 1];
      Tiles(sent[..|sent| - 1], file, from, c.offset) &&
      c.fragId == (|sent| - 1) % U32 &&
      0 < c.size && c.offset + c.size == to <= |file| &&
      c.data == file[c.offset..to] &&
      c.digest == if to == |file| then Some(file) else None
  }

  /** The receiver: data goes to its offset. */
  function WriteAt(disk: bytes, offset: nat, data: bytes): bytes {
    if offset > |disk| then disk
    else disk[..offset] + data + (if offset + |data| <= |disk| then disk[offset + |data|..] else [])
  }

  function WriteAll(disk: bytes, sent: seq<Chunk>): bytes
    decreases |sent|
  {
    if sent == [] then disk
    else WriteAt(WriteAll(disk, sent[..|sent| - 1]), sent[|sent| - 1].offset, sent[|sent| - 1].data)
  }

  lemma {:induction false} TilesForward(sent: seq<Chunk>, file: bytes, from: nat, to: nat)
    requires Tiles(sent, file, from, to)
    ensures from <= to <= |file| && (sent != [] ==> from < to)
    decreases |sent|
  {
    if sent != [] {
      TilesForward(sent[..|sent| - 1], file, from, sent[|sent| - 1].offset);
    }
  }

  /** Writing the chunks over the prefix that was already there rebuilds the file. */
  lemma {:induction false} ChunksRebuild(sent: seq<Chunk>, file: bytes, from: nat, to: nat)
    requires Tiles(sent, file, from, to)
    ensures from <= to <= |file| && WriteAll(file[..from], sent) == file[..to]
    decreases |sent|
  {
    TilesForward(sent, file, from, to);
    if sent != [] {
      var c := sent[|sent| - 1];
      TilesForward(sent[..|sent| - 1], file, from, c.offset);
      ChunksRebuild(sent[..|sent| - 1], file, from, c.offset);
      assert file[..c.offset][..c.offset] == file[..c.offset];
      assert file[..c.offset] + file[c.offset..to] == file[..to];
    }
  }

  /** The same seen chunk by chunk. */
  lemma {:induction false} TilesAt(sent: seq<Chunk>, file: bytes, from: nat, to: nat, i: nat)
    requires Tiles(sent, file, from, to) && i < |sent|
    ensures sent[i].fragId == i % U32
    ensures sent[i].offset == if i == 0 then from else sent[i - 1].offset + sent[i - 1].size
    ensures sent[i].digest == if i == |sent| - 1 && to == |file| then Some(file) else None
    decreases |sent|
  {
    var n := |sent| - 1;
    if i < n {
      TilesAt(sent[..n], file, from, sent[n].offset, i);
    } else if i > 0 {
      assert sent[..n][n - 1] == sent[n - 1];
    }
  }

  /** The percentages reached behind each chunk, each of them once. */
  function Percents(sent: seq<Chunk>, size: nat): seq<int>
    decreases |sent|
  {
    if sent == [] || size == 0 then []
    else
      var c, before := sent[|sent| - 1], Percents(sent[..|sent| - 1], size);
      var pct := (c.offset + c.size) * 100 / size;
      if before != [] && before[|before| - 1] == pct then before else before + [pct]
  }

  lemma PercentsSnoc(sent: seq<Chunk>, c: Chunk, size: nat, n: nat)
    requires size > 0
    ensures var before, pct := Percents(sent, size), (c.offset + c.size) * 100 / size;
            Percents(sent + [c], size) ==
              if before != [] && before[|before| - 1] == pct then before else before + [pct]
    ensures Bounded(sent, n) && c.size <= n ==> Bounded(sent + [c], n)
  {
    assert (sent + [c])[..|sent|] == sent;
  }

  ghost predicate Increasing(s: seq<int>) {
    forall i, j :: 0 <= i < j < |s| ==> s[i] < s[j]
  }

  lemma PercentGrows(a: nat, b: nat, n: nat)
    requires a <= b <= n && n > 0
    ensures 0 <= a * 100 / n <= b * 100 / n <= 100
    ensures b == n ==> b * 100 / n == 100
  {
    DivMonotone(a * 100, b * 100, n);
    DivMonotone(b * 100, n * 100, n);
    DivExact(n);
  }

  lemma DivMonotone(x: nat, y: nat, n: nat)
    requires x <= y && n > 0
    ensures 0 <= x / n <= y / n
  {
    var q, p := x / n, y / n;
    if q > p {
      assert n * q >= n * (p + 1) by { MulMonotone(n, p + 1, q); }
      assert false;
    }
  }

  lemma MulMonotone(n: nat, a: int, b: int)
    requires a <= b
    ensures n * a <= n * b
  {
  }

  lemma DivExact(n: nat)
    requires n > 0
    ensures n * 100 / n == 100
  {
  }

  // ---------- The loops ----------

  /** What may go wrong, or come in pieces, in one turn of a loop. */
  datatype Turn = Turn(cancelled: bool, got: nat, updated: bool, finalised: bool, delivered: bool)

  predicate Smooth(t: Turn) {
    !t.cancelled && t.got > 0 && t.updated && t.finalised && t.delivered
  }

  ghost predicate AllSmooth(turns: nat -> Turn) {
    forall i :: Smooth(turns(i))
  }

  function Min(a: int, b: int): int {
    if a < b then a else b
  }

  /** ifstream::read: as many of the bytes wanted as come, from where the file stands. */
  method ReadSome(file: bytes, pos: nat, want: nat, got: nat) returns (buffer: bytes)
    requires pos <= |file|
    ensures |buffer| == Min(got, Min(want, |file| - pos)) && buffer == file[pos..pos + |buffer|]
  {
    var limit := if want < |file| - pos then want else |file| - pos;
    buffer := file[pos..pos + if got < limit then got else limit];
  }

  /** Hash the first `offset` bytes, in reads of at most `bufferSize`. */
  method HashPrefix(file: bytes, offset: nat, bufferSize: nat, turns: nat -> Turn) returns (r: Result, absorbed: bytes)
    requires bufferSize > 0
    ensures r == Done || r == ReadError || r == DigestError
    ensures r == Done ==> offset <= |file| && absorbed == file[..offset]
    ensures offset <= |file| && AllSmooth(turns) ==> r == Done
  {
    absorbed := [];
    var hashed, i := 0, 0;
    while hashed < offset
      invariant hashed <= offset && hashed <= |file| && absorbed == file[..hashed]
    {
      var want := if offset - hashed < bufferSize then offset - hashed else bufferSize;
      var t := turns(i);
      i := i + 1;
      var buffer := ReadSome(file, hashed, want, t.got);
      if buffer == [] { return ReadError, absorbed; }
      if !t.updated { return DigestError, absorbed; }
      absorbed := absorbed + buffer;
      hashed := hashed + |buffer|;
    }
    return Done, absorbed;
  }

  /** One turn of the chunk loop up to the send. A read moves the file position by the bytes it
      got; the size that is hashed and sent is that count cut to 32 bits. */
  method NextChunk(file: bytes, offset: nat, pos: nat, fragId: nat, absorbed: bytes, bufferSize: nat, t: Turn)
    returns (r: Result, c: Chunk, pos': nat, absorbed': bytes)
    requires offset <= pos <= |file| && offset < |file| && bufferSize > 0
    ensures r == Done ==> pos < pos' <= |file| && offset + c.size <= pos'
    ensures r == Done ==> c.fragId == fragId && c.offset == offset && c.size == |c.data| <= bufferSize
    ensures r == Done ==> absorbed' == absorbed + c.data
    ensures r == Done ==> c.digest == if offset + c.size >= |file| then Some(absorbed') else None
    ensures r == Done && (bufferSize < U32 || |file| - offset < U32) && pos == offset ==>
              c.size == pos' - pos && c.data == file[pos..pos']
    ensures r == Cancelled <==> t.cancelled
    ensures pos < |file| && Smooth(t) ==> r == Done
  {
    c, pos', absorbed' := Chunk(fragId, offset, 0, None, []), pos, absorbed;
    if t.cancelled { return Cancelled, c, pos', absorbed'; }
    var want := if |file| - offset < bufferSize then |file| - offset else bufferSize;
    var buffer := ReadSome(file, pos, want, t.got);
    if buffer == [] { return ReadError, c, pos', absorbed'; }
    pos' := pos + |buffer|;
    var size := |buffer| % U32;
    var data := buffer[..size];
    if !t.updated { return DigestError, c, pos', absorbed'; }
    absorbed' := absorbed + data;
    var digest := None;
    if offset + size >= |file| {
      if !t.finalised { return DigestError, c, pos', absorbed'; }
      digest := Some(absorbed');
    }
    c := Chunk(fragId, offset, size, digest, data);
    return if t.delivered then Done else SendError, c, pos', absorbed';
  }

  /** No read can bring 2^32 bytes: neither a whole chunk nor what is left of the file is that long. */
  predicate Countable(file: bytes, init: Init) {
    init.bufferSize < U32 || |file| < init.offset + U32
  }

  /** The chunk loop with its progress callback. */
  method SendChunks(file: bytes, init: Init, hashing: nat -> Turn, sending: nat -> Turn)
    returns (r: Result, sent: seq<Chunk>, reported: seq<int>)
    requires init.bufferSize > 0
    ensures Bounded(sent, init.bufferSize)
    ensures Countable(file, init) && init.offset <= |file| && AllSmooth(hashing) && AllSmooth(sending) ==> r == Done
    ensures Increasing(reported) && reported == Percents(sent, |file|)
    ensures forall i :: 0 <= i < |reported| ==> 0 <= reported[i] <= 100
    ensures Countable(file, init) && sent != [] ==>
              exists to :: init.offset < to <= |file| && Tiles(sent, file, init.offset, to)
    ensures Countable(file, init) && r == Done ==> Tiles(sent, file, init.offset, |file|)
    ensures r == Done && sent != [] ==> reported != [] && reported[|reported| - 1] == 100
    ensures init.offset > |file| ==> r != Done && sent == []
  {
    hide LoopInv, Tiles, Increasing;
    sent, reported := [], [];
    var absorbed;
    r, absorbed := HashPrefix(file, init.offset, init.bufferSize, hashing);
    NothingSent(file, init, absorbed);
    if r != Done { return; }
    var s, i := Loop([], [], absorbed, init.offset, init.offset, 0), 0;
    while s.offset < |file|
      invariant LoopInv(s, file, init)
      invariant s.offset <= s.pos <= |file| && (Countable(file, init) ==> s.pos == s.offset)
      decreases |file| - s.pos
    {
      r, s := OneTurn(s, file, init, sending(i));
      i := i + 1;
      if r != Done {
        LoopMeans(s, file, init);
        return r, s.sent, s.reported;
      }
    }
    LoopMeans(s, file, init);
    return Done, s.sent, s.reported;
  }

  /** The variables of the chunk loop. */
  datatype Loop = Loop(sent: seq<Chunk>, reported: seq<int>, absorbed: bytes, offset: nat, pos: nat, fragId: nat)

  ghost predicate LoopInv(s: Loop, file: bytes, init: Init) {
    init.offset <= s.offset <= s.pos <= |file| && s.fragId == |s.sent| % U32 && Bounded(s.sent, init.bufferSize) &&
    Progress(s.reported, s.offset, |file|, s.sent != []) && s.reported == Percents(s.sent, |file|) &&
    (Countable(file, init) ==>
      s.pos == s.offset && s.absorbed == file[..s.offset] && Tiles(s.sent, file, init.offset, s.offset))
  }

  /** No chunk is longer than the printer asked for. */
  ghost predicate Bounded(sent: seq<Chunk>, n: nat) {
    forall i :: 0 <= i < |sent| ==> sent[i].size <= n
  }

  lemma NothingSent(file: bytes, init: Init, absorbed: bytes)
    ensures Increasing([]) && Bounded([], init.bufferSize)
    ensures init.offset <= |file| && absorbed == file[..init.offset] ==>
              LoopInv(Loop([], [], absorbed, init.offset, init.offset, 0), file, init)
  {
  }

  lemma LoopMeans(s: Loop, file: bytes, init: Init)
    requires LoopInv(s, file, init)
    ensures s.reported == Percents(s.sent, |file|)
    ensures Increasing(s.reported) && forall i :: 0 <= i < |s.reported| ==> 0 <= s.reported[i] <= 100
    ensures init.offset <= s.offset <= |file| && Bounded(s.sent, init.bufferSize)
    ensures Countable(file, init) ==> Tiles(s.sent, file, init.offset, s.offset)
    ensures Countable(file, init) && s.sent != [] ==>
              exists to :: init.offset < to <= |file| && Tiles(s.sent, file, init.offset, to)
    ensures s.sent != [] && s.offset == |file| ==>
              s.reported != [] && s.reported[|s.reported| - 1] == 100
  {
    if Countable(file, init) { TilesForward(s.sent, file, init.offset, s.offset); }
    if s.sent != [] && s.offset == |file| { PercentGrows(s.offset, s.offset, |file|); }
  }

  lemma TilesGrow(s: Loop, file: bytes, init: Init, c: Chunk, pos': nat, absorbed': bytes)
    requires s.pos == s.offset < pos' <= |file| && s.absorbed == file[..s.offset]
    requires Tiles(s.sent, file, init.offset, s.offset) && absorbed' == s.absorbed + c.data
    requires c.fragId == |s.sent| % U32 && c.offset == s.offset && c.size == pos' - s.pos
    requires c.data == file[s.pos..pos'] && c.digest == if c.offset + c.size >= |file| then Some(absorbed') else None
    ensures Tiles(s.sent + [c], file, init.offset, pos') && absorbed' == file[..pos']
  {
    hide Tiles;
    assert file[..s.offset] + file[s.offset..pos'] == file[..pos'];
    assert file[..|file|] == file;
    Extend(s.sent, file, init.offset, s.offset, c, pos');
  }

  lemma LoopParts(s: Loop, file: bytes, init: Init)
    requires LoopInv(s, file, init)
    ensures init.offset <= s.offset <= s.pos <= |file| && Progress(s.reported, s.offset, |file|, s.sent != [])
    ensures Countable(file, init) ==> s.pos == s.offset
  {
  }

  /** The loop's variables behind a chunk and its report. */
  function Behind(s: Loop, c: Chunk, pos': nat, absorbed': bytes, reported: seq<int>): Loop {
    Loop(s.sent + [c], reported, absorbed', s.offset + c.size, pos', (s.fragId + 1) % U32)
  }

  lemma LoopStep(s: Loop, file: bytes, init: Init, c: Chunk, pos': nat, absorbed': bytes, reported: seq<int>)
    requires LoopInv(s, file, init) && s.offset < |file|
    requires s.pos < pos' <= |file| && s.offset + c.size <= pos' && c.size <= init.bufferSize
    requires c.fragId == s.fragId && c.offset == s.offset && absorbed' == s.absorbed + c.data
    requires c.digest == if c.offset + c.size >= |file| then Some(absorbed') else None
    requires Countable(file, init) ==> c.size == pos' - s.pos && c.data == file[s.pos..pos']
    requires Progress(reported, s.offset + c.size, |file|, true)
    requires var pct := (s.offset + c.size) * 100 / |file|;
             reported ==
               if s.reported != [] && s.reported[|s.reported| - 1] == pct then s.reported else s.reported + [pct]
    ensures LoopInv(Behind(s, c, pos', absorbed', reported), file, init)
  {
    hide Tiles, Progress, Percents, Bounded;
    PercentsSnoc(s.sent, c, |file|, init.bufferSize);
    if Countable(file, init) { TilesGrow(s, file, init, c, pos', absorbed'); }
  }

  /** One turn of the loop: a chunk and its progress report, or the end of the upload. */
  method OneTurn(s: Loop, file: bytes, init: Init, t: Turn) returns (r: Result, s': Loop)
    requires LoopInv(s, file, init) && s.offset < |file| && init.bufferSize > 0
    ensures LoopInv(s', file, init)
    ensures if r == Done then s.pos < s'.pos <= |file| && s'.offset <= s'.pos else s' == s
    ensures s.pos < |file| && Smooth(t) ==> r == Done
    ensures Countable(file, init) ==> s'.pos == s'.offset
  {
    hide LoopInv, Progress;
    LoopParts(s, file, init);
    var c, pos', absorbed';
    r, c, pos', absorbed' := NextChunk(file, s.offset, s.pos, s.fragId, s.absorbed, init.bufferSize, t);
    if r != Done { return r, s; }
    var reported := Report(s.reported, s.offset, s.offset + c.size, |file|, s.sent != []);
    LoopStep(s, file, init, c, pos', absorbed', reported);
    s' := Behind(s, c, pos', absorbed', reported);
  }

  /** Percentages reported so far, the last one being the current one once a chunk went out. */
  ghost predicate Progress(reported: seq<int>, offset: nat, size: nat, any: bool) {
    Increasing(reported) &&
    (forall i :: 0 <= i < |reported| ==> 0 <= reported[i] <= 100) &&
    (any <==> reported != []) &&
    (any ==> 0 < size && offset <= size && reported[|reported| - 1] == offset * 100 / size)
  }

  method Report(reported: seq<int>, before: nat, offset: nat, size: nat, any: bool)
    returns (r: seq<int>)
    requires before <= offset <= size && size > 0
    requires Progress(reported, before, size, any)
    ensures Progress(r, offset, size, true)
    ensures var pct := offset * 100 / size;
            r == if reported != [] && reported[|reported| - 1] == pct then reported else reported + [pct]
  {
    PercentGrows(before, offset, size);
    var last := if reported == [] then -1 else reported[|reported| - 1];
    var pct := offset * 100 / size;
    r := if pct != last then reported + [pct] else reported;
  }

  lemma Extend(sent: seq<Chunk>, file: bytes, from: nat, offset: nat, c: Chunk, to: nat)
    requires Tiles(sent, file, from, offset) && offset < to <= |file|
    requires c.fragId == |sent| % U32 && c.offset == offset && c.size == to - offset
    requires c.data == file[offset..to] && c.digest == if to == |file| then Some(file) else None
    ensures Tiles(sent + [c], file, from, to)
  {
    assert (sent + [c])[..|sent|] == sent;
  }

  // ---------- The whole upload ----------

  const RESULT_OK := 0
  const FINAL_ATTEMPTS := 32

  /** The replies after the last chunk: `continue`, which is 1, is waited out for at most 32 replies, and
      the first other code decides, 0 or 19 for success. */
  ghost predicate Accepted(finals: seq<bytes>) {
    exists k :: 0 <= k < |finals| && k < 32 && FirstOther(finals, k) &&
      (StandsFor(finals[k], 0) || StandsFor(finals[k], 19))
  }

  ghost predicate FirstOther(finals: seq<bytes>, k: nat)
    requires k < |finals|
  {
    !StandsFor(finals[k], 1) && forall j :: 0 <= j < k ==> StandsFor(finals[j], 1)
  }

  method AwaitFinal(finals: seq<bytes>) returns (ok: bool)
    ensures ok <==> Accepted(finals)
  {
    hide WireCode, StandsFor;
    var attempt := 0;
    while attempt < FINAL_ATTEMPTS && attempt < |finals|
      invariant attempt <= FINAL_ATTEMPTS && attempt <= |finals|
      invariant forall j :: 0 <= j < attempt ==> StandsFor(finals[j], 1)
    {
      var code := WireCode(finals[attempt]);
      FinalCode(finals[attempt]);
      if code != RESULT_CONTINUE {
        assert FirstOther(finals, attempt);
        return code == RESULT_OK || code == RESULT_FILE_EXIST;
      }
      attempt := attempt + 1;
    }
    return false;
  }

  lemma FinalCode(t: bytes)
    ensures WireCode(t) == RESULT_CONTINUE <==> StandsFor(t, 1)
    ensures WireCode(t) == RESULT_OK <==> StandsFor(t, 0)
    ensures WireCode(t) == RESULT_FILE_EXIST <==> StandsFor(t, 19)
  {
    WireCodeIff(t, 1);
    WireCodeIff(t, 0);
    WireCodeIff(t, 19);
  }

  /** The offset is inside the file, and no chunk is cut by its 32-bit length. */
  ghost predicate Fits(file: bytes, size: int, offset: int) {
    offset <= |file| && (size < 4294967296 || |file| < offset + 4294967296)
  }

  /** `run_chunked_upload`: a success means the printer granted a part of this file, was sent all of it
      from the granted offset on in chunks of the granted size, and holds exactly the file if it held
      the prefix it claimed. And nothing but a failure of file, digest, connection or printer, or the
      user, prevents success. */
  method RunUpload(file: bytes, initReply: bytes, finals: seq<bytes>, hashing: nat -> Turn, sending: nat -> Turn)
    returns (ok: bool, sent: seq<Chunk>, reported: seq<int>)
    ensures Increasing(reported) && reported == Percents(sent, |file|)
    ensures ok ==> Accepted(finals) && exists size, offset :: Announces(initReply, size, offset)
    ensures forall size, offset :: ok && Announces(initReply, size, offset) ==>
              size > 0 && 0 <= offset <= |file| && Bounded(sent, size) &&
              (Fits(file, size, offset) ==>
                Tiles(sent, file, offset, |file|) && WriteAll(file[..offset], sent) == file &&
                (sent != [] ==> sent[0].offset == offset))
    ensures AllSmooth(hashing) && AllSmooth(sending) && Accepted(finals) ==>
              forall size, offset :: Announces(initReply, size, offset) && Fits(file, size, offset) ==> ok
  {
    hide Tiles, ParseInit, WriteAll, Accepted, Announces, Increasing;
    sent, reported := [], [];
    NoReport();
    var init := ParseInit(initReply);
    forall size, offset
      ensures Announces(initReply, size, offset) <==>
              init.Some? && init.value.bufferSize == size && init.value.offset == offset
    {
      ParseInitIff(initReply, size, offset);
    }
    if init == None { return false, sent, reported; }
    assert Announces(initReply, init.value.bufferSize, init.value.offset);
    var r;
    r, sent, reported := SendChunks(file, init.value, hashing, sending);
    if r != Done { return false, sent, reported; }
    if Countable(file, init.value) {
      ChunksRebuild(sent, file, init.value.offset, |file|);
      assert file[..|file|] == file;
      if sent != [] { TilesAt(sent, file, init.value.offset, |file|, 0); }
    }
    ok := AwaitFinal(finals);
  }

  lemma NoReport()
    ensures Increasing([])
  {
  }
}
