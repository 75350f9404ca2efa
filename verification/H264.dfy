/**
 H.264 depacketisation (stubs/rtsp_client.cpp): NAL units out of RTP packets, single, STAP-A
 and FU-A. The specification of the decoder is the sender of RFC 6184: sections 5.6, 5.7.1 and
 5.8, on top of the RTP header of RFC 3550, sections 5.1 and 5.3.1.
 */
module H264 {
  import opened Bytes

  datatype Nalu = Nalu(data: bytes, ts: nat, auEnd: bool)

  /** The fields of the client that decoding changes. */
  datatype Depack = Depack(queue: seq<Nalu>, fuBuf: bytes, fuTs: nat, fuAuEnd: bool)

  /** What the decoder needs of a packet: timestamp, marker and payload. */
  datatype Payload = Payload(ts: nat, marker: bool, data: bytes)

  const TYPE_STAP_A := 24
  const TYPE_FU_A := 28

  function U16(s: bytes, p: nat): nat
    requires p + 2 <= |s|
  {
    var hi: int := s[p];
    hi * 256 + s[p + 1]
  }

  function U32(s: bytes, p: nat): nat
    requires p + 4 <= |s|
  {
    U16(s, p) * 65536 + U16(s, p + 2)
  }

  // ---------- Decoding ----------

  /** The RTP header: None when the packet is dropped. */
  function ParseRtp(rtp: bytes, pt: nat): Option<Payload> {
    if |rtp| < 12 || rtp[0] / 64 != 2 || rtp[1] % 128 != pt then None
    else
      var off := 12 + 4 * (rtp[0] % 16);
      var ext := rtp[0] / 16 % 2 == 1;
      if ext && |rtp| < off + 4 then None
      else
        var start := if ext then off + 4 + U16(rtp, off + 2) * 4 else off;
        if start >= |rtp| then None
        else Some(Payload(U32(rtp, 4), rtp[1] >= 128, rtp[start..]))
  }

  /** The units of an aggregation packet from `i` on. */
  function StapUnits(p: Payload, i: nat): seq<Nalu>
    requires i <= |p.data|
    decreases |p.data| - i
  {
    if i + 2 > |p.data| then []
    else
      var size := U16(p.data, i);
      var j := i + 2;
      if size == 0 || j + size > |p.data| then []
      else
        [Nalu(p.data[j..j + size], p.ts, p.marker && j + size == |p.data|)] + StapUnits(p, j + size)
  }

  function DecodeFu(s: Depack, p: Payload): Depack
    requires |p.data| > 0
  {
    if |p.data| < 2 then s
    else
      var start := p.data[1] >= 128;
      var end := p.data[1] / 64 % 2 == 1;
      if !start && s.fuBuf == [] then s
      else
        var s1 := if start
          then s.(fuBuf := [p.data[0] / 32 * 32 + p.data[1] % 32] + p.data[2..], fuTs := p.ts, fuAuEnd := p.marker)
          else s.(fuBuf := s.fuBuf + p.data[2..], fuAuEnd := s.fuAuEnd || p.marker);
        if end
        then s1.(queue := s1.queue + [Nalu(s1.fuBuf, s1.fuTs, s1.fuAuEnd)], fuBuf := [], fuAuEnd := false)
        else s1
  }

  function DecodePayload(s: Depack, p: Payload): Depack
    requires |p.data| > 0
  {
    var t := p.data[0] % 32;
    if 1 <= t <= 23 then s.(queue := s.queue + [Nalu(p.data, p.ts, p.marker)])
    else if t == TYPE_STAP_A then s.(queue := s.queue + StapUnits(p, 1))
    else if t == TYPE_FU_A then DecodeFu(s, p)
    else s
  }

  /** `decode_rtp_h264` */
  function Decode(s: Depack, pt: nat, rtp: bytes): Depack {
    match ParseRtp(rtp, pt)
    case None => s
    case Some(p) => DecodePayload(s, p)
  }

  function DecodeAll(s: Depack, pt: nat, packets: seq<bytes>): Depack
    decreases |packets|
  {
    if packets == [] then s else DecodeAll(Decode(s, pt, packets[0]), pt, packets[1..])
  }

  // ---------- The sender: RTP headers ----------

  function Put16(v: nat): (s: bytes)
    requires v < 65536
    ensures |s| == 2
  {
    [v / 256, v % 256]
  }

  function Put32(v: nat): (s: bytes)
    requires v < 0x1_0000_0000
    ensures |s| == 4
  {
    Put16(v / 65536) + Put16(v % 65536)
  }

  datatype Extension = NoExtension | Extension(profile: nat, words: bytes)

  /** Header fields that carry no media: any sequence number, source and contributing sources, and the
      padding bit, which the decoder does not look at. */
  datatype Noise = Noise(seqNo: nat, ssrc: nat, csrcs: bytes, ext: Extension, padded: bool)

  ghost predicate ValidNoise(n: Noise) {
    n.seqNo < 65536 && n.ssrc < 0x1_0000_0000 &&
    |n.csrcs| % 4 == 0 && |n.csrcs| <= 60 &&
    (n.ext.Extension? ==>
      n.ext.profile < 65536 && |n.ext.words| % 4 == 0 && |n.ext.words| / 4 < 65536)
  }

  function ExtensionBytes(e: Extension): bytes
    requires e.Extension? ==> e.profile < 65536 && |e.words| / 4 < 65536
  {
    match e
    case NoExtension => []
    case Extension(p, w) => Put16(p) + Put16(|w| / 4) + w
  }

  function FixedHeader(n: Noise, pt: nat, p: Payload): (h: bytes)
    requires ValidNoise(n) && pt < 128 && p.ts < 0x1_0000_0000
    ensures |h| == 12
  {
    [128 + (if n.padded then 32 else 0) + (if n.ext.Extension? then 16 else 0) + |n.csrcs| / 4,
     (if p.marker then 128 else 0) + pt] +
    Put16(n.seqNo) + Put32(p.ts) + Put32(n.ssrc)
  }

  /** An RTP packet (RFC 3550 section 5.1). */
  function MakeRtp(n: Noise, pt: nat, p: Payload): bytes
    requires ValidNoise(n) && pt < 128 && p.ts < 0x1_0000_0000
  {
    FixedHeader(n, pt, p) + n.csrcs + ExtensionBytes(n.ext) + p.data
  }

  lemma Put16ReadsBack(s: bytes, p: nat, v: nat)
    requires v < 65536 && At(s, p, Put16(v))
    ensures p + 2 <= |s| && U16(s, p) == v
  {
    AtIndex(s, p, Put16(v), 0);
    AtIndex(s, p, Put16(v), 1);
  }

  lemma Put32ReadsBack(s: bytes, p: nat, v: nat)
    requires v < 0x1_0000_0000 && At(s, p, Put32(v))
    ensures p + 4 <= |s| && U32(s, p) == v
  {
    hide At, Put16, U16;
    AtSplit(s, p, Put16(v / 65536), Put16(v % 65536));
    Put16ReadsBack(s, p, v / 65536);
    Put16ReadsBack(s, p + 2, v % 65536);
  }

  /** The fixed header as the decoder looks at it. */
  lemma FixedReadsBack(n: Noise, pt: nat, p: Payload, rest: bytes)
    requires ValidNoise(n) && pt < 128 && p.ts < 0x1_0000_0000
    ensures var t := FixedHeader(n, pt, p) + rest;
            t[0] / 64 == 2 && t[1] % 128 == pt && 4 * (t[0] % 16) == |n.csrcs| &&
            (t[0] / 16 % 2 == 1 <==> n.ext.Extension?) &&
            U32(t, 4) == p.ts && (t[1] >= 128 <==> p.marker)
  {
    hide Put16, Put32, U32;
    var h := FixedHeader(n, pt, p);
    var t := h + rest;
    assert At(t, 4, Put32(p.ts)) by { assert t[4..8] == h[4..8] == Put32(p.ts); }
    Put32ReadsBack(t, 4, p.ts);
    assert t[0] == h[0] && t[1] == h[1];
  }

  /** Whatever the contributing sources and the extension, the payload comes out whole. */
  lemma RtpReadsBack(n: Noise, pt: nat, p: Payload)
    requires ValidNoise(n) && pt < 128 && p.ts < 0x1_0000_0000 && p.data != []
    ensures ParseRtp(MakeRtp(n, pt, p), pt) == Some(p)
  {
    hide FixedHeader, U32, U16, Put16;
    var h := FixedHeader(n, pt, p);
    var e := ExtensionBytes(n.ext);
    var t := MakeRtp(n, pt, p);
    assert t == h + (n.csrcs + e + p.data);
    FixedReadsBack(n, pt, p, n.csrcs + e + p.data);
    var off := 12 + |n.csrcs|;
    if n.ext.Extension? {
      ExtensionReadsBack(t, off, n.ext) by { assert t[off..off + |e|] == e; }
    }
    assert t[off + |e|..] == p.data;
  }

  lemma ExtensionReadsBack(t: bytes, off: nat, e: Extension)
    requires e.Extension? && e.profile < 65536 && |e.words| % 4 == 0 && |e.words| / 4 < 65536
    requires At(t, off, ExtensionBytes(e))
    ensures off + 4 <= |t| && 4 + U16(t, off + 2) * 4 == |ExtensionBytes(e)|
  {
    hide At, U16, Put16;
    AtSplit(t, off, Put16(e.profile) + Put16(|e.words| / 4), e.words);
    AtSplit(t, off, Put16(e.profile), Put16(|e.words| / 4));
    Put16ReadsBack(t, off + 2, |e.words| / 4);
  }

  // ---------- The sender: packetisation ----------

  /** How a sender may put NAL units into packets. */
  datatype Unit =
    | Single(nal: bytes)
    | Stap(indicator: byte, nals: seq<bytes>)
    | Fragmented(nal: bytes, frags: seq<bytes>)

  datatype Timed = Timed(unit: Unit, ts: nat, marker: bool)

  ghost predicate ValidNal(nal: bytes) {
    nal != [] && 1 <= nal[0] % 32 <= 23
  }

  function Concat(parts: seq<bytes>): bytes {
    if parts == [] then [] else parts[0] + Concat(parts[1..])
  }

  ghost predicate ValidUnit(u: Unit) {
    match u
    case Single(nal) => ValidNal(nal)
    case Stap(ind, nals) =>
      (ind % 32 == 24 && nals != [] &&
       forall i :: 0 <= i < |nals| ==> ValidNal(nals[i]) && |nals[i]| < 65536)
    case Fragmented(nal, frags) =>
      (ValidNal(nal) && frags != [] && Concat(frags) == nal[1..])
  }

  ghost predicate ValidTimed(t: Timed) {
    ValidUnit(t.unit) && t.ts < 0x1_0000_0000
  }

  function StapBody(nals: seq<bytes>): bytes
    requires forall i :: 0 <= i < |nals| ==> |nals[i]| < 65536
  {
    if nals == [] then [] else Put16(|nals[0]|) + nals[0] + StapBody(nals[1..])
  }

  function FuHeader(nal: bytes, start: bool, end: bool): byte
    requires nal != []
  {
    (if start then 128 else 0) + (if end then 64 else 0) + nal[0] % 32
  }

  /** Fragment `k` (RFC 6184 section 5.8); the marker rides on the last one. */
  function Fragment(t: Timed, k: nat): Payload
    requires t.unit.Fragmented? && t.unit.nal != [] && k < |t.unit.frags|
  {
    var n := |t.unit.frags|;
    Payload(t.ts, t.marker && k + 1 == n,
            [t.unit.nal[0] / 32 * 32 + 28, FuHeader(t.unit.nal, k == 0, k + 1 == n)] + t.unit.frags[k])
  }

  function FragmentsFrom(t: Timed, k: nat): seq<Payload>
    requires t.unit.Fragmented? && t.unit.nal != [] && k <= |t.unit.frags|
    decreases |t.unit.frags| - k
  {
    if k == |t.unit.frags| then [] else [Fragment(t, k)] + FragmentsFrom(t, k + 1)
  }

  function PayloadsOf(t: Timed): seq<Payload>
    requires ValidTimed(t)
  {
    match t.unit
    case Single(nal) => [Payload(t.ts, t.marker, nal)]
    case Stap(ind, nals) => [Payload(t.ts, t.marker, [ind] + StapBody(nals))]
    case Fragmented(_, _) => FragmentsFrom(t, 0)
  }

  function StapNalus(nals: seq<bytes>, ts: nat, marker: bool): seq<Nalu> {
    if nals == [] then []
    else [Nalu(nals[0], ts, marker && |nals| == 1)] + StapNalus(nals[1..], ts, marker)
  }

  /** The NAL units a unit stands for. */
  function NalusOf(t: Timed): seq<Nalu> {
    match t.unit
    case Single(nal) => [Nalu(nal, t.ts, t.marker)]
    case Stap(_, nals) => StapNalus(nals, t.ts, t.marker)
    case Fragmented(nal, _) => [Nalu(nal, t.ts, t.marker)]
  }

  ghost predicate AllValid(ts: seq<Timed>) {
    forall i :: 0 <= i < |ts| ==> ValidTimed(ts[i])
  }

  function AllPayloads(ts: seq<Timed>): seq<Payload>
    requires AllValid(ts)
  {
    if ts == [] then [] else PayloadsOf(ts[0]) + AllPayloads(ts[1..])
  }

  function AllNalus(ts: seq<Timed>): seq<Nalu> {
    if ts == [] then [] else NalusOf(ts[0]) + AllNalus(ts[1..])
  }

  /** `packets` carry these payloads under whatever other header fields. */
  ghost predicate Carries(packets: seq<bytes>, pt: nat, ps: seq<Payload>)
    requires pt < 128
  {
    |packets| == |ps| &&
    forall i :: 0 <= i < |ps| ==>
      ps[i].ts < 0x1_0000_0000 &&
      exists n: Noise :: ValidNoise(n) && packets[i] == MakeRtp(n, pt, ps[i])
  }

  // ---------- Decoding undoes packetisation ----------

  ghost predicate NonEmpty(ps: seq<Payload>) {
    forall i :: 0 <= i < |ps| ==> ps[i].data != []
  }

  function DecodePayloads(s: Depack, ps: seq<Payload>): Depack
    requires NonEmpty(ps)
    decreases |ps|
  {
    if ps == [] then s else DecodePayloads(DecodePayload(s, ps[0]), ps[1..])
  }

  lemma {:induction false} DecodeAppend(s: Depack, a: seq<Payload>, b: seq<Payload>)
    requires NonEmpty(a) && NonEmpty(b)
    ensures NonEmpty(a + b)
    ensures DecodePayloads(s, a + b) == DecodePayloads(DecodePayloads(s, a), b)
    decreases |a|
  {
    hide DecodePayload;
    if a == [] {
      assert a + b == b;
    } else {
      assert (a + b)[1..] == a[1..] + b;
      DecodeAppend(DecodePayload(s, a[0]), a[1..], b);
    }
  }

  lemma {:induction false} StapReadsBack(p: Payload, i: nat, nals: seq<bytes>)
    requires forall k :: 0 <= k < |nals| ==> 0 < |nals[k]| < 65536
    requires At(p.data, i, StapBody(nals)) && i + |StapBody(nals)| == |p.data|
    ensures StapUnits(p, i) == StapNalus(nals, p.ts, p.marker)
    decreases |nals|
  {
    hide At, Put16, U16;
    if nals != [] {
      var size := Put16(|nals[0]|);
      var rest := StapBody(nals[1..]);
      assert StapBody(nals) == size + (nals[0] + rest);
      AtSplit(p.data, i, size, nals[0] + rest);
      AtSplit(p.data, i + 2, nals[0], rest);
      Put16ReadsBack(p.data, i, |nals[0]|);
      AtSlice(p.data, i + 2, nals[0]);
      StapReadsBack(p, i + 2 + |nals[0]|, nals[1..]);
      StapBodyEmpty(nals[1..]);
    }
  }

  lemma AtSlice(t: bytes, p: nat, s: bytes)
    requires At(t, p, s)
    ensures p + |s| <= |t| && t[p..p + |s|] == s
  {
  }

  lemma StapBodyEmpty(nals: seq<bytes>)
    requires forall k :: 0 <= k < |nals| ==> 0 < |nals[k]| < 65536
    ensures StapBody(nals) == [] <==> nals == []
  {
  }

  /** From fragment `k` on, with the earlier ones in the buffer. */
  lemma {:induction false} FragmentsReadBack(s: Depack, t: Timed, k: nat)
    requires ValidTimed(t) && t.unit.Fragmented? && 0 < k <= |t.unit.frags|
    requires k < |t.unit.frags| ==>
               s.fuBuf == t.unit.nal[..1] + Concat(t.unit.frags[..k]) && s.fuTs == t.ts && !s.fuAuEnd
    ensures NonEmpty(FragmentsFrom(t, k))
    ensures DecodePayloads(s, FragmentsFrom(t, k)) ==
            if k == |t.unit.frags| then s
            else s.(queue := s.queue + NalusOf(t), fuBuf := [], fuAuEnd := false)
    decreases |t.unit.frags| - k
  {
    hide DecodeFu;
    var frags := t.unit.frags;
    if k < |frags| {
      var f := Fragment(t, k);
      ConcatSnoc(frags, k);
      var s1 := DecodePayload(s, f);
      var buf := s.fuBuf + frags[k];
      assert buf == t.unit.nal[..1] + Concat(frags[..k + 1]);
      MiddleFragment(s, t, k);
      var all := FragmentsFrom(t, k);
      assert all[0] == f && all[1..] == FragmentsFrom(t, k + 1);
      FragmentsReadBack(s1, t, k + 1);
      assert DecodePayloads(s, all) == DecodePayloads(s1, all[1..]);
      if k + 1 == |frags| {
        assert frags[..k + 1] == frags;
        assert buf == t.unit.nal;
      }
    }
  }

  lemma {:induction false} ConcatSnoc(parts: seq<bytes>, k: nat)
    requires k < |parts|
    ensures Concat(parts[..k + 1]) == Concat(parts[..k]) + parts[k]
  {
    if k == 0 {
      assert parts[..1] == [parts[0]] && parts[..1][1..] == [];
    } else {
      assert parts[..k + 1][1..] == parts[1..][..k];
      assert parts[..k][1..] == parts[1..][..k - 1];
      ConcatSnoc(parts[1..], k - 1);
    }
  }

  lemma MiddleFragment(s: Depack, t: Timed, k: nat)
    requires ValidTimed(t) && t.unit.Fragmented? && 0 < k < |t.unit.frags| && s.fuBuf != []
    ensures var buf := s.fuBuf + t.unit.frags[k];
            var end := s.fuAuEnd || (t.marker && k + 1 == |t.unit.frags|);
            DecodePayload(s, Fragment(t, k)) ==
            if k + 1 < |t.unit.frags| then s.(fuBuf := buf, fuAuEnd := end)
            else s.(queue := s.queue + [Nalu(buf, s.fuTs, end)], fuBuf := [], fuAuEnd := false)
  {
    var d := Fragment(t, k).data;
    assert d[0] % 32 == TYPE_FU_A && d[2..] == t.unit.frags[k];
    assert d[1] < 128 && d[1] / 64 % 2 == (if k + 1 == |t.unit.frags| then 1 else 0);
  }

  /** The first fragment discards whatever an earlier, broken unit left behind. */
  lemma FirstFragment(s: Depack, t: Timed)
    requires ValidTimed(t) && t.unit.Fragmented?
    ensures var buf := t.unit.nal[..1] + t.unit.frags[0];
            DecodePayload(s, Fragment(t, 0)) ==
            if |t.unit.frags| > 1 then s.(fuBuf := buf, fuTs := t.ts, fuAuEnd := false)
            else s.(queue := s.queue + [Nalu(buf, t.ts, t.marker)], fuBuf := [], fuTs := t.ts, fuAuEnd := false)
  {
    var d := Fragment(t, 0).data;
    assert d[0] % 32 == TYPE_FU_A && d[2..] == t.unit.frags[0];
    assert d[1] >= 128 && d[1] % 32 == t.unit.nal[0] % 32;
    assert d[1] / 64 % 2 == (if |t.unit.frags| == 1 then 1 else 0);
    assert d[0] / 32 * 32 + d[1] % 32 == t.unit.nal[0];
    assert t.unit.nal[..1] == [t.unit.nal[0]];
  }

  /** A fragmented unit from any state: its start resynchronises the decoder. */
  lemma FragmentedReadsBack(s: Depack, t: Timed)
    requires ValidTimed(t) && t.unit.Fragmented?
    ensures NonEmpty(FragmentsFrom(t, 0))
    ensures DecodePayloads(s, FragmentsFrom(t, 0)).queue == s.queue + [Nalu(t.unit.nal, t.ts, t.marker)]
    ensures DecodePayloads(s, FragmentsFrom(t, 0)).fuBuf == []
  {
    hide DecodePayload, Fragment;
    var nal, frags := t.unit.nal, t.unit.frags;
    FragmentsSplit(t);
    FirstFragment(s, t);
    var s1 := DecodePayload(s, Fragment(t, 0));
    assert frags[..0] == [] && Concat(frags[..0]) + frags[0] == frags[0];
    ConcatSnoc(frags, 0);
    FragmentsReadBack(s1, t, 1);
    assert DecodePayloads(s, FragmentsFrom(t, 0)) == DecodePayloads(s1, FragmentsFrom(t, 1));
    if |frags| == 1 {
      assert frags[..1] == frags;
      assert nal[..1] + frags[0] == nal;
    }
  }

  lemma FragmentsSplit(t: Timed)
    requires ValidTimed(t) && t.unit.Fragmented?
    ensures FragmentsFrom(t, 0) != [] && FragmentsFrom(t, 0)[0] == Fragment(t, 0)
    ensures FragmentsFrom(t, 0)[1..] == FragmentsFrom(t, 1) && Fragment(t, 0).data != []
  {
  }

  /** One unit, from any state at all. */
  lemma UnitReadsBack(s: Depack, t: Timed)
    requires ValidTimed(t)
    ensures NonEmpty(PayloadsOf(t))
    ensures DecodePayloads(s, PayloadsOf(t)).queue == s.queue + NalusOf(t)
  {
    hide DecodePayload;
    match t.unit {
      case Single(nal) => OnePayload(s, PayloadsOf(t)[0]);
      case Stap(ind, nals) =>
        var p := PayloadsOf(t)[0];
        OnePayload(s, p);
        assert At(p.data, 1, StapBody(nals)) by { assert p.data[1..] == StapBody(nals); }
        StapReadsBack(p, 1, nals);
      case Fragmented(nal, frags) => FragmentedReadsBack(s, t);
    }
  }

  lemma OnePayload(s: Depack, p: Payload)
    requires p.data != []
    ensures NonEmpty([p]) && DecodePayloads(s, [p]) == DecodePayload(s, p)
    ensures var t := p.data[0] % 32;
            DecodePayload(s, p).queue ==
            if 1 <= t <= 23 then s.queue + [Nalu(p.data, p.ts, p.marker)]
            else if t == TYPE_STAP_A then s.queue + StapUnits(p, 1)
            else DecodePayload(s, p).queue
  {
    assert [p][1..] == [];
  }

  lemma {:induction false} UnitsReadBack(s: Depack, ts: seq<Timed>)
    requires AllValid(ts)
    ensures NonEmpty(AllPayloads(ts))
    ensures DecodePayloads(s, AllPayloads(ts)).queue == s.queue + AllNalus(ts)
    decreases |ts|
  {
    hide PayloadsOf, NalusOf, DecodePayload;
    if ts != [] {
      UnitReadsBack(s, ts[0]);
      var s1 := DecodePayloads(s, PayloadsOf(ts[0]));
      UnitsReadBack(s1, ts[1..]);
      DecodeAppend(s, PayloadsOf(ts[0]), AllPayloads(ts[1..]));
      assert s.queue + NalusOf(ts[0]) + AllNalus(ts[1..]) == s.queue + AllNalus(ts);
    }
  }

  lemma {:induction false} PacketsAreTheirPayloads(s: Depack, pt: nat, packets: seq<bytes>, ps: seq<Payload>)
    requires pt < 128 && Carries(packets, pt, ps) && NonEmpty(ps)
    ensures DecodeAll(s, pt, packets) == DecodePayloads(s, ps)
    decreases |ps|
  {
    hide DecodePayload, MakeRtp, ParseRtp;
    if ps != [] {
      assert ps[0].ts < 0x1_0000_0000;
      var n :| ValidNoise(n) && packets[0] == MakeRtp(n, pt, ps[0]);
      RtpReadsBack(n, pt, ps[0]);
      PacketsAreTheirPayloads(DecodePayload(s, ps[0]), pt, packets[1..], ps[1..]);
    }
  }

  /** Depacketisation inverts packetisation: any NAL units, sent in any valid mix of packets with
      any contributing sources and header extensions, are queued exactly as they were, in order,
      with their timestamps and access-unit ends, from whatever state the decoder was in. */
  lemma DepacketisationInverts(s: Depack, pt: nat, ts: seq<Timed>, packets: seq<bytes>)
    requires pt < 128 && AllValid(ts) && Carries(packets, pt, AllPayloads(ts))
    ensures DecodeAll(s, pt, packets).queue == s.queue + AllNalus(ts)
  {
    UnitsReadBack(s, ts);
    PacketsAreTheirPayloads(s, pt, packets, AllPayloads(ts));
  }

  /** Without a start fragment nothing is made up: middle and end fragments met with an empty
      buffer leave no trace. */
  lemma OrphanFragmentsIgnored(s: Depack, p: Payload)
    requires |p.data| >= 2 && p.data[0] % 32 == 28 && p.data[1] < 128 && s.fuBuf == []
    ensures DecodePayload(s, p) == s
  {
  }

  /** Payloads of no use: of a type that the decoder does not know, or fragments without their header. */
  lemma UnknownIgnored(s: Depack, p: Payload)
    requires p.data != [] && !(1 <= p.data[0] % 32 <= 24) && (p.data[0] % 32 == 28 ==> |p.data| == 1)
    ensures DecodePayload(s, p) == s
  {
  }

  /** An aggregate that goes on with something else than whole units: those in front of it are taken, and
      none of them is the last one. */
  lemma {:induction false} StapStops(p: Payload, i: nat, nals: seq<bytes>, tail: bytes)
    requires forall k :: 0 <= k < |nals| ==> 0 < |nals[k]| < 65536
    requires At(p.data, i, StapBody(nals) + tail) && i + |StapBody(nals) + tail| == |p.data| && tail != []
    requires |tail| == 1 || tail[..2] == [0, 0] || |tail| < 2 + (tail[0] as int * 256 + tail[1])
    ensures StapUnits(p, i) == StapNalus(nals, p.ts, false)
    decreases |nals|
  {
    hide At, Put16, U16;
    if nals == [] {
      assert StapBody(nals) + tail == tail;
      TailStops(p, i, tail);
    } else {
      var size := Put16(|nals[0]|);
      var rest := StapBody(nals[1..]) + tail;
      assert StapBody(nals) + tail == size + (nals[0] + rest);
      AtSplit(p.data, i, size, nals[0] + rest);
      AtSplit(p.data, i + 2, nals[0], rest);
      Put16ReadsBack(p.data, i, |nals[0]|);
      AtSlice(p.data, i + 2, nals[0]);
      StapStops(p, i + 2 + |nals[0]|, nals[1..], tail);
    }
  }

  lemma TailStops(p: Payload, i: nat, tail: bytes)
    requires At(p.data, i, tail) && i + |tail| == |p.data| && tail != []
    requires |tail| == 1 || tail[..2] == [0, 0] || |tail| < 2 + (tail[0] as int * 256 + tail[1])
    ensures StapUnits(p, i) == []
  {
    hide At;
    if |tail| > 1 {
      AtIndex(p.data, i, tail, 0);
      AtIndex(p.data, i, tail, 1);
    }
  }

  // ---------- Nothing else is a packet ----------

  lemma Put16Of(s: bytes, p: nat)
    requires p + 2 <= |s|
    ensures U16(s, p) < 65536 && Put16(U16(s, p)) == s[p..p + 2]
  {
  }

  lemma Put32Of(s: bytes, p: nat)
    requires p + 4 <= |s|
    ensures U32(s, p) < 0x1_0000_0000 && Put32(U32(s, p)) == s[p..p + 4]
  {
    hide Put16, U16;
    Put16Of(s, p);
    Put16Of(s, p + 2);
    assert s[p..p + 2] + s[p + 2..p + 4] == s[p..p + 4];
  }

  /** A packet is taken apart exactly when it is one of the track's with a payload that is not empty. */
  lemma ParseRtpIff(rtp: bytes, pt: nat, p: Payload)
    requires pt < 128 && p.ts < 0x1_0000_0000
    ensures ParseRtp(rtp, pt) == Some(p) <==> p.data != [] && exists n :: ValidNoise(n) && rtp == MakeRtp(n, pt, p)
  {
    hide MakeRtp, ParseRtp;
    if p.data != [] {
      forall n | ValidNoise(n) && rtp == MakeRtp(n, pt, p) ensures ParseRtp(rtp, pt) == Some(p) {
        RtpReadsBack(n, pt, p);
      }
    }
    if ParseRtp(rtp, pt) == Some(p) { var n := ParsedIsMade(rtp, pt, p); }
  }

  lemma ParsedIsMade(rtp: bytes, pt: nat, p: Payload) returns (n: Noise)
    requires pt < 128 && p.ts < 0x1_0000_0000 && ParseRtp(rtp, pt) == Some(p)
    ensures p.data != [] && ValidNoise(n) && rtp == MakeRtp(n, pt, p)
  {
    hide Put16, Put32, U16, U32, FixedHeader, ExtensionBytes;
    var off := 12 + 4 * (rtp[0] % 16);
    var ext := rtp[0] / 16 % 2 == 1;
    var start := |rtp| - |p.data|;
    Put16Of(rtp, 2);
    Put32Of(rtp, 4);
    Put32Of(rtp, 8);
    var e := NoExtension;
    if ext { e := ExtensionIsMade(rtp, off, start); }
    n := Noise(U16(rtp, 2), U32(rtp, 8), rtp[12..off], e, rtp[0] / 32 % 2 == 1);
    FixedIsMade(rtp, pt, p, n);
    assert ExtensionBytes(NoExtension) == [] by { NoBytes(); }
    assert rtp == rtp[..12] + rtp[12..off] + rtp[off..start] + rtp[start..];
  }

  lemma NoBytes()
    ensures ExtensionBytes(NoExtension) == []
  {
  }

  lemma ExtensionIsMade(rtp: bytes, off: nat, start: nat) returns (e: Extension)
    requires off + 4 <= |rtp| && start == off + 4 + U16(rtp, off + 2) * 4 <= |rtp|
    ensures e.Extension? && e.profile < 65536 && |e.words| % 4 == 0 && |e.words| / 4 < 65536
    ensures ExtensionBytes(e) == rtp[off..start]
  {
    hide Put16, U16;
    Put16Of(rtp, off);
    Put16Of(rtp, off + 2);
    e := Extension(U16(rtp, off), rtp[off + 4..start]);
    assert rtp[off..start] == rtp[off..off + 2] + rtp[off + 2..off + 4] + rtp[off + 4..start];
  }

  lemma FixedIsMade(rtp: bytes, pt: nat, p: Payload, n: Noise)
    requires |rtp| >= 12 && rtp[0] / 64 == 2 && rtp[1] % 128 == pt && ValidNoise(n)
    requires |n.csrcs| == 4 * (rtp[0] % 16) && (n.ext.Extension? <==> rtp[0] / 16 % 2 == 1)
    requires n.padded <==> rtp[0] / 32 % 2 == 1
    requires p.ts < 0x1_0000_0000 && (p.marker <==> rtp[1] >= 128)
    requires Put16(n.seqNo) == rtp[2..4] && Put32(p.ts) == rtp[4..8] && Put32(n.ssrc) == rtp[8..12]
    ensures FixedHeader(n, pt, p) == rtp[..12]
  {
    hide Put16, Put32;
    FirstByte(rtp[0]);
    assert rtp[..12] == [rtp[0], rtp[1]] + rtp[2..4] + rtp[4..8] + rtp[8..12];
  }

  lemma FirstByte(b: byte)
    ensures b == b / 64 * 64 + b / 32 % 2 * 32 + b / 16 % 2 * 16 + b % 16
  {
  }

  // ---------- The client's method ----------

  class Client {
    const pt: nat
    var queue: seq<Nalu>
    var fuBuf: bytes
    var fuTs: nat
    var fuAuEnd: bool

    constructor (payloadType: nat)
      ensures pt == payloadType && View() == Depack([], [], 0, false)
    {
      pt := payloadType;
      queue, fuBuf, fuTs, fuAuEnd := [], [], 0, false;
    }

    ghost function View(): Depack
      reads this
    {
      Depack(queue, fuBuf, fuTs, fuAuEnd)
    }

    method DecodeRtpH264(rtp: bytes)
      modifies this
      ensures View() == Decode(old(View()), pt, rtp)
    {
      hide U16, U32;
      if |rtp| < 12 { return; }
      if rtp[0] / 64 != 2 { return; }
      var m := rtp[1] >= 128;
      if rtp[1] % 128 != pt { return; }
      var ts := U32(rtp, 4);
      var off := 12 + 4 * (rtp[0] % 16);
      if rtp[0] / 16 % 2 == 1 {
        if |rtp| < off + 4 { return; }
        off := off + 4 + U16(rtp, off + 2) * 4;
      }
      if off >= |rtp| { return; }
      Dispatch(Payload(ts, m, rtp[off..]));
    }

    method Dispatch(p: Payload)
      requires |p.data| > 0
      modifies this
      ensures View() == DecodePayload(old(View()), p)
    {
      hide DecodeFu, StapUnits;
      var t := p.data[0] % 32;
      if 1 <= t <= 23 {
        queue := queue + [Nalu(p.data, p.ts, p.marker)];
      } else if t == TYPE_STAP_A {
        SplitStap(p);
      } else if t == TYPE_FU_A {
        AppendFragment(p);
      }
    }

    method SplitStap(p: Payload)
      requires |p.data| > 0
      modifies this`queue
      ensures queue == old(queue) + StapUnits(p, 1)
    {
      hide U16;
      var i := 1;
      while i + 2 <= |p.data|
        invariant 1 <= i <= |p.data|
        invariant queue + StapUnits(p, i) == old(queue) + StapUnits(p, 1)
      {
        var size := U16(p.data, i);
        if size == 0 || i + 2 + size > |p.data| { break; }
        var j := i + 2;
        queue := queue + [Nalu(p.data[j..j + size], p.ts, p.marker && j + size == |p.data|)];
        i := j + size;
      }
    }

    method AppendFragment(p: Payload)
      requires |p.data| > 0
      modifies this
      ensures View() == DecodeFu(old(View()), p)
    {
      if |p.data| < 2 { return; }
      var end := p.data[1] / 64 % 2 == 1;
      if p.data[1] >= 128 {
        fuBuf := [p.data[0] / 32 * 32 + p.data[1] % 32] + p.data[2..];
        fuTs, fuAuEnd := p.ts, p.marker;
      } else if fuBuf != [] {
        fuBuf := fuBuf + p.data[2..];
        if p.marker { fuAuEnd := true; }
      } else {
        return;
      }
      if end {
        queue := queue + [Nalu(fuBuf, fuTs, fuAuEnd)];
        fuBuf := [];
        fuAuEnd := false;
      }
    }
  }
}
