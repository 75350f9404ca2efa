/**
 Reading a sample back as a decoder does: the byte stream format of ITU-T H.264 Annex B,
 section B.1, against the access units of `Passthrough`.
 */
module AnnexB {
  import opened Bytes
  import opened H264
  import opened Passthrough

  // ---------- The byte stream syntax ----------

  /** Leading zero bytes, then 00 00 01: where the NAL unit starts. */
  function NalStart(t: bytes, p: nat): (r: Option<nat>)
    requires p <= |t|
    ensures r.Some? ==> p + 3 <= r.value <= |t|
    decreases |t| - p
  {
    if p + 3 <= |t| && t[p] == 0 && t[p + 1] == 0 && t[p + 2] == 1 then Some(p + 3)
    else if p < |t| && t[p] == 0 then NalStart(t, p + 1)
    else None
  }

  /** Three bytes that cannot be inside a NAL unit. */
  predicate Stops(a: byte, b: byte, c: byte) {
    a == 0 && b == 0 && c <= 1
  }

  function NalEnd(t: bytes, p: nat): (r: nat)
    requires p <= |t|
    ensures p <= r <= |t|
    decreases |t| - p
  {
    if p == |t| || (p + 3 <= |t| && Stops(t[p], t[p + 1], t[p + 2])) then p else NalEnd(t, p + 1)
  }

  /** The NAL units of a byte stream from `p` on. */
  function Units(t: bytes, p: nat): seq<bytes>
    requires p <= |t|
    decreases |t| - p
  {
    match NalStart(t, p)
    case None => []
    case Some(q) => [t[q..NalEnd(t, q)]] + Units(t, NalEnd(t, q))
  }

  /** Emulation prevention (section 7.4.1): no stop pattern inside, no zero byte last. */
  ghost predicate EmulationFree(nal: bytes) {
    nal != [] && nal[|nal| - 1] != 0 &&
    forall i :: 0 <= i < |nal| - 2 ==> !Stops(nal[i], nal[i + 1], nal[i + 2])
  }

  function Joined(nals: seq<bytes>): bytes {
    if nals == [] then [] else [0, 0, 0, 1] + nals[0] + Joined(nals[1..])
  }

  lemma JoinedStarts(nals: seq<bytes>)
    ensures nals == [] || (|Joined(nals)| >= 4 && Joined(nals)[..4] == START_CODE)
  {
    if nals != [] {
      assert Joined(nals)[..4] == START_CODE;
    }
  }

  /** The end of a unit is found where the next start code or the end of the stream is. */
  lemma {:induction false} EndReadsBack(t: bytes, q: nat, nal: bytes, i: nat)
    requires EmulationFree(nal) && i <= |nal| && At(t, q, nal)
    requires q + |nal| == |t| || At(t, q + |nal|, START_CODE)
    ensures q + |nal| <= |t| && NalEnd(t, q + i) == q + |nal|
    decreases |nal| - i
  {
    hide At;
    AtIndex(t, q, nal, 0);
    AtIndex(t, q, nal, |nal| - 1);
    var e := q + |nal|;
    if e < |t| {
      AtIndex(t, e, START_CODE, 0);
      AtIndex(t, e, START_CODE, 1);
      AtIndex(t, e, START_CODE, 2);
    }
    if i < |nal| {
      AtIndex(t, q, nal, i);
      if i + 1 < |nal| { AtIndex(t, q, nal, i + 1); }
      if i + 2 < |nal| { AtIndex(t, q, nal, i + 2); }
      EndReadsBack(t, q, nal, i + 1);
    }
  }

  lemma StartReadsBack(t: bytes, p: nat)
    requires At(t, p, START_CODE)
    ensures p + 4 <= |t| && NalStart(t, p) == Some(p + 4)
  {
    hide At;
    AtIndex(t, p, START_CODE, 0);
    AtIndex(t, p, START_CODE, 1);
    AtIndex(t, p, START_CODE, 2);
    AtIndex(t, p, START_CODE, 3);
    assert NalStart(t, p + 1) == Some(p + 4);
  }

  /** A decoder finds exactly the units that were written. */
  lemma {:induction false} UnitsReadBack(t: bytes, p: nat, nals: seq<bytes>)
    requires p <= |t| && t[p..] == Joined(nals)
    requires forall i :: 0 <= i < |nals| ==> EmulationFree(nals[i])
    ensures Units(t, p) == nals
    decreases |nals|
  {
    hide EmulationFree, NalEnd, NalStart;
    if nals == [] {
      NothingStarts(t);
    } else {
      var nal, rest := nals[0], Joined(nals[1..]);
      assert t[p..] == START_CODE + nal + rest;
      assert t[p..p + 4] == t[p..][..4] == START_CODE;
      assert t[p + 4..p + 4 + |nal|] == t[p..][4..4 + |nal|] == nal;
      var e := p + 4 + |nal|;
      assert t[e..] == t[p..][4 + |nal|..] == rest;
      StartReadsBack(t, p);
      JoinedStarts(nals[1..]);
      if nals[1..] != [] {
        assert t[e..e + 4] == t[e..][..4] == START_CODE;
      }
      EndReadsBack(t, p + 4, nal, 0);
      UnitsReadBack(t, e, nals[1..]);
    }
  }

  lemma NothingStarts(t: bytes)
    ensures NalStart(t, |t|) == None
  {
  }

  // ---------- Access units ----------

  /** The NAL units of a sample: its members, each IDR behind the non-empty parameter sets. */
  function Pieces(tr: Track, u: seq<Nalu>): seq<bytes>
    requires forall i :: 0 <= i < |u| ==> Keeps(u[i])
    decreases |u|
  {
    if u == [] then [] else Pieces(tr, u[..|u| - 1]) + PiecesOf(tr, u[|u| - 1])
  }

  function PiecesOf(tr: Track, n: Nalu): seq<bytes>
    requires Keeps(n)
  {
    (if n.data[0] % 32 == 5 then
       (if tr.sps != [] then [tr.sps] else []) + (if tr.pps != [] then [tr.pps] else [])
     else []) + [n.data]
  }

  lemma {:induction false} JoinedAppend(a: seq<bytes>, b: seq<bytes>)
    ensures Joined(a + b) == Joined(a) + Joined(b)
  {
    if a == [] {
      assert a + b == b;
    } else {
      assert (a + b)[1..] == a[1..] + b;
      JoinedAppend(a[1..], b);
    }
  }

  lemma JoinedOne(nal: bytes)
    ensures Joined([nal]) == Annexb(nal)
  {
    assert [nal][1..] == [];
  }

  lemma WrittenIsJoined(tr: Track, n: Nalu)
    requires Keeps(n)
    ensures Joined(PiecesOf(tr, n)) == Written(tr, n)
  {
    hide Joined, Annexb, Keeps;
    var a := if tr.sps != [] then [tr.sps] else [];
    var b := if tr.pps != [] then [tr.pps] else [];
    JoinedOne(n.data);
    JoinedOne(tr.sps);
    JoinedOne(tr.pps);
    NoneJoined();
    JoinedAppend(a, b);
    JoinedAppend(a + b, [n.data]);
    assert [] + [n.data] == [n.data];
  }

  lemma NoneJoined()
    ensures Joined([]) == []
  {
  }

  lemma {:induction false} AuIsJoined(tr: Track, u: seq<Nalu>)
    requires forall i :: 0 <= i < |u| ==> Keeps(u[i])
    ensures AuBytes(tr, u) == Joined(Pieces(tr, u))
    decreases |u|
  {
    hide Written, PiecesOf, Keeps, Joined;
    if u == [] {
      NoneJoined();
    } else {
      var n := |u| - 1;
      AuIsJoined(tr, u[..n]);
      WrittenIsJoined(tr, u[n]);
      JoinedAppend(Pieces(tr, u[..n]), PiecesOf(tr, u[n]));
    }
  }

  /** A decoder fed with a sample sees the sample's NAL units, an IDR behind the cached parameter
      sets, provided the encoder and the session description obey emulation prevention. */
  lemma SampleReadsBack(tr: Track, s: Sample, u: seq<Nalu>)
    requires AllKept(u) && IsSample(tr, s, u)
    requires forall i :: 0 <= i < |Pieces(tr, u)| ==> EmulationFree(Pieces(tr, u)[i])
    ensures Units(s.data, 0) == Pieces(tr, u)
    ensures s.flags == 1 <==> exists i :: 0 <= i < |u| && u[i].data[0] % 32 == 5
  {
    hide Joined, Pieces, Units, EmulationFree, AuBytes;
    AuIsJoined(tr, u);
    assert s.data[0..] == s.data;
    UnitsReadBack(s.data, 0, Pieces(tr, u));
  }
}
