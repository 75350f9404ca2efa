/**
 The camera passthrough (stubs/rtsp_passthrough.cpp): a worker assembles NAL units into
 Annex B access units, repeating the cached parameter sets in front of every IDR, and hands
 them through a bounded queue to a polling consumer.
 */
module Passthrough {
  import opened Bytes
  import opened H264

  datatype Sample = Sample(data: bytes, flags: nat)

  /** Queue entries: an access unit or the end-of-stream marker. */
  datatype Entry = Au(sample: Sample) | Marker(flags: nat)

  datatype Fate = Pulled | Dropped

  datatype Track = Track(sps: bytes, pps: bytes)

  const FLAG_SYNC := 1
  const FLAG_EOS := 0x100
  const FLAG_ERR := 0x200
  const MAX_READY := 8
  const TYPE_IDR := 5
  const TYPE_SPS := 7
  const TYPE_PPS := 8
  const START_CODE: bytes := [0, 0, 0, 1]

  // ---------- The worker and the queue ----------

  /** The worker's variables, the unit it has in hand between the two flushes that one unit can
      cause, and the shared queue; then what has happened: every sample flushed and, for those that
      have left the queue, whether they were pulled or dropped. */
  datatype State = State(au: bytes, ts: nat, open: bool, idr: bool, hand: Option<Nalu>, ready: seq<Entry>, ended: bool,
                         flushed: seq<Sample>, fate: seq<Fate>)

  const Start: State := State([], 0, false, false, None, [], false, [], [])

  function Annexb(nal: bytes): bytes {
    START_CODE + nal
  }

  /** Make room: the oldest entries go. */
  function MakeRoom(s: State): State
    decreases |s.ready|
  {
    if |s.ready| >= MAX_READY then MakeRoom(s.(ready := s.ready[1..], fate := s.fate + [Dropped])) else s
  }

  function Flush(s: State): State {
    if !s.open || s.au == [] then s.(au := [], open := false, idr := false)
    else
      var sample := Sample(s.au, if s.idr then FLAG_SYNC else 0);
      var r := MakeRoom(s);
      r.(au := [], open := false, idr := false,
         ready := r.ready + [Au(sample)], flushed := r.flushed + [sample])
  }

  function NalType(n: Nalu): int
    requires n.data != []
  {
    n.data[0] % 32
  }

  /** Units the worker keeps: parameter sets on the wire are dropped. */
  predicate Keeps(n: Nalu): (r: bool)
    ensures r ==> n.data != []
  {
    n.data != [] && NalType(n) != TYPE_SPS && NalType(n) != TYPE_PPS
  }

  /** What a kept unit adds to the access unit. */
  function Written(tr: Track, n: Nalu): bytes
    requires Keeps(n)
  {
    (if NalType(n) == TYPE_IDR then
       (if tr.sps != [] then Annexb(tr.sps) else []) + (if tr.pps != [] then Annexb(tr.pps) else [])
     else []) + Annexb(n.data)
  }

  /** A change of timestamp closes the open unit. */
  function Boundary(s: State, n: Nalu): State {
    if s.open && n.ts != s.ts then Flush(s) else s
  }

  /** The unit goes into the accumulator, and closes it when it is flagged as the last one. */
  function Absorb(s: State, tr: Track, n: Nalu): State
    requires Keeps(n)
  {
    var s2 := if s.open then s else s.(open := true, ts := n.ts);
    var s3 := s2.(au := s2.au + Written(tr, n), idr := s2.idr || NalType(n) == TYPE_IDR);
    if n.auEnd then Flush(s3) else s3
  }

  /** The marker goes in without a look at the cap. */
  function Finish(s: State, graceful: bool): State {
    s.(ready := s.ready + [Marker(if graceful then FLAG_EOS else FLAG_ERR)], ended := true)
  }

  function Pull(s: State): State {
    if s.ready == [] then s
    else s.(ready := s.ready[1..], fate := if s.ready[0].Au? then s.fate + [Pulled] else s.fate)
  }

  datatype Event = Arrives(n: Nalu) | Proceeds | Ends(graceful: bool) | Polls

  /** The worker takes the queue's lock at most once in each of its steps; the consumer may poll
      between any two of them. The worker stops with the end of the stream. A step that is not
      possible now leaves the state as it is. */
  function Step(s: State, tr: Track, e: Event): State {
    match e
    case Arrives(n) => if s.ended || s.hand.Some? || !Keeps(n) then s else Boundary(s, n).(hand := Some(n))
    case Proceeds =>
      if s.hand == None || !Keeps(s.hand.value) then s else Absorb(s.(hand := None), tr, s.hand.value)
    case Ends(g) => if s.ended || s.hand.Some? then s else Finish(s, g)
    case Polls => Pull(s)
  }

  function Run(s: State, tr: Track, es: seq<Event>): State
    decreases |es|
  {
    if es == [] then s else Run(Step(s, tr, es[0]), tr, es[1..])
  }

  // ---------- The queue in every run ----------

  function Entries(samples: seq<Sample>): seq<Entry> {
    seq(|samples|, i requires 0 <= i < |samples| => Au(samples[i]))
  }

  /** The queue holds exactly the samples whose fate is open, in flush order, and after the end
      of the stream the marker behind them until it has been pulled, last of all; a sample was
      dropped only after eight newer ones had been flushed. */
  ghost predicate QueueInv(s: State) {
    |s.fate| <= |s.flushed| <= |s.fate| + 8 && (s.hand.Some? ==> !s.ended) &&
    (if !s.ended then s.ready == Entries(s.flushed[|s.fate|..])
     else (s.ready == [] && |s.fate| == |s.flushed|) ||
          exists f :: s.ready == Entries(s.flushed[|s.fate|..]) + [Marker(f)]) &&
    forall i :: 0 <= i < |s.fate| && s.fate[i] == Dropped ==> i + 8 < |s.flushed|
  }

  lemma QueueBounded(s: State)
    requires QueueInv(s)
    ensures |s.ready| <= 8 + (if s.ended then 1 else 0)
    ensures forall i :: 0 <= i < |s.ready| && s.ready[i].Marker? ==> i == |s.ready| - 1 && s.ended
  {
  }

  lemma FlushQueueInv(s: State)
    requires QueueInv(s) && !s.ended
    ensures QueueInv(Flush(s)) && !Flush(s).ended
  {
    if s.open && s.au != [] {
      var r := MakeRoom(s);
      RoomMade(s);
      var sample := Sample(s.au, if s.idr then FLAG_SYNC else 0);
      var f := Flush(s);
      assert f.flushed[|f.fate|..] == r.flushed[|r.fate|..] + [sample];
      assert f.ready == Entries(f.flushed[|f.fate|..]);
    }
  }

  lemma RoomMade(s: State)
    requires QueueInv(s) && !s.ended
    ensures var r := MakeRoom(s);
            r == (if |s.ready| == MAX_READY then s.(ready := s.ready[1..], fate := s.fate + [Dropped]) else s) &&
            r.ready == Entries(r.flushed[|r.fate|..]) && |r.ready| < MAX_READY
  {
    if |s.ready| == MAX_READY {
      var r := s.(ready := s.ready[1..], fate := s.fate + [Dropped]);
      assert MakeRoom(r) == r;
      assert s.flushed[|s.fate|..][1..] == s.flushed[|s.fate| + 1..];
    }
  }

  lemma PullQueueInv(s: State)
    requires QueueInv(s)
    ensures QueueInv(Pull(s))
  {
    var open := s.flushed[|s.fate|..];
    if s.ready != [] {
      if open == [] {
        assert s.ready[1..] == [] == Entries(open);
      } else {
        assert s.ready[0] == Au(open[0]);
        assert open[1..] == s.flushed[|s.fate| + 1..];
        assert Entries(open)[1..] == Entries(open[1..]);
        if s.ready != Entries(open) {
          var f :| s.ready == Entries(open) + [Marker(f)];
          assert s.ready[1..] == Entries(open[1..]) + [Marker(f)];
        }
      }
    }
  }

  lemma StepQueueInv(s: State, tr: Track, e: Event)
    requires QueueInv(s)
    ensures QueueInv(Step(s, tr, e))
  {
    hide Flush, Pull, Written, Entries;
    match e {
      case Arrives(n) => FlushKeeps(s);
      case Proceeds =>
        if s.hand.Some? && Keeps(s.hand.value) {
          var n, s1 := s.hand.value, s.(hand := None);
          var s2 := if s1.open then s1 else s1.(open := true, ts := n.ts);
          FlushKeeps(s2.(au := s2.au + Written(tr, n), idr := s2.idr || NalType(n) == TYPE_IDR));
        }
      case Ends(g) =>
      case Polls => PullQueueInv(s);
    }
  }

  lemma FlushKeeps(s: State)
    requires QueueInv(s)
    ensures !s.ended ==> QueueInv(Flush(s)) && !Flush(s).ended
    ensures Flush(s).hand == s.hand
  {
    if !s.ended { FlushQueueInv(s); }
    MakeRoomKeeps(s);
  }

  /** Bounded hand-off, in every interleaving of worker and consumer. */
  lemma {:induction false} RunQueueInv(s: State, tr: Track, es: seq<Event>)
    requires QueueInv(s)
    ensures QueueInv(Run(s, tr, es))
    decreases |es|
  {
    hide QueueInv, Step;
    if es != [] {
      StepQueueInv(s, tr, es[0]);
      RunQueueInv(Step(s, tr, es[0]), tr, es[1..]);
    }
  }

  /** What a poll hands out is the oldest sample whose fate is open: pulls follow flush order. */
  lemma PullDelivers(s: State)
    requires QueueInv(s) && s.ready != [] && s.ready[0].Au?
    ensures |s.fate| < |s.flushed| && s.ready[0].sample == s.flushed[|s.fate|]
    ensures Pull(s).fate == s.fate + [Pulled] && Pull(s).flushed == s.flushed
  {
    assert s.flushed[|s.fate|..] != [];
    assert s.ready[0] == Entries(s.flushed[|s.fate|..])[0];
  }

  /** A flush drops a sample exactly when eight are waiting, and then the oldest one. */
  lemma FlushDropsIff(s: State)
    requires QueueInv(s) && !s.ended && s.open && s.au != []
    ensures Flush(s).fate == if |s.ready| == 8 then s.fate + [Dropped] else s.fate
  {
    RoomMade(s);
  }

  /** The end of the stream leaves a marker that says how it ended, 0x100 for an orderly end, 0x200 for an
      error, and the worker takes nothing more. */
  lemma EndMarks(s: State, tr: Track, graceful: bool, e: Event)
    requires !s.ended && s.hand == None
    ensures var t := Step(s, tr, Ends(graceful));
            t == s.(ready := s.ready + [Marker(if graceful then 0x100 else 0x200)], ended := true) &&
            Step(t, tr, e) == if e.Polls? then Pull(t) else t
  {
  }

  /** The worker keeps every unit but the empty ones and the parameter sets, types 7 and 8. */
  lemma KeepsIff(n: Nalu)
    ensures Keeps(n) <==> n.data != [] && n.data[0] % 32 != 7 && n.data[0] % 32 != 8
  {
  }

  // ---------- What the samples are ----------

  /** The kept units that the worker saw, in order. */
  function Kept(es: seq<Event>, busy: bool): seq<Nalu>
    decreases |es|
  {
    if es == [] then []
    else match es[0]
      case Arrives(n) => if !busy && Keeps(n) then [n] + Kept(es[1..], true) else Kept(es[1..], busy)
      case Proceeds => Kept(es[1..], false)
      case Ends(_) => if busy then Kept(es[1..], true) else []
      case Polls => Kept(es[1..], busy)
  }

  function InHand(s: State): seq<Nalu> {
    if s.hand.Some? then [s.hand.value] else []
  }

  function Flatten(units: seq<seq<Nalu>>): seq<Nalu>
    decreases |units|
  {
    if units == [] then [] else Flatten(units[..|units| - 1]) + units[|units| - 1]
  }

  ghost predicate AllKept(u: seq<Nalu>) {
    forall i :: 0 <= i < |u| ==> Keeps(u[i])
  }

  predicate HasIdr(u: seq<Nalu>) {
    exists i :: 0 <= i < |u| && u[i].data != [] && u[i].data[0] % 32 == 5
  }

  /** The bytes of an access unit: each member with its start code, an IDR behind the cached
      parameter sets. */
  function AuBytes(tr: Track, u: seq<Nalu>): bytes
    requires forall i :: 0 <= i < |u| ==> Keeps(u[i])
    decreases |u|
  {
    if u == [] then [] else AuBytes(tr, u[..|u| - 1]) + Written(tr, u[|u| - 1])
  }

  /** One timestamp, and the end-of-unit flag on no member but the last. */
  ghost predicate OneUnit(u: seq<Nalu>) {
    u != [] && AllKept(u) &&
    (forall i :: 0 <= i < |u| ==> u[i].ts == u[0].ts) &&
    (forall i :: 0 <= i < |u| - 1 ==> !u[i].auEnd)
  }

  /** Nothing that belongs together is cut: between two units the flag or the timestamp says so. */
  ghost predicate CutBetween(u: seq<Nalu>, v: seq<Nalu>) {
    u != [] && v != [] && (u[|u| - 1].auEnd || u[0].ts != v[0].ts)
  }

  ghost predicate Grouping(units: seq<seq<Nalu>>) {
    (forall i :: 0 <= i < |units| ==> OneUnit(units[i])) &&
    (forall i :: 0 <= i < |units| - 1 ==> CutBetween(units[i], units[i + 1]))
  }

  ghost predicate IsSample(tr: Track, s: Sample, u: seq<Nalu>)
    requires AllKept(u)
  {
    s.data == AuBytes(tr, u) && s.flags == if HasIdr(u) then 1 else 0
  }

  /** The samples flushed are the access units `units`, the accumulator holds the unit `cur`. */
  ghost predicate Holds(s: State, tr: Track, units: seq<seq<Nalu>>, cur: seq<Nalu>) {
    HoldsOpen(s, tr, units, cur) &&
    match s.hand
    case None => cur == [] && units != [] ==> EndsFlagged(units[|units| - 1])
    case Some(n) =>
      Keeps(n) && !s.ended && (cur != [] ==> cur[0].ts == n.ts) &&
      (cur == [] && units != [] ==> CutBetween(units[|units| - 1], [n]))
  }

  ghost predicate HoldsOpen(s: State, tr: Track, units: seq<seq<Nalu>>, cur: seq<Nalu>) {
    SamplesAre(s.flushed, tr, units) && Grouping(WithOpen(units, cur)) &&
    (s.open <==> cur != []) && AllKept(cur) && s.au == AuBytes(tr, cur) && (s.idr <==> HasIdr(cur)) &&
    (cur != [] ==> s.ts == cur[0].ts && !EndsFlagged(cur))
  }

  ghost predicate EndsFlagged(u: seq<Nalu>) {
    u != [] && u[|u| - 1].auEnd
  }

  function WithOpen(units: seq<seq<Nalu>>, cur: seq<Nalu>): seq<seq<Nalu>> {
    if cur == [] then units else units + [cur]
  }

  ghost predicate SamplesAre(flushed: seq<Sample>, tr: Track, units: seq<seq<Nalu>>) {
    |units| == |flushed| &&
    forall i :: 0 <= i < |units| ==> AllKept(units[i]) && IsSample(tr, flushed[i], units[i])
  }

  lemma MakeRoomKeeps(s: State)
    ensures var r := MakeRoom(s); r.flushed == s.flushed && r.ended == s.ended && r.hand == s.hand
    decreases |s.ready|
  {
    if |s.ready| >= MAX_READY {
      MakeRoomKeeps(s.(ready := s.ready[1..], fate := s.fate + [Dropped]));
    }
  }

  /** Flushing closes the current unit. */
  lemma FlushHolds(s: State, tr: Track, units: seq<seq<Nalu>>, cur: seq<Nalu>)
    requires SamplesAre(s.flushed, tr, units) && cur != [] && Grouping(units + [cur])
    requires s.open && AllKept(cur) && s.au == AuBytes(tr, cur) && (s.idr <==> HasIdr(cur))
    ensures HoldsOpen(Flush(s), tr, units + [cur], []) && Flush(s).ended == s.ended && Flush(s).hand == s.hand
  {
    hide Grouping, HasIdr, Written;
    MakeRoomKeeps(s);
    AuNotEmpty(tr, cur);
    assert !HasIdr([]) by { NoIdr(); }
  }

  lemma NoIdr()
    ensures !HasIdr([])
  {
  }

  lemma AuNotEmpty(tr: Track, u: seq<Nalu>)
    requires u != [] && AllKept(u)
    ensures AuBytes(tr, u) != []
  {
  }

  lemma UnitGrows(cur: seq<Nalu>, n: Nalu)
    requires Keeps(n) && AllKept(cur)
    requires cur != [] ==> OneUnit(cur) && cur[0].ts == n.ts && !EndsFlagged(cur)
    ensures OneUnit(cur + [n])
  {
    hide Keeps;
  }

  /** A further member of the current unit keeps the grouping maximal. */
  lemma GroupingGrows(units: seq<seq<Nalu>>, cur: seq<Nalu>, n: Nalu)
    requires Keeps(n) && AllKept(cur) && Grouping(WithOpen(units, cur))
    requires cur != [] ==> cur[0].ts == n.ts && !EndsFlagged(cur)
    requires cur == [] && units != [] ==> CutBetween(units[|units| - 1], [n])
    ensures Grouping(units + [cur + [n]])
  {
    hide OneUnit, AllKept;
    var u, before := cur + [n], WithOpen(units, cur);
    var all := units + [u];
    if cur != [] { assert before[|units|] == cur; }
    UnitGrows(cur, n);
    forall i | 0 <= i < |all| ensures OneUnit(all[i]) {
      if i < |units| { assert before[i] == units[i]; }
    }
    forall i | 0 <= i < |all| - 1 ensures CutBetween(all[i], all[i + 1]) {
      assert before[i] == units[i];
      if i + 1 < |before| { assert CutBetween(before[i], before[i + 1]); }
    }
  }

  lemma BytesGrow(tr: Track, cur: seq<Nalu>, n: Nalu)
    requires Keeps(n) && AllKept(cur)
    ensures AllKept(cur + [n])
    ensures AuBytes(tr, cur + [n]) == AuBytes(tr, cur) + Written(tr, n)
    ensures HasIdr(cur + [n]) <==> HasIdr(cur) || NalType(n) == TYPE_IDR
  {
    hide Written;
    var u := cur + [n];
    assert u[..|cur|] == cur && u[|cur|] == n;
    if i :| 0 <= i < |cur| && cur[i].data != [] && NalType(cur[i]) == TYPE_IDR {
      assert u[i] == cur[i];
    }
  }

  lemma FlattenSnoc(units: seq<seq<Nalu>>, u: seq<Nalu>)
    ensures Flatten(units + [u]) == Flatten(units) + u
  {
    assert (units + [u])[..|units|] == units;
  }

  /** A unit arrives: a change of timestamp closes the open unit in front of it. */
  lemma BoundaryHolds(s: State, tr: Track, units: seq<seq<Nalu>>, cur: seq<Nalu>, n: Nalu)
    returns (units': seq<seq<Nalu>>, cur': seq<Nalu>)
    requires Holds(s, tr, units, cur) && Keeps(n) && !s.ended && s.hand == None
    ensures Holds(Boundary(s, n).(hand := Some(n)), tr, units', cur') && !Boundary(s, n).ended
    ensures Flatten(units') + cur' == Flatten(units) + cur
  {
    hide Grouping, HasIdr, Flush, AuBytes, SamplesAre, Keeps;
    units', cur' := units, cur;
    if s.open && n.ts != s.ts {
      FlushHolds(s, tr, units, cur);
      units', cur' := units + [cur], [];
      FlattenSnoc(units, cur);
      assert Flatten(units') + [] == Flatten(units) + cur;
    }
  }

  /** The unit in hand goes into the accumulator. */
  lemma AbsorbHolds(s: State, tr: Track, units: seq<seq<Nalu>>, cur: seq<Nalu>)
    returns (units': seq<seq<Nalu>>, cur': seq<Nalu>)
    requires Holds(s, tr, units, cur) && s.hand.Some?
    ensures Keeps(s.hand.value) && var t := Absorb(s.(hand := None), tr, s.hand.value);
            Holds(t, tr, units', cur') && t.hand == None && t.ended == s.ended
    ensures Flatten(units') + cur' == Flatten(units) + cur + [s.hand.value]
  {
    hide Grouping, HasIdr, Written, Flush, AuBytes, SamplesAre, Keeps, Flatten;
    var n, s1 := s.hand.value, s.(hand := None);
    var s2 := if s1.open then s1 else s1.(open := true, ts := n.ts);
    var s3 := s2.(au := s2.au + Written(tr, n), idr := s2.idr || NalType(n) == TYPE_IDR);
    var u := cur + [n];
    MemberHolds(s1, tr, units, cur, n);
    assert Flatten(units) + u == Flatten(units) + cur + [n];
    units', cur' := units, u;
    if n.auEnd {
      FlushHolds(s3, tr, units, u);
      FlattenSnoc(units, u);
      assert Flatten(units + [u]) + [] == Flatten(units) + u;
      units', cur' := units + [u], [];
    }
  }

  lemma MemberHolds(s: State, tr: Track, units: seq<seq<Nalu>>, cur: seq<Nalu>, n: Nalu)
    requires HoldsOpen(s, tr, units, cur) && Keeps(n)
    requires cur != [] ==> cur[0].ts == n.ts
    requires cur == [] && units != [] ==> CutBetween(units[|units| - 1], [n])
    ensures var u := cur + [n];
            SamplesAre(s.flushed, tr, units) && Grouping(units + [u]) && AllKept(u) &&
            s.au + Written(tr, n) == AuBytes(tr, u) &&
            (s.idr || NalType(n) == TYPE_IDR <==> HasIdr(u))
  {
    hide Grouping, HasIdr, Written, AuBytes, SamplesAre, Keeps;
    GroupingGrows(units, cur, n);
    BytesGrow(tr, cur, n);
  }

  lemma StartHolds(tr: Track)
    ensures Holds(Start, tr, [], []) && QueueInv(Start)
  {
    assert !HasIdr([]) by { NoIdr(); }
    assert Entries([]) == [];
  }

  /** Assembly conserves the stream: in every run the samples flushed are exactly the access
      units of the kept stream, the accumulator and the worker's hand hold the unfinished one, and
      nothing is lost, repeated or reordered, whatever the consumer does and whenever. */
  lemma {:induction false} AssemblyConserves(s: State, tr: Track, units: seq<seq<Nalu>>, cur: seq<Nalu>, es: seq<Event>)
    returns (units': seq<seq<Nalu>>, cur': seq<Nalu>)
    requires Holds(s, tr, units, cur)
    ensures Holds(Run(s, tr, es), tr, units', cur')
    ensures Flatten(units') + cur' + InHand(Run(s, tr, es)) ==
            Flatten(units) + cur + InHand(s) + (if s.ended then [] else Kept(es, s.hand.Some?))
    decreases |es|
  {
    hide Holds, Flatten, Keeps, Step, InHand;
    units', cur' := units, cur;
    if es != [] {
      var was, t := Flatten(units) + cur + InHand(s), Step(s, tr, es[0]);
      units', cur' := StepHolds(s, tr, units, cur, es[0]);
      units', cur' := AssemblyConserves(t, tr, units', cur', es[1..]);
      var more := if t.ended then [] else Kept(es[1..], t.hand.Some?);
      assert was + Taken(s, es[0]) + more == was + (Taken(s, es[0]) + more);
    }
  }

  /** What a step adds to the stream that the worker has read. */
  function Taken(s: State, e: Event): seq<Nalu> {
    if e.Arrives? && !s.ended && s.hand == None && Keeps(e.n) then [e.n] else []
  }

  /** One step of either thread. */
  lemma StepHolds(s: State, tr: Track, units: seq<seq<Nalu>>, cur: seq<Nalu>, e: Event)
    returns (units': seq<seq<Nalu>>, cur': seq<Nalu>)
    requires Holds(s, tr, units, cur)
    ensures Holds(Step(s, tr, e), tr, units', cur')
    ensures Flatten(units') + cur' + InHand(Step(s, tr, e)) == Flatten(units) + cur + InHand(s) + Taken(s, e)
    ensures var t := Step(s, tr, e);
            t.ended == (s.ended || (e.Ends? && s.hand == None)) &&
            t.hand.Some? == (if e.Proceeds? then false else s.hand.Some? || Taken(s, e) != []) &&
            (s.ended ==> s.hand == None)
  {
    hide Boundary, Absorb, Flatten, Keeps, Grouping, SamplesAre, HasIdr, AuBytes;
    units', cur' := units, cur;
    if Taken(s, e) != [] {
      units', cur' := BoundaryHolds(s, tr, units, cur, e.n);
    } else if e.Proceeds? && s.hand.Some? {
      units', cur' := AbsorbHolds(s, tr, units, cur);
    }
  }

  // ---------- The grouping is the only one ----------

  lemma {:induction false} FlattenHead(units: seq<seq<Nalu>>)
    requires units != []
    ensures Flatten(units) == units[0] + Flatten(units[1..])
    decreases |units|
  {
    if |units| == 1 {
      assert Flatten(units[..0]) == [] && Flatten(units[1..]) == [];
    } else {
      var n := |units| - 1;
      var head := units[..n];
      FlattenHead(head);
      assert head[1..] == units[1..][..n - 1] && head[0] == units[0];
      assert Flatten(units[1..]) == Flatten(head[1..]) + units[n];
      assert Flatten(units) == Flatten(head) + units[n];
    }
  }

  /** Behind the first unit the stream says that it ends there. */
  lemma HeadCut(a: seq<seq<Nalu>>)
    requires a != [] && Grouping(a) && |a[0]| < |Flatten(a)|
    ensures var f, n := Flatten(a), |a[0]|; n > 0 && (f[n - 1].auEnd || f[n].ts != f[0].ts)
  {
    hide AllKept;
    FlattenHead(a);
    if |a| > 1 {
      FlattenHead(a[1..]);
      assert a[1..][0] == a[1] && CutBetween(a[0], a[1]) && OneUnit(a[0]);
      var f, n := Flatten(a), |a[0]|;
      assert f[n] == a[1][0] && f[n - 1] == a[0][n - 1] && f[0] == a[0][0];
    }
  }

  /** Inside the first unit it does not. */
  lemma HeadWhole(a: seq<seq<Nalu>>, n: nat)
    requires a != [] && Grouping(a) && 0 < n < |a[0]|
    ensures var f := Flatten(a); n < |f| && !f[n - 1].auEnd && f[n].ts == f[0].ts
  {
    hide AllKept, CutBetween;
    FlattenHead(a);
    assert OneUnit(a[0]);
  }

  lemma NoShorterHead(a: seq<seq<Nalu>>, b: seq<seq<Nalu>>)
    requires a != [] && b != [] && Grouping(a) && Grouping(b) && Flatten(a) == Flatten(b)
    ensures |a[0]| >= |b[0]|
  {
    hide OneUnit, CutBetween;
    FlattenHead(b);
    if |a[0]| < |b[0]| {
      HeadCut(a);
      HeadWhole(b, |a[0]|);
    }
  }

  /** The stream alone decides its access units. */
  lemma {:induction false} GroupingUnique(a: seq<seq<Nalu>>, b: seq<seq<Nalu>>)
    requires Grouping(a) && Grouping(b) && Flatten(a) == Flatten(b)
    ensures a == b
    decreases |a|
  {
    hide CutBetween, AllKept;
    if a == [] {
      if b != [] { FlattenHead(b); }
    } else if b == [] {
      FlattenHead(a);
    } else {
      NoShorterHead(a, b);
      NoShorterHead(b, a);
      FlattenHead(a);
      FlattenHead(b);
      var f, n := Flatten(a), |a[0]|;
      assert a[0] == f[..n] == b[0];
      assert Flatten(a[1..]) == f[n..] == Flatten(b[1..]);
      TailGrouping(a);
      TailGrouping(b);
      GroupingUnique(a[1..], b[1..]);
      assert a == [a[0]] + a[1..] && b == [b[0]] + b[1..];
    }
  }

  lemma TailGrouping(a: seq<seq<Nalu>>)
    requires a != [] && Grouping(a)
    ensures Grouping(a[1..])
  {
    hide CutBetween, OneUnit;
    var t := a[1..];
    forall i | 0 <= i < |t| - 1 ensures CutBetween(t[i], t[i + 1]) {
      assert CutBetween(a[i + 1], a[i + 2]);
    }
  }

  // ---------- The object ----------

  class Pass {
    const tr: Track
    var au: bytes
    var auTs: nat
    var auOpen: bool
    var auHasIdr: bool
    var ready: seq<Entry>
    var ended: bool
    ghost var hand: Option<Nalu>
    ghost var flushed: seq<Sample>
    ghost var fate: seq<Fate>

    constructor (track: Track)
      ensures tr == track && View() == Start
    {
      tr := track;
      au, auTs, auOpen, auHasIdr := [], 0, false, false;
      hand, ready, ended, flushed, fate := None, [], false, [], [];
    }

    ghost function View(): State
      reads this
    {
      State(au, auTs, auOpen, auHasIdr, hand, ready, ended, flushed, fate)
    }

    method AppendAnnexb(nal: bytes)
      modifies this`au
      ensures au == old(au) + Annexb(nal)
    {
      au := au + START_CODE;
      au := au + nal;
    }

    method FlushAu()
      modifies this
      ensures View() == Flush(old(View()))
    {
      if !auOpen || au == [] {
        au, auOpen, auHasIdr := [], false, false;
        return;
      }
      var s := Sample(au, if auHasIdr then FLAG_SYNC else 0);
      au, auOpen, auHasIdr := [], false, false;
      ghost var cleared := View();
      while |ready| >= MAX_READY
        invariant MakeRoom(View()) == MakeRoom(cleared)
        decreases |ready|
      {
        ready := ready[1..];
        fate := fate + [Dropped];
      }
      ready := ready + [Au(s)];
      flushed := flushed + [s];
      MakeRoomFrame(old(View()), cleared);
    }

    method WriteUnit(n: Nalu)
      requires Keeps(n)
      modifies this`au, this`auHasIdr
      ensures au == old(au) + Written(tr, n)
      ensures auHasIdr == (old(auHasIdr) || NalType(n) == TYPE_IDR)
    {
      hide Annexb;
      if NalType(n) == TYPE_IDR {
        if tr.sps != [] { AppendAnnexb(tr.sps); }
        if tr.pps != [] { AppendAnnexb(tr.pps); }
        auHasIdr := true;
      }
      AppendAnnexb(n.data);
    }

    /** The first half of a turn of the worker loop. */
    method ReadUnit(n: Nalu) returns (keeps: bool)
      requires !ended && hand == None
      modifies this
      ensures View() == Step(old(View()), tr, Arrives(n))
      ensures keeps == Keeps(n) && !ended && hand == (if keeps then Some(n) else None)
    {
      hide Flush;
      MakeRoomKeeps(View());
      if n.data == [] { return false; }
      var t := NalType(n);
      if t == TYPE_SPS || t == TYPE_PPS { return false; }
      BoundaryKeeps(View(), n);
      if auOpen && n.ts != auTs { FlushAu(); }
      hand := Some(n);
      return true;
    }

    /** The second half. */
    method AddUnit(n: Nalu)
      requires hand == Some(n) && Keeps(n) && !ended
      modifies this
      ensures View() == Step(old(View()), tr, Proceeds)
    {
      hide Flush, Written;
      hand := None;
      if !auOpen { auOpen, auTs := true, n.ts; }
      WriteUnit(n);
      if n.auEnd { FlushAu(); }
    }

    /** A turn with a unit from the wire, the consumer looking away. */
    method HandleNalu(n: Nalu)
      requires !ended && hand == None
      modifies this
      ensures View() == Step(Step(old(View()), tr, Arrives(n)), tr, Proceeds)
    {
      hide Step;
      var was := ReadUnit(n);
      if was { AddUnit(n); } else { NothingInHand(View(), tr); }
    }

    method HandleEnd(graceful: bool)
      modifies this
      ensures View() == Finish(old(View()), graceful)
    {
      ready := ready + [Marker(if graceful then FLAG_EOS else FLAG_ERR)];
      ended := true;
    }

    method TryPull() returns (r: Option<Entry>)
      modifies this
      ensures View() == Pull(old(View()))
      ensures r == if old(ready) == [] then None else Some(old(ready)[0])
    {
      if ready == [] { return None; }
      var e := ready[0];
      if e.Au? { fate := fate + [Pulled]; }
      ready := ready[1..];
      return Some(e);
    }
  }

  lemma BoundaryKeeps(s: State, n: Nalu)
    ensures Boundary(s, n).hand == s.hand && Boundary(s, n).ended == s.ended
  {
    MakeRoomKeeps(s);
  }

  lemma NothingInHand(s: State, tr: Track)
    requires s.hand == None
    ensures Step(s, tr, Proceeds) == s
  {
  }

  /** Making room does not look at the accumulator. */
  lemma {:induction false} MakeRoomFrame(s: State, t: State)
    requires t == s.(au := [], open := false, idr := false)
    ensures MakeRoom(t) == MakeRoom(s).(au := [], open := false, idr := false)
    decreases |s.ready|
  {
    if |s.ready| >= MAX_READY {
      MakeRoomFrame(s.(ready := s.ready[1..], fate := s.fate + [Dropped]),
                    t.(ready := t.ready[1..], fate := t.fate + [Dropped]));
    }
  }
}
