/**
 The whole way of a picture: from the units that a camera sends, through the demultiplexer and the
 passthrough worker, to what a decoder reads out of the samples.
 */
module Camera {
  import opened Bytes
  import H = H264
  import D = Demux
  import opened Passthrough
  import opened AnnexB

  /** The units that the passthrough keeps. */
  function KeptOf(units: seq<H.Nalu>): seq<H.Nalu> {
    if units == [] then [] else (if Keeps(units[0]) then [units[0]] else []) + KeptOf(units[1..])
  }

  /** The units that the worker takes from the connection; it takes none while it has one in hand,
      and none behind the end. */
  function TakenOff(es: seq<Event>, busy: bool): seq<H.Nalu>
    decreases |es|
  {
    if es == [] then []
    else match es[0]
      case Arrives(n) => if busy then TakenOff(es[1..], true) else [n] + TakenOff(es[1..], Keeps(n))
      case Proceeds => TakenOff(es[1..], false)
      case Ends(_) => if busy then TakenOff(es[1..], true) else []
      case Polls => TakenOff(es[1..], busy)
  }

  lemma {:induction false} KeptOfTaken(es: seq<Event>, busy: bool)
    ensures Kept(es, busy) == KeptOf(TakenOff(es, busy))
    decreases |es|
  {
    hide Keeps;
    if es != [] {
      match es[0] {
        case Arrives(n) =>
          if busy {
            KeptOfTaken(es[1..], true);
          } else {
            KeptOfTaken(es[1..], Keeps(n));
            assert ([n] + TakenOff(es[1..], Keeps(n)))[1..] == TakenOff(es[1..], Keeps(n));
          }
        case Proceeds => KeptOfTaken(es[1..], false);
        case Ends(_) => if busy { KeptOfTaken(es[1..], true); }
        case Polls => KeptOfTaken(es[1..], busy);
      }
    }
  }

  lemma {:induction false} KeptOfAppend(a: seq<H.Nalu>, b: seq<H.Nalu>)
    ensures KeptOf(a + b) == KeptOf(a) + KeptOf(b)
    decreases |a|
  {
    hide Keeps;
    if a == [] {
      assert a + b == b;
    } else {
      var first := if Keeps(a[0]) then [a[0]] else [];
      assert (a + b)[0] == a[0] && (a + b)[1..] == a[1..] + b;
      KeptOfAppend(a[1..], b);
      assert KeptOf(a) == first + KeptOf(a[1..]);
      assert KeptOf(a + b) == first + KeptOf(a[1..] + b);
      Bytes.Joined(first, KeptOf(a[1..]), KeptOf(b));
    }
  }

  /** Encoder and session description obey emulation prevention. */
  ghost predicate AllFree(tr: Track, sent: seq<H.Nalu>) {
    (tr.sps != [] ==> EmulationFree(tr.sps)) && (tr.pps != [] ==> EmulationFree(tr.pps)) &&
    forall n :: n in sent && Keeps(n) ==> EmulationFree(n.data)
  }

  lemma {:induction false} KeptAreSent(sent: seq<H.Nalu>)
    ensures forall n :: n in KeptOf(sent) ==> n in sent && Keeps(n)
  {
    hide Keeps;
    if sent != [] { KeptAreSent(sent[1..]); }
  }

  lemma {:induction false} MemberOfFlatten(units: seq<seq<H.Nalu>>, i: nat, n: H.Nalu)
    requires i < |units| && n in units[i]
    ensures n in Flatten(units)
    decreases |units|
  {
    var last := |units| - 1;
    if i < last { MemberOfFlatten(units[..last], i, n); }
  }

  lemma {:induction false} PiecesAreFree(tr: Track, u: seq<H.Nalu>, sent: seq<H.Nalu>)
    requires AllKept(u) && AllFree(tr, sent) && forall n :: n in u ==> n in sent
    ensures forall i :: 0 <= i < |Pieces(tr, u)| ==> EmulationFree(Pieces(tr, u)[i])
    decreases |u|
  {
    hide EmulationFree, Keeps;
    if u != [] {
      var m := |u| - 1;
      PiecesAreFree(tr, u[..m], sent);
      assert u[m] in sent;
    }
  }

  /** Every sample splits into the pieces of its access unit, and is marked when it holds an IDR. */
  ghost predicate ReadsBack(tr: Track, samples: seq<Sample>, units: seq<seq<H.Nalu>>) {
    |samples| == |units| &&
    forall i :: 0 <= i < |units| ==>
      AllKept(units[i]) && Units(samples[i].data, 0) == Pieces(tr, units[i]) &&
      (samples[i].flags == 1 <==> HasIdr(units[i]))
  }

  lemma HeldReadsBack(s: State, tr: Track, units: seq<seq<H.Nalu>>, cur: seq<H.Nalu>, sent: seq<H.Nalu>)
    requires Holds(s, tr, units, cur) && AllFree(tr, sent)
    requires forall n :: n in Flatten(units) ==> n in sent
    ensures ReadsBack(tr, s.flushed, units)
  {
    hide Grouping, Pieces, EmulationFree, AllFree, AuBytes, Keeps, Units;
    forall i | 0 <= i < |units|
      ensures Units(s.flushed[i].data, 0) == Pieces(tr, units[i])
      ensures s.flushed[i].flags == 1 <==> HasIdr(units[i])
    {
      forall n | n in units[i] ensures n in sent { MemberOfFlatten(units, i, n); }
      PiecesAreFree(tr, units[i], sent);
      SampleReadsBack(tr, s.flushed[i], units[i]);
    }
  }

  /** A session with the camera, started afresh on both sides: the sender packetises units in any
      valid mix and puts responses and other channels between them, the worker takes the units that
      the connection hands out, and the consumer polls whenever it likes. The samples flushed are
      access units that read back as the sender's units in order, parameter sets and empty units
      left out; what is still open or in hand follows, and together they are all that was sent once
      the connection has handed out everything. The consumer's queue holds the newest of those
      samples. */
  lemma SamplesAreSent(pt: nat, items: seq<D.Item>, ts: seq<H.Timed>, calls: seq<D.Call>, tr: Track, es: seq<Event>)
    returns (units: seq<seq<H.Nalu>>, cur: seq<H.Nalu>)
    requires pt < 128 && D.AllItems(items) && H.AllValid(ts) && H.Carries(D.RtpPackets(items), pt, H.AllPayloads(ts))
    requires TakenOff(es, false) == D.DoAll(D.State(D.StreamOf(items), D.NoUnits, []), pt, calls).out
    requires AllFree(tr, H.AllNalus(ts))
    ensures Grouping(WithOpen(units, cur))
    ensures var r, t := D.DoAll(D.State(D.StreamOf(items), D.NoUnits, []), pt, calls), Run(Start, tr, es);
            ReadsBack(tr, t.flushed, units) && QueueInv(t) &&
            Flatten(units) + cur + InHand(t) <= KeptOf(H.AllNalus(ts)) &&
            (r.input == [] && r.dep.queue == [] ==> Flatten(units) + cur + InHand(t) == KeptOf(H.AllNalus(ts)))
  {
    hide D.StreamOf, D.DoAll, D.RtpPackets, H.Carries, H.AllPayloads, H.AllNalus, Run, Holds, QueueInv, AllFree;
    hide Flatten, ReadsBack, Grouping, KeptOf, Kept, TakenOff, InHand;
    var r, t := D.DoAll(D.State(D.StreamOf(items), D.NoUnits, []), pt, calls), Run(Start, tr, es);
    D.CameraDelivers(pt, items, ts, calls);
    StartHolds(tr);
    RunQueueInv(Start, tr, es);
    units, cur := AssemblyConserves(Start, tr, [], [], es);
    FromStart(units, cur, t, es);
    HoldsGrouping(t, tr, units, cur);
    KeptOfTaken(es, false);
    var sent := H.AllNalus(ts);
    var rest := sent[|r.out|..];
    assert sent == r.out + rest;
    KeptOfAppend(r.out, rest);
    NothingKept();
    KeptAreSent(sent);
    HeldReadsBack(t, tr, units, cur, sent);
  }

  lemma FromStart(units: seq<seq<H.Nalu>>, cur: seq<H.Nalu>, t: State, es: seq<Event>)
    requires Flatten(units) + cur + InHand(t) ==
             Flatten([]) + [] + InHand(Start) + (if Start.ended then [] else Kept(es, Start.hand.Some?))
    ensures Flatten(units) + cur + InHand(t) == Kept(es, false)
  {
  }

  lemma HoldsGrouping(s: State, tr: Track, units: seq<seq<H.Nalu>>, cur: seq<H.Nalu>)
    requires Holds(s, tr, units, cur)
    ensures Grouping(WithOpen(units, cur))
  {
  }

  lemma NothingKept()
    ensures KeptOf([]) == []
  {
  }
}
