/**
 Cloud subscriptions (src/cloud_session.cpp): the wanted set, the set the broker has accepted,
 and the connection events that race with the user's calls.
 */
module Cloud {
  import opened Bytes

  type Id = bytes

  /** What a thread inside the mutex is doing: nobody is in it; about to look whether there is a
      client to subscribe with; subscribing the ids still to do, some having failed; going
      through the ids to delete; about to unsubscribe one of them. `conn` marks the connect
      handler, `lost` that the client looked at has been destroyed since. */
  datatype Section =
    | Free
    | Looking(conn: bool)
    | Applying(conn: bool, lost: bool, todo: set<Id>, failed: set<Id>)
    | Deleting(ids: seq<Id>)
    | Unsubscribing(lost: bool, id: Id, ids: seq<Id>)

  /** The connection handler that is running, if any. */
  datatype Handler = NoHandler | Connecting | Disconnecting

  /** Threads that have looked at the client, or made it, and will use it: those whose client is
      still there, and those whose client has been destroyed since. */
  datatype Users = Users(good: nat, bad: nat)

  /** Threads outside the mutex: about to make a client, to look at it for stopping, to reset it;
      about to connect the client made, to disconnect it, to publish through it. */
  datatype Outside = Outside(makers: nat, stoppers: nat, resetters: nat,
                             starters: Users, closers: Users, publishers: Users)

  const Nobody: Outside := Outside(0, 0, 0, Users(0, 0), Users(0, 0), Users(0, 0))

  /** The session's fields, the handler, the section under the mutex and the threads outside it;
      then the ids that the last finished round of subscribing reported as failed, and whether
      such a round has happened on the connection that is up. */
  datatype State = State(started: bool, client: bool, connected: bool, handler: Handler,
                         subscribed: set<Id>, active: set<Id>, section: Section, outside: Outside,
                         reported: set<Id>, settled: bool)

  const Start: State := State(false, false, false, NoHandler, {}, {}, Free, Nobody, {}, false)

  function Named(ids: seq<Id>): set<Id> {
    set i | 0 <= i < |ids| && ids[i] != [] :: ids[i]
  }

  function Listed(ids: seq<Id>): set<Id> {
    set i | 0 <= i < |ids| :: ids[i]
  }

  /** One step is what happens between two looks at anything another thread can change without the
      mutex: the connection flag and the client pointer are changed outside it. Steps of handlers,
      user calls, start and stop interleave freely, but for what the mutex excludes, and stop waits
      for a handler that runs. */
  datatype Event =
    | StartFlag
    | StartFails
    | MakeClient                    // over an old one, if there is one
    | StartConnect(ok: bool, late: bool)
    | AddBegin(ids: seq<Id>)        // inserts the ids and reads the connection flag
    | DelBegin(ids: seq<Id>)
    | DelNext
    | Unsubscribe
    | ConnectFlag
    | ConnectBegin
    | ConnectRefused
    | DisconnectFlag
    | DisconnectClear
    | Look
    | Subscribe(id: Id, ok: bool)
    | ApplyEnd
    | PublishLook
    | Publish(late: bool)
    | StopFlag
    | StopLook
    | StopDisconnect(late: bool)
    | StopReset
    | StopDisconnected
    | StopClear

  ghost predicate Enabled(s: State, e: Event) {
    match e
    case StartFlag => !s.started
    case StartFails => s.outside.makers > 0
    case MakeClient => s.outside.makers > 0 && s.handler == NoHandler
    case StartConnect(_, late) => Waits(s.outside.starters, late)
    case AddBegin(_) => s.section == Free
    case DelBegin(_) => s.section == Free
    case DelNext => s.section.Deleting?
    case Unsubscribe => s.section.Unsubscribing?
    case ConnectFlag => s.client && s.handler == NoHandler
    case ConnectBegin => s.handler == Connecting && s.section == Free
    case ConnectRefused => s.client && s.handler == NoHandler
    case DisconnectFlag => s.client && s.handler == NoHandler
    case DisconnectClear => s.handler == Disconnecting && s.section == Free
    case Look => s.section.Looking?
    case Subscribe(d, _) => s.section.Applying? && d in s.section.todo
    case ApplyEnd => s.section.Applying? && s.section.todo == {}
    case Publish(late) => Waits(s.outside.publishers, late)
    case StopFlag => s.started
    case StopLook => s.outside.stoppers > 0
    case StopDisconnect(late) => Waits(s.outside.closers, late)
    case StopReset => s.outside.resetters > 0 && s.handler == NoHandler
    case StopClear => s.section == Free
    case _ => true
  }

  predicate Waits(u: Users, late: bool) {
    if late then u.bad > 0 else u.good > 0
  }

  /** Steps that go through the client pointer without another look at it, after the client that
      the thread looked at has been destroyed: what happens is undefined. */
  ghost predicate Misuses(s: State, e: Event) {
    match e
    case Subscribe(_, _) => s.section.Applying? && s.section.lost
    case Unsubscribe => s.section.Unsubscribing? && s.section.lost
    case StartConnect(_, late) => late
    case Publish(late) => late
    case StopDisconnect(late) => late
    case _ => false
  }

  function Lose(u: Users): Users { Users(0, u.good + u.bad) }

  function LostSection(sec: Section): Section {
    match sec
    case Applying(conn, _, todo, failed) => Applying(conn, true, todo, failed)
    case Unsubscribing(_, id, ids) => Unsubscribing(true, id, ids)
    case _ => sec
  }

  function LostOutside(o: Outside): Outside {
    o.(starters := Lose(o.starters), closers := Lose(o.closers), publishers := Lose(o.publishers))
  }

  /** The client is destroyed under everybody who has looked at it. */
  function Torn(s: State): State {
    s.(section := LostSection(s.section), outside := LostOutside(s.outside), settled := false)
  }

  /** The connect handler is over with its section. */
  function Leaves(s: State): Handler
    requires s.section.Looking? || s.section.Applying?
  {
    if s.section.conn then NoHandler else s.handler
  }

  /** What the threads outside the mutex do. */
  function StepOutside(s: State, e: Event): State
    requires Enabled(s, e) && !Misuses(s, e)
  {
    var o := s.outside;
    match e
    case StartFlag => s.(started := true, outside := o.(makers := o.makers + 1))
    case StartFails => s.(started := false, outside := o.(makers := o.makers - 1))
    case MakeClient =>
      var t, lost := Torn(s), LostOutside(o);
      t.(client := true, outside := lost.(makers := o.makers - 1, starters := Users(1, lost.starters.bad)))
    case StartConnect(ok, _) =>
      s.(started := s.started && ok, outside := o.(starters := Users(o.starters.good - 1, o.starters.bad)))
    case PublishLook =>
      if s.client && s.connected then
        s.(outside := o.(publishers := Users(o.publishers.good + 1, o.publishers.bad)))
      else s
    case Publish(_) => s.(outside := o.(publishers := Users(o.publishers.good - 1, o.publishers.bad)))
    case StopFlag => s.(started := false, outside := o.(stoppers := o.stoppers + 1))
    case StopLook =>
      var o1 := o.(stoppers := o.stoppers - 1);
      s.(outside := if s.client then o1.(closers := Users(o.closers.good + 1, o.closers.bad)) else o1)
    case StopDisconnect(_) =>
      s.(outside := o.(closers := Users(o.closers.good - 1, o.closers.bad), resetters := o.resetters + 1))
    case StopReset =>
      var t := Torn(s);
      t.(client := false, outside := LostOutside(o).(resetters := o.resetters - 1))
    case _ => s
  }

  function Step(s: State, e: Event): State
    requires Enabled(s, e) && !Misuses(s, e)
  {
    match e
    case AddBegin(ids) =>
      s.(subscribed := s.subscribed + Named(ids), section := if s.connected then Looking(false) else Free)
    case DelBegin(ids) => s.(section := Deleting(ids))
    case DelNext => DelNextOf(s)
    case Unsubscribe => s.(section := Deleting(s.section.ids))
    case ConnectFlag => s.(connected := true, handler := Connecting)
    case ConnectBegin => s.(active := {}, section := Looking(true), settled := false)
    case ConnectRefused => s.(connected := false, settled := false)
    case DisconnectFlag => s.(connected := false, handler := Disconnecting, settled := false)
    case DisconnectClear => s.(active := {}, handler := NoHandler, settled := false)
    case Look =>
      if s.client then s.(section := Applying(s.section.conn, false, s.subscribed - s.active, {}))
      else s.(section := Free, handler := Leaves(s))
    case Subscribe(d, ok) =>
      var a := s.section;
      s.(active := if ok then s.active + {d} else s.active,
         section := Applying(a.conn, a.lost, a.todo - {d}, if ok then a.failed else a.failed + {d}))
    case ApplyEnd =>
      s.(section := Free, handler := Leaves(s), reported := s.section.failed, settled := s.connected && s.client)
    case StopDisconnected => s.(connected := false, settled := false)
    case StopClear => s.(active := {}, settled := false)
    case _ => StepOutside(s, e)
  }

  /** The next id leaves both sets; an active one is unsubscribed when there is a client. */
  function DelNextOf(s: State): State
    requires s.section.Deleting?
  {
    var ids := s.section.ids;
    if ids == [] then s.(section := Free)
    else
      s.(subscribed := s.subscribed - {ids[0]}, active := s.active - {ids[0]},
         section := if ids[0] in s.active && s.client then Unsubscribing(false, ids[0], ids[1..])
                    else Deleting(ids[1..]))
  }

  /** A run: every step but perhaps the next was possible, and none used a client that was gone. */
  ghost predicate IsRun(states: seq<State>, es: seq<Event>) {
    |states| == |es| + 1 && states[0] == Start &&
    forall i :: 0 <= i < |es| ==>
      Enabled(states[i], es[i]) && !Misuses(states[i], es[i]) && states[i + 1] == Step(states[i], es[i])
  }

  // ---------- What the history says ----------

  /** Adding and deleting, and nothing else, decides what is wanted. */
  function Wanted(es: seq<Event>): set<Id>
    decreases |es|
  {
    if es == [] then {}
    else
      var w := Wanted(es[..|es| - 1]);
      match es[|es| - 1]
      case AddBegin(ids) => w + Named(ids)
      case DelBegin(ids) => w - Listed(ids)
      case _ => w
  }

  /** The ids that the broker has accepted since the active set was last cleared. */
  function Acknowledged(es: seq<Event>): set<Id>
    decreases |es|
  {
    if es == [] then {}
    else
      var a := Acknowledged(es[..|es| - 1]);
      match es[|es| - 1]
      case Subscribe(d, ok) => if ok then a + {d} else a
      case ConnectBegin => {}
      case DisconnectClear => {}
      case StopClear => {}
      case _ => a
  }

  /** The ids that a deletion under way has not come to yet. */
  function Pending(s: State): set<Id> {
    if s.section.Deleting? then Listed(s.section.ids)
    else if s.section.Unsubscribing? then Listed(s.section.ids)
    else {}
  }

  // ---------- Invariant of every interleaving ----------

  /** Whoever has looked at a client that was not destroyed since still has one. */
  ghost predicate Anchored(s: State) {
    (s.outside.starters.good > 0 || s.outside.closers.good > 0 || s.outside.publishers.good > 0 ==> s.client) &&
    (s.section.Applying? && !s.section.lost ==> s.client) &&
    (s.section.Unsubscribing? && !s.section.lost ==> s.client)
  }

  /** Active ids are wanted. A handler has its client, destroying it waits for the handler. While a
      round runs, the wanted ids that are not active are those still to do and those that failed;
      after one on a live connection only those that it reported. */
  ghost predicate Inv(s: State) {
    s.active <= s.subscribed && Anchored(s) &&
    (s.handler != NoHandler ==> s.client) &&
    ((s.section.Looking? || s.section.Applying?) && s.section.conn ==> s.handler == Connecting) &&
    (s.section.Applying? ==>
       s.subscribed - s.active == s.section.todo + s.section.failed && s.section.todo !! s.section.failed) &&
    (s.settled ==> s.connected && s.client) &&
    (s.settled && !s.section.Looking? && !s.section.Applying? ==> s.subscribed - s.active <= s.reported)
  }

  lemma StepInv(s: State, e: Event)
    requires Inv(s) && Enabled(s, e) && !Misuses(s, e)
    ensures Inv(Step(s, e))
  {
  }

  lemma {:induction false} ListedTail(ids: seq<Id>)
    requires ids != []
    ensures Listed(ids) == Listed(ids[1..]) + {ids[0]}
  {
    forall x | x in Listed(ids) ensures x in Listed(ids[1..]) + {ids[0]} {
      var k :| 0 <= k < |ids| && ids[k] == x;
      if k > 0 { assert ids[1..][k - 1] == x; }
    }
    forall x | x in Listed(ids[1..]) ensures x in Listed(ids) {
      var k :| 0 <= k < |ids[1..]| && ids[1..][k] == x;
      assert ids[k + 1] == x;
    }
    assert ids[0] in Listed(ids);
  }

  /** What one step does to the wanted ids, those that a deletion has yet to come to left out. */
  lemma WantedStep(s: State, e: Event)
    requires Enabled(s, e) && !Misuses(s, e)
    ensures var t := Step(s, e);
            t.subscribed - Pending(t) ==
            match e
            case AddBegin(ids) => s.subscribed - Pending(s) + Named(ids)
            case DelBegin(ids) => s.subscribed - Pending(s) - Listed(ids)
            case _ => s.subscribed - Pending(s)
  {
    if e.DelNext? && s.section.ids != [] {
      hide Listed;
      ListedTail(s.section.ids);
    } else if e.DelNext? {
      assert Listed([]) == {};
    }
  }

  lemma AcknowledgedStep(s: State, e: Event, acks: set<Id>)
    requires s.active <= acks && Enabled(s, e) && !Misuses(s, e)
    ensures Step(s, e).active <=
            match e
            case Subscribe(d, ok) => if ok then acks + {d} else acks
            case ConnectBegin => {}
            case DisconnectClear => {}
            case StopClear => {}
            case _ => acks
  {
  }

  /** Subscription safety of every run. The wanted set is the fold of the adds and deletes, but for
      the ids that a deletion under way has not come to; every active id is wanted and has been
      accepted by the broker since the last clear. */
  lemma {:induction false} RunInv(states: seq<State>, es: seq<Event>, n: nat)
    requires IsRun(states, es) && n <= |es|
    ensures Inv(states[n])
    ensures states[n].subscribed - Pending(states[n]) == Wanted(es[..n])
    ensures states[n].section == Free ==> states[n].subscribed == Wanted(es[..n])
    ensures states[n].active <= Acknowledged(es[..n])
    decreases n
  {
    hide Inv, Step, Enabled, Misuses, Named, Listed;
    if n == 0 {
      StartInv();
    } else {
      var s, e := states[n - 1], es[n - 1];
      RunInv(states, es, n - 1);
      StepInv(s, e);
      WantedStep(s, e);
      assert es[..n][..n - 1] == es[..n - 1];
      AcknowledgedStep(s, e, Acknowledged(es[..n - 1]));
    }
  }

  lemma StartInv()
    ensures Inv(Start) && Pending(Start) == {}
  {
  }

  // ---------- The end of a round ----------

  /** The steps that finish a round: nothing left to do, or no client to do it with. */
  ghost predicate EndsRound(s: State, e: Event) {
    Enabled(s, e) && (e.ApplyEnd? || (e.Look? && !s.client))
  }

  /** What the round reports to the failure callback. */
  function Reported(s: State): set<Id> {
    if s.section.Applying? then s.section.failed else {}
  }

  /** At the end of a round every wanted id that is not active has been reported as failed, exactly
      when the round found a client or there was nothing to subscribe; a round that found one
      reports nothing else. */
  lemma RoundCompleteIff(s: State, e: Event)
    requires Inv(s) && EndsRound(s, e)
    ensures var t := Step(s, e);
            t.subscribed - t.active <= Reported(s) <==> e.ApplyEnd? || s.subscribed <= s.active
    ensures e.ApplyEnd? ==> var t := Step(s, e); t.subscribed - t.active == Reported(s)
  {
    assert s.subscribed - s.active <= {} <==> s.subscribed <= s.active by { NoneMissing(s.subscribed, s.active); }
  }

  lemma NoneMissing(a: set<Id>, b: set<Id>)
    ensures a - b <= {} <==> a <= b
  {
    if !(a <= b) {
      var x :| x in a && x !in b;
      assert x in a - b;
    }
  }

  /** An id is reported only when the broker refused it, one that it accepted is active. */
  lemma SubscribeDecides(s: State, d: Id, ok: bool)
    requires Inv(s) && Enabled(s, Subscribe(d, ok)) && !Misuses(s, Subscribe(d, ok))
    ensures var t := Step(s, Subscribe(d, ok));
            d !in t.section.todo && (d in t.active <==> ok) && (d in Reported(t) <==> !ok)
    ensures var t := Step(s, Subscribe(d, ok));
            forall x :: x != d ==> (x in t.active <==> x in s.active) && (x in Reported(t) <==> x in Reported(s))
  {
  }

  /** The connect handler's round always finds its client, and so is complete. */
  lemma HandlerRoundComplete(s: State, e: Event)
    requires Inv(s) && EndsRound(s, e) && s.section.conn
    ensures e.ApplyEnd?
    ensures var t := Step(s, e); t.subscribed - t.active == Reported(s) && t.handler == NoHandler
  {
  }

  // ---------- Reachable states ----------

  /** A state reached from another one by possible, defined steps. */
  ghost predicate Reaches(s: State, es: seq<Event>, t: State)
    decreases |es|
  {
    if es == [] then s == t
    else Enabled(s, es[0]) && !Misuses(s, es[0]) && Reaches(Step(s, es[0]), es[1..], t)
  }

  ghost predicate CanReach(s: State, t: State) {
    exists es :: Reaches(s, es, t)
  }

  lemma Stays(s: State)
    ensures CanReach(s, s)
  {
    assert Reaches(s, [], s);
  }

  lemma ReachesFirst(s: State, e: Event, t: State, u: State)
    requires Enabled(s, e) && !Misuses(s, e) && t == Step(s, e) && CanReach(t, u)
    ensures CanReach(s, u)
  {
    hide Step, Enabled, Misuses;
    var es :| Reaches(t, es, u);
    assert ([e] + es)[1..] == es;
    assert Reaches(s, [e] + es, u);
  }

  lemma {:induction false} ReachesOn(s: State, es: seq<Event>, t: State, e: Event)
    requires Reaches(s, es, t) && Enabled(t, e) && !Misuses(t, e)
    ensures Reaches(s, es + [e], Step(t, e))
    decreases |es|
  {
    hide Step, Enabled, Misuses;
    if es == [] {
      assert [e][1..] == [] && es + [e] == [e];
      assert Reaches(Step(s, e), [], Step(t, e));
    } else {
      assert (es + [e])[1..] == es[1..] + [e];
      ReachesOn(Step(s, es[0]), es[1..], t, e);
    }
  }

  lemma ReachesNext(s: State, t: State, e: Event, u: State)
    requires CanReach(s, t) && Enabled(t, e) && !Misuses(t, e) && u == Step(t, e)
    ensures CanReach(s, u)
  {
    hide Step, Enabled, Misuses;
    var es :| Reaches(s, es, t);
    ReachesOn(s, es, t, e);
  }

  /** A session whose connection has come up with nothing to subscribe. */
  const Up: State := State(true, true, true, NoHandler, {}, {}, Free, Nobody, {}, true)

  lemma ComesUp()
    ensures CanReach(Start, Up)
  {
    hide Step, Enabled, Misuses, CanReach;
    var s1 := Start.(started := true, outside := Nobody.(makers := 1));
    var s2 := Start.(started := true, client := true, outside := Nobody.(starters := Users(1, 0)));
    var s3 := Start.(started := true, client := true);
    var s4 := s3.(connected := true, handler := Connecting);
    var s5, s6 := s4.(section := Looking(true)), s4.(section := Applying(true, false, {}, {}));
    StartMakes();
    StartConnects();
    ConnectSteps(s3);
    HandlerSteps();
    Stays(Start);
    ReachesNext(Start, Start, StartFlag, s1);
    ReachesNext(Start, s1, MakeClient, s2);
    ReachesNext(Start, s2, StartConnect(true, false), s3);
    ReachesNext(Start, s3, ConnectFlag, s4);
    ReachesNext(Start, s4, ConnectBegin, s5);
    ReachesNext(Start, s5, Look, s6);
    ReachesNext(Start, s6, ApplyEnd, Up);
  }

  lemma StartMakes()
    ensures var s1 := Start.(started := true, outside := Nobody.(makers := 1));
            Enabled(Start, StartFlag) && !Misuses(Start, StartFlag) && Step(Start, StartFlag) == s1 &&
            Enabled(s1, MakeClient) && !Misuses(s1, MakeClient) &&
            Step(s1, MakeClient) == Start.(started := true, client := true, outside := Nobody.(starters := Users(1, 0)))
  {
    hide LostOutside;
    MakersLose();
    var s1 := Start.(started := true, outside := Nobody.(makers := 1));
    assert Step(s1, MakeClient) == StepOutside(s1, MakeClient);
  }

  lemma MakersLose()
    ensures LostOutside(Nobody.(makers := 1)) == Nobody.(makers := 1)
  {
  }

  lemma StartConnects()
    ensures var s2 := Start.(started := true, client := true, outside := Nobody.(starters := Users(1, 0)));
            var e := StartConnect(true, false);
            Enabled(s2, e) && !Misuses(s2, e) && Step(s2, e) == Start.(started := true, client := true)
  {
  }

  lemma HandlerSteps()
    ensures var s4 := Start.(started := true, client := true, connected := true, handler := Connecting);
            var s5, s6 := s4.(section := Looking(true)), s4.(section := Applying(true, false, {}, {}));
            Enabled(s5, Look) && !Misuses(s5, Look) && Step(s5, Look) == s6 &&
            Enabled(s6, ApplyEnd) && !Misuses(s6, ApplyEnd) && Step(s6, ApplyEnd) == Up
  {
    var none: set<Id> := {};
    assert none - none == {};
  }

  /** Stop, up to the reset. */
  lemma StopResets(from: State, s: State)
    requires s.started && s.client && s.handler == NoHandler && s.outside == Nobody.(publishers := s.outside.publishers)
    requires CanReach(from, s)
    ensures CanReach(from, Torn(s).(started := false, client := false))
  {
    hide Step, Enabled, Misuses, CanReach, Torn;
    var o := s.outside;
    var t1 := s.(started := false, outside := o.(stoppers := 1));
    var t2 := s.(started := false, outside := o.(closers := Users(1, 0)));
    var t3 := s.(started := false, outside := o.(resetters := 1));
    StopLooks(s);
    StopCloses(s);
    ReachesNext(from, s, StopFlag, t1);
    ReachesNext(from, t1, StopLook, t2);
    ReachesNext(from, t2, StopDisconnect(false), t3);
    ReachesNext(from, t3, StopReset, Torn(s).(started := false, client := false));
  }

  lemma StopLooks(s: State)
    requires s.started && s.outside == Nobody.(publishers := s.outside.publishers)
    ensures var o := s.outside; var t1 := s.(started := false, outside := o.(stoppers := 1));
            Enabled(s, StopFlag) && !Misuses(s, StopFlag) && Step(s, StopFlag) == t1 &&
            Enabled(t1, StopLook) && !Misuses(t1, StopLook) &&
            Step(t1, StopLook) == s.(started := false, outside := if s.client then o.(closers := Users(1, 0)) else o)
  {
  }

  lemma StopCloses(s: State)
    requires s.handler == NoHandler && s.outside == Nobody.(publishers := s.outside.publishers)
    ensures var o := s.outside;
            var t2 := s.(started := false, outside := o.(closers := Users(1, 0)));
            var t3 := s.(started := false, outside := o.(resetters := 1));
            Enabled(t2, StopDisconnect(false)) && !Misuses(t2, StopDisconnect(false)) &&
            Step(t2, StopDisconnect(false)) == t3 &&
            Enabled(t3, StopReset) && !Misuses(t3, StopReset) &&
            Step(t3, StopReset) == Torn(s).(started := false, client := false)
  {
    hide LostOutside, LostSection;
    ResettersLose(s.outside);
    var t3 := s.(started := false, outside := s.outside.(resetters := 1));
    assert Step(t3, StopReset) == StepOutside(t3, StopReset);
  }

  lemma ResettersLose(o: Outside)
    requires o.resetters == 0
    ensures LostOutside(o.(resetters := 1)).(resetters := 0) == LostOutside(o)
  {
  }

  /** The flag outlives the client: after a connection has come up, stop resets the client first. An
      id added then is neither subscribed nor reported. */
  lemma AddDuringStop(id: Id) returns (torn: State)
    requires id != []
    ensures CanReach(Start, torn) && torn.connected && !torn.client
    ensures var asks := torn.(subscribed := {id}, section := Looking(false));
            Enabled(torn, AddBegin([id])) && !Misuses(torn, AddBegin([id])) && Step(torn, AddBegin([id])) == asks &&
            EndsRound(asks, Look) && Reported(asks) == {} && !Misuses(asks, Look) &&
            Step(asks, Look).section == Free && Step(asks, Look).subscribed == {id} && Step(asks, Look).active == {}
  {
    torn := Up.(started := false, client := false, settled := false);
    assert CanReach(Start, torn) by {
      hide Step, Enabled, Misuses, CanReach;
      ComesUp();
      StopResets(Start, Up);
      NothingTorn(Up);
    }
    OneNamed(id);
  }

  lemma OneNamed(id: Id)
    requires id != []
    ensures Named([id]) == {id} && {} + {id} == {id} && {id} - {} == {id}
  {
    assert [id][0] == id;
  }

  lemma NothingTorn(s: State)
    requires s.section == Free && s.outside == Nobody
    ensures Torn(s) == s.(settled := false)
  {
    hide LostOutside;
    NobodyLoses();
  }

  lemma NobodyLoses()
    ensures LostOutside(Nobody) == Nobody
  {
  }

  // ---------- The client under its users ----------

  /** Somebody has looked at a client, or made one, and will use it without looking again. */
  ghost predicate CountsOnClient(s: State) {
    (s.section.Applying? && s.section.todo != {}) || s.section.Unsubscribing? ||
    Some(s.outside.starters) || Some(s.outside.closers) || Some(s.outside.publishers)
  }

  predicate Some(u: Users) { u.good + u.bad > 0 }

  /** The steps that destroy a client: the reset of a stop, and a start that makes a new one over an
      old one. Neither takes the mutex. */
  ghost predicate TearsDown(s: State, e: Event) {
    s.client && (e.StopReset? || e.MakeClient?)
  }

  /** Destroying the client makes some next step undefined exactly when somebody counts on it at
      that moment: a section under the mutex, a publisher, a start or another stop. */
  lemma TeardownSafeIff(s: State, e: Event)
    requires Enabled(s, e) && TearsDown(s, e)
    ensures (exists u :: Enabled(Step(s, e), u) && Misuses(Step(s, e), u)) <==> CountsOnClient(s)
  {
    var t := Step(s, e);
    var sec, o := s.section, s.outside;
    if sec.Applying? && sec.todo != {} {
      var d :| d in sec.todo;
      assert Enabled(t, Subscribe(d, true)) && Misuses(t, Subscribe(d, true));
    } else if sec.Unsubscribing? {
      assert Enabled(t, Unsubscribe) && Misuses(t, Unsubscribe);
    } else if Some(o.starters) {
      assert Enabled(t, StartConnect(true, true)) && Misuses(t, StartConnect(true, true));
    } else if Some(o.closers) {
      assert Enabled(t, StopDisconnect(true)) && Misuses(t, StopDisconnect(true));
    } else if Some(o.publishers) {
      assert Enabled(t, Publish(true)) && Misuses(t, Publish(true));
    }
  }

  /** Nobody who will use a client has lost it. */
  ghost predicate Sound(s: State) {
    s.outside.starters.bad == s.outside.closers.bad == s.outside.publishers.bad == 0 &&
    (s.section.Applying? && s.section.lost ==> s.section.todo == {}) &&
    (s.section.Unsubscribing? ==> !s.section.lost)
  }

  /** A run uses no client that is gone as long as no teardown falls where somebody counts on the
      client; and one that does makes such a use possible, see `TeardownSafeIff`. */
  lemma {:induction false} CarefulRunIsDefined(states: seq<State>, es: seq<Event>, n: nat, e: Event)
    requires IsRun(states, es) && n <= |es| && Enabled(states[n], e)
    requires forall i :: 0 <= i < n && TearsDown(states[i], es[i]) ==> !CountsOnClient(states[i])
    ensures Sound(states[n]) && !Misuses(states[n], e)
    decreases n
  {
    hide Step, Enabled, Misuses, CountsOnClient, TearsDown, Sound;
    if n == 0 {
      StartIsSound();
    } else {
      CarefulRunIsDefined(states, es, n - 1, es[n - 1]);
      RunInv(states, es, n - 1);
      SoundStays(states[n - 1], es[n - 1]);
    }
    SoundUses(states[n], e);
  }

  lemma StartIsSound()
    ensures Sound(Start)
  {
  }

  lemma SoundUses(s: State, e: Event)
    requires Sound(s) && Enabled(s, e)
    ensures !Misuses(s, e)
  {
  }

  lemma SoundStays(s: State, e: Event)
    requires Inv(s) && Sound(s) && Enabled(s, e) && !Misuses(s, e)
    requires TearsDown(s, e) ==> !CountsOnClient(s)
    ensures Sound(Step(s, e))
  {
    hide Torn, Inv, Sound, Step, Misuses, CountsOnClient;
    if e.MakeClient? || e.StopReset? {
      SoundTorn(s);
      SoundThroughTorn(s, e);
    } else {
      SoundUntorn(s, e);
    }
  }

  lemma SoundTorn(s: State)
    requires Inv(s) && Sound(s)
    ensures (s.client && CountsOnClient(s)) || Sound(Torn(s))
  {
  }

  lemma SoundThroughTorn(s: State, e: Event)
    requires Sound(s) && Enabled(s, e) && (e.MakeClient? || e.StopReset?)
    requires Sound(Torn(s))
    ensures !Misuses(s, e) && Sound(Step(s, e))
  {
    hide LostOutside, LostSection;
  }

  lemma SoundUntorn(s: State, e: Event)
    requires Sound(s) && Enabled(s, e) && !Misuses(s, e) && !e.MakeClient? && !e.StopReset?
    ensures Sound(Step(s, e))
  {
    hide Torn;
  }

  /** A round that is about to subscribe an id added on a live connection. */
  function RoundOf(id: Id): State {
    Up.(subscribed := {id}, section := Applying(false, false, {id}, {}))
  }

  lemma RoundStarts(id: Id)
    requires id != []
    ensures CanReach(Start, RoundOf(id))
  {
    hide Step, Enabled, Misuses, CanReach;
    var asks := Up.(subscribed := {id}, section := Looking(false));
    ComesUp();
    OneNamed(id);
    AddStep(Up, [id]);
    ReachesNext(Start, Up, AddBegin([id]), asks);
    RoundStep(asks, [], false);
    ReachesNext(Start, asks, Look, RoundOf(id));
  }

  /** A state from which it goes wrong: an id is added on a live connection, and the client is reset
      between the look at it and the subscribe. */
  lemma TeardownInsideRound(id: Id) returns (t: State)
    requires id != []
    ensures CanReach(Start, t) && t.subscribed == {id} && !t.client
    ensures Enabled(t, Subscribe(id, true)) && Misuses(t, Subscribe(id, true))
  {
    hide Step, Enabled, Misuses, CanReach, Torn;
    var round := RoundOf(id);
    t := Torn(round).(started := false, client := false);
    RoundStarts(id);
    StopResets(Start, round);
    LostInRound(round, id, t);
  }

  lemma LostInRound(round: State, id: Id, t: State)
    requires round.section == Applying(false, false, {id}, {}) && t.section == Torn(round).section
    ensures Torn(round).subscribed == round.subscribed
    ensures Enabled(t, Subscribe(id, true)) && Misuses(t, Subscribe(id, true))
  {
  }

  /** Another one: the client is reset between the look of a publish and its send. */
  lemma TeardownInsidePublish() returns (t: State)
    ensures CanReach(Start, t) && t.connected && !t.client
    ensures Enabled(t, Publish(true)) && Misuses(t, Publish(true))
  {
    hide Step, Enabled, Misuses, CanReach, Torn;
    var looked := Up.(outside := Nobody.(publishers := Users(1, 0)));
    t := Torn(looked).(started := false, client := false);
    ComesUp();
    PublishLooks();
    ReachesNext(Start, Up, PublishLook, looked);
    StopResets(Start, looked);
    LostInPublish(looked, t);
  }

  lemma LostInPublish(looked: State, t: State)
    requires looked.outside.publishers == Users(1, 0) && t.outside == Torn(looked).outside
    ensures Torn(looked).connected == looked.connected
    ensures Enabled(t, Publish(true)) && Misuses(t, Publish(true))
  {
  }

  lemma PublishLooks()
    ensures Enabled(Up, PublishLook) && !Misuses(Up, PublishLook)
    ensures Step(Up, PublishLook) == Up.(outside := Nobody.(publishers := Users(1, 0)))
  {
  }

  /** And one without a reset: a start that follows the flag of a stop makes its client over the one
      that a round is using. */
  lemma ReplacedInsideRound(id: Id) returns (t: State)
    requires id != []
    ensures CanReach(Start, t) && t.client
    ensures Enabled(t, Subscribe(id, true)) && Misuses(t, Subscribe(id, true))
  {
    hide Step, Enabled, Misuses, CanReach, Torn;
    var round := RoundOf(id);
    var flagged := round.(started := false, outside := Nobody.(stoppers := 1));
    var again := round.(outside := Nobody.(stoppers := 1, makers := 1));
    RoundStarts(id);
    StopLooks(round);
    ReachesNext(Start, round, StopFlag, flagged);
    StartsAgain(flagged);
    ReachesNext(Start, flagged, StartFlag, again);
    MakesAgain(again);
    t := Step(again, MakeClient);
    ReachesNext(Start, again, MakeClient, t);
    LostInRound(again, id, t);
  }

  lemma MakesAgain(s: State)
    requires s.outside.makers == 1 && s.handler == NoHandler
    ensures Enabled(s, MakeClient) && !Misuses(s, MakeClient)
    ensures Step(s, MakeClient).client && Step(s, MakeClient).section == Torn(s).section
  {
    hide LostOutside, LostSection;
  }

  lemma StartsAgain(s: State)
    requires !s.started && s.outside.makers == 0
    ensures Enabled(s, StartFlag) && !Misuses(s, StartFlag)
    ensures Step(s, StartFlag) == s.(started := true, outside := s.outside.(makers := 1))
  {
  }

  // ---------- Undisturbed calls as runs ----------

  lemma NoneListed()
    ensures Listed([]) == {}
  {
  }

  /** The state behind a round that nobody disturbs. */
  function Applied(s: State, ok: set<Id>): State
    requires s.section.Looking?
  {
    if !s.client then s.(section := Free, handler := Leaves(s))
    else
      var missing := s.subscribed - s.active;
      s.(active := s.active + missing * ok, section := Free, handler := Leaves(s), reported := missing - ok,
         settled := s.connected)
  }

  lemma {:induction false} SubscribesReach(s: State, ok: set<Id>)
    requires s.section.Applying? && s.client && !s.section.lost
    ensures CanReach(s, s.(active := s.active + s.section.todo * ok, section := Free, handler := Leaves(s),
                           reported := s.section.failed + (s.section.todo - ok), settled := s.connected))
    decreases s.section.todo
  {
    hide Step, Enabled, Misuses, CanReach;
    var a := s.section;
    if a.todo == {} {
      assert s.active + a.todo * ok == s.active && a.failed + (a.todo - ok) == a.failed;
      RoundStep(s, [], false);
      Stays(Step(s, ApplyEnd));
      ReachesFirst(s, ApplyEnd, Step(s, ApplyEnd), Step(s, ApplyEnd));
    } else {
      var d :| d in a.todo;
      var t := s.(active := if d in ok then s.active + {d} else s.active,
                  section := Applying(a.conn, a.lost, a.todo - {d}, if d in ok then a.failed else a.failed + {d}));
      RoundStep(s, d, d in ok);
      SubscribesReach(t, ok);
      var all, failed := s.active + a.todo * ok, a.failed + (a.todo - ok);
      assert t.active + t.section.todo * ok == all && t.section.failed + (t.section.todo - ok) == failed;
      ReachesFirst(s, Subscribe(d, d in ok), t,
                   s.(active := all, section := Free, handler := Leaves(s), reported := failed,
                      settled := s.connected));
    }
  }

  lemma ApplyReaches(s: State, ok: set<Id>)
    requires s.section.Looking?
    ensures CanReach(s, Applied(s, ok))
  {
    hide Step, Enabled, Misuses, CanReach;
    RoundStep(s, [], false);
    var t := Step(s, Look);
    if s.client {
      SubscribesReach(t, ok);
      assert {} + (t.section.todo - ok) == t.section.todo - ok;
    } else {
      Stays(t);
    }
    ReachesFirst(s, Look, t, Applied(s, ok));
  }

  lemma {:induction false} DeletesReach(s: State, ids: seq<Id>)
    requires s.section == Deleting(ids)
    ensures CanReach(s, s.(subscribed := s.subscribed - Listed(ids), active := s.active - Listed(ids), section := Free))
    decreases |ids|
  {
    hide Step, Enabled, Misuses, CanReach, Listed;
    DeleteStep(s, ids);
    var t := DelNextOf(s);
    var end := s.(subscribed := s.subscribed - Listed(ids), active := s.active - Listed(ids), section := Free);
    if ids == [] {
      assert Listed(ids) == {} by { NoneListed(); }
      assert s.subscribed - {} == s.subscribed && s.active - {} == s.active;
      Stays(t);
    } else {
      ListedTail(ids);
      var u := t.(section := Deleting(ids[1..]));
      DeletesReach(u, ids[1..]);
      var d, l := {ids[0]}, Listed(ids[1..]);
      assert s.subscribed - d - l == s.subscribed - Listed(ids) && s.active - d - l == s.active - Listed(ids);
      if t.section.Unsubscribing? {
        DeleteStep(t, ids);
        ReachesFirst(t, Unsubscribe, u, end);
      }
    }
    ReachesFirst(s, DelNext, t, end);
  }

  /** The steps of a round, as changes of the state. */
  lemma RoundStep(s: State, d: Id, ok: bool)
    ensures s.section.Looking? ==>
              Enabled(s, Look) && !Misuses(s, Look) &&
              Step(s, Look) ==
                if s.client then s.(section := Applying(s.section.conn, false, s.subscribed - s.active, {}))
                               else s.(section := Free, handler := Leaves(s))
    ensures s.section.Applying? && d in s.section.todo && !s.section.lost ==>
              Enabled(s, Subscribe(d, ok)) && !Misuses(s, Subscribe(d, ok)) &&
              var a := s.section;
              Step(s, Subscribe(d, ok)) ==
              s.(active := if ok then s.active + {d} else s.active,
                 section := Applying(a.conn, a.lost, a.todo - {d}, if ok then a.failed else a.failed + {d}))
    ensures s.section.Applying? && s.section.todo == {} ==>
              Enabled(s, ApplyEnd) && !Misuses(s, ApplyEnd) &&
              Step(s, ApplyEnd) ==
              s.(section := Free, handler := Leaves(s), reported := s.section.failed,
                 settled := s.connected && s.client)
  {
  }

  /** The steps of a deletion. */
  lemma DeleteStep(s: State, ids: seq<Id>)
    ensures s.section == Free ==>
              Enabled(s, DelBegin(ids)) && !Misuses(s, DelBegin(ids)) &&
              Step(s, DelBegin(ids)) == s.(section := Deleting(ids))
    ensures s.section.Deleting? ==> Enabled(s, DelNext) && !Misuses(s, DelNext) && Step(s, DelNext) == DelNextOf(s)
    ensures s.section.Unsubscribing? && !s.section.lost ==>
              Enabled(s, Unsubscribe) && !Misuses(s, Unsubscribe) &&
              Step(s, Unsubscribe) == s.(section := Deleting(s.section.ids))
  {
  }

  lemma AddStep(s: State, ids: seq<Id>)
    requires s.section == Free
    ensures Enabled(s, AddBegin(ids)) && !Misuses(s, AddBegin(ids))
    ensures Step(s, AddBegin(ids)) ==
            s.(subscribed := s.subscribed + Named(ids), section := if s.connected then Looking(false) else Free)
  {
  }

  lemma ConnectSteps(s: State)
    requires s.client && s.handler == NoHandler && s.section == Free
    ensures Enabled(s, ConnectFlag) && !Misuses(s, ConnectFlag)
    ensures var t := s.(connected := true, handler := Connecting);
            Step(s, ConnectFlag) == t && Enabled(t, ConnectBegin) && !Misuses(t, ConnectBegin) &&
            Step(t, ConnectBegin) == t.(active := {}, section := Looking(true), settled := false)
  {
  }

  lemma StopSteps(s: State)
    requires s.started && s.handler == NoHandler && s.section == Free && s.outside == Nobody
    ensures CanReach(s, s.(started := false, client := false, connected := false, active := {}, settled := false))
  {
    hide CanReach, Step, Enabled, Misuses, Torn;
    var s4 := s.(started := false, client := false, settled := s.settled && !s.client);
    Stays(s);
    if s.client {
      StopResets(s, s);
      NothingTorn(s);
    } else {
      var s1 := s.(started := false, outside := Nobody.(stoppers := 1));
      StopLooks(s);
      ReachesNext(s, s, StopFlag, s1);
      ReachesNext(s, s1, StopLook, s4);
    }
    StopEnds(s4);
    var s5 := s4.(connected := false, settled := false);
    ReachesNext(s, s4, StopDisconnected, s5);
    ReachesNext(s, s5, StopClear, s5.(active := {}));
  }

  lemma StopEnds(s: State)
    requires s.section == Free
    ensures var t := s.(connected := false, settled := false);
            Enabled(s, StopDisconnected) && !Misuses(s, StopDisconnected) && Step(s, StopDisconnected) == t &&
            Enabled(t, StopClear) && !Misuses(t, StopClear) && Step(t, StopClear) == t.(active := {})
  {
  }

  // ---------- The object ----------

  class CloudSession {
    var started: bool
    var client: bool
    var connected: bool
    var subscribed: set<Id>
    var active: set<Id>
    ghost var reported: set<Id>
    ghost var settled: bool

    /** Outside the mutex and the handlers. */
    ghost function View(): State
      reads this
    {
      State(started, client, connected, NoHandler, subscribed, active, Free, Nobody, reported, settled)
    }

    constructor ()
      ensures View() == Start
    {
      started, client, connected, subscribed, active := false, false, false, {}, {};
      reported, settled := {}, false;
    }

    /** `apply_subscriptions_locked_`, nobody resetting the client meanwhile; `ok` are the ids for
        which the broker client says yes. Returns the ids to report through the failure callback,
        which runs unlocked, afterwards. */
    method ApplySubscriptions(ok: set<Id>, ghost conn: bool) returns (failed: set<Id>)
      modifies this`active, this`reported, this`settled
      ensures var s := old(View()).(section := Looking(conn), handler := if conn then Connecting else NoHandler);
              View() == Applied(s, ok)
      ensures failed == if client then old(subscribed - active) - ok else {}
    {
      failed := {};
      if !client { return; }
      var toSub := subscribed - active;
      var done: set<Id> := {};
      while done != toSub
        invariant done <= toSub && failed == done - ok
        invariant active == old(active) + done * ok
        decreases toSub - done
      {
        MoreToDo(done, toSub);
        var d :| d in toSub - done;
        SetGrows(done, d, ok);
        if d in ok { active := active + {d}; } else { failed := failed + {d}; }
        done := done + {d};
      }
      reported, settled := failed, connected;
    }

    /** `add_subscribe`. On a live connection the ids that stay inactive have all been reported,
        exactly when there is a client or all were active already. */
    method AddSubscribe(ids: seq<Id>, ok: set<Id>) returns (failed: set<Id>)
      modifies this
      ensures CanReach(old(View()), View())
      ensures subscribed == old(subscribed) + Named(ids)
      ensures client == old(client) && connected == old(connected)
      ensures var missing := subscribed - old(active);
              active == (if connected && client then old(active) + missing * ok else old(active)) &&
              failed == (if connected && client then missing - ok else {})
      ensures connected ==> (subscribed - active <= failed <==> client || subscribed <= old(active))
    {
      hide Step, Enabled, Misuses, CanReach;
      failed := {};
      ghost var was := View();
      var i := 0;
      while i < |ids|
        invariant i <= |ids|
        invariant View() == was.(subscribed := was.subscribed + Named(ids[..i]))
      {
        if ids[i] != [] { subscribed := subscribed + {ids[i]}; }
        NamedSnoc(ids, i);
        i := i + 1;
      }
      assert ids[..|ids|] == ids;
      AddStep(was, ids);
      if connected {
        ghost var mid := View().(section := Looking(false));
        failed := ApplySubscriptions(ok, false);
        ApplyReaches(mid, ok);
        ReachesFirst(was, AddBegin(ids), mid, View());
      } else {
        Stays(View());
        ReachesFirst(was, AddBegin(ids), View(), View());
      }
      NoneMissing(subscribed, active);
    }

    /** `del_subscribe`: the active ones are unsubscribed while there is a client. */
    method DelSubscribe(ids: seq<Id>) returns (unsubscribed: seq<Id>)
      modifies this`subscribed, this`active
      ensures CanReach(old(View()), View())
      ensures subscribed == old(subscribed) - Listed(ids) && active == old(active) - Listed(ids)
      ensures forall d :: d in unsubscribed <==> client && d in old(active) && d in Listed(ids)
    {
      hide Step, Enabled, Misuses, CanReach;
      unsubscribed := [];
      ghost var was := View();
      var i := 0;
      while i < |ids|
        invariant i <= |ids|
        invariant subscribed == was.subscribed - Listed(ids[..i]) && active == was.active - Listed(ids[..i])
        invariant forall d :: d in unsubscribed <==> client && d in was.active && d in Listed(ids[..i])
      {
        ListedSnoc(ids, i);
        subscribed := subscribed - {ids[i]};
        if ids[i] in active {
          active := active - {ids[i]};
          if client { unsubscribed := unsubscribed + [ids[i]]; }
        }
        i := i + 1;
      }
      assert ids[..|ids|] == ids;
      DeleteStep(was, ids);
      ghost var mid := was.(section := Deleting(ids));
      DeletesReach(mid, ids);
      ReachesFirst(was, DelBegin(ids), mid, View());
    }

    /** The connect handler: the flag, then the section under the mutex. */
    method OnConnect(ok: set<Id>) returns (failed: set<Id>)
      requires client
      modifies this
      ensures CanReach(old(View()), View())
      ensures connected && subscribed == old(subscribed)
      ensures active == subscribed * ok && failed == subscribed - ok
    {
      hide Step, Enabled, Misuses, CanReach;
      ghost var was := View();
      ConnectSteps(was);
      connected := true;
      ghost var up := View().(handler := Connecting);
      active, settled := {}, false;
      ghost var mid := View().(handler := Connecting, section := Looking(true));
      assert subscribed - {} == subscribed;
      failed := ApplySubscriptions(ok, true);
      ApplyReaches(mid, ok);
      ReachesFirst(up, ConnectBegin, mid, View());
      ReachesFirst(was, ConnectFlag, up, View());
    }

    method OnDisconnect()
      requires client
      modifies this
      ensures Enabled(old(View()), DisconnectFlag) && Enabled(Step(old(View()), DisconnectFlag), DisconnectClear)
      ensures View() == Step(Step(old(View()), DisconnectFlag), DisconnectClear)
    {
      connected, settled := false, false;
      active := {};
    }

    /** `publish`, the client still there when it is used; `ok` is the broker client's answer. */
    method Publish(ok: bool) returns (rc: bool)
      ensures rc == (client && connected && ok)
      ensures client && connected ==> Enabled(View(), PublishLook) && var t := Step(View(), PublishLook);
                Enabled(t, Event.Publish(false)) && Step(t, Event.Publish(false)) == View()
    {
      if !client || !connected { return false; }
      return ok;
    }

    method Stop()
      modifies this
      ensures subscribed == old(subscribed)
      ensures if old(started) then !started && !client && !connected && active == {} else View() == old(View())
      ensures old(started) ==> CanReach(old(View()), View())
    {
      hide Step, Enabled, Misuses, CanReach;
      if !started { return; }
      StopSteps(View());
      started := false;
      client, settled := false, false;
      connected := false;
      active := {};
    }
  }

  lemma MoreToDo(done: set<Id>, all: set<Id>)
    requires done <= all && done != all
    ensures exists d :: d in all - done
  {
    if d :| d in all && d !in done {
      assert d in all - done;
    }
  }

  lemma SetGrows(done: set<Id>, d: Id, ok: set<Id>)
    ensures (done + {d}) * ok == done * ok + (if d in ok then {d} else {})
    ensures (done + {d}) - ok == (done - ok) + (if d in ok then {} else {d})
  {
  }

  lemma NamedSnoc(ids: seq<Id>, i: nat)
    requires i < |ids|
    ensures Named(ids[..i + 1]) == Named(ids[..i]) + (if ids[i] != [] then {ids[i]} else {})
  {
    var a, b := ids[..i], ids[..i + 1];
    assert b == a + [ids[i]];
    forall x | x in Named(a) ensures x in Named(b) {
      var k :| 0 <= k < |a| && a[k] != [] && a[k] == x;
      assert b[k] == x;
    }
    assert b[i] == ids[i];
  }

  lemma ListedSnoc(ids: seq<Id>, i: nat)
    requires i < |ids|
    ensures Listed(ids[..i + 1]) == Listed(ids[..i]) + {ids[i]}
  {
    var a, b := ids[..i], ids[..i + 1];
    assert b == a + [ids[i]];
    forall x | x in Listed(a) ensures x in Listed(b) {
      var k :| 0 <= k < |a| && a[k] == x;
      assert b[k] == x;
    }
    assert b[i] == ids[i];
  }
}
