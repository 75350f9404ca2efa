/**
 File-transfer tunnels and jobs (src/abi_ft.cpp): reference counts shared by the callers of
 the C interface and by detached worker threads, one result per job, the cached ability answer.
 */
module FileTransfer {
  import opened Bytes

  const FT_EIO := -3
  const FT_ECANCELLED := -5
  const CMD_DOWNLOAD := 4
  const CMD_UPLOAD := 5
  const CMD_ABILITY := 7

  datatype Result = Result(ec: int, json: bytes)

  /** A result and the tunnel on which the job had been started. */
  datatype Delivery = Delivery(t: nat, r: Result)

  /** `held` is what the callers own: how many references they may still give back. `destroyed`
      counts deletions. */
  datatype Tun = Tun(refs: int, held: nat, lan: bool, probed: bool, cache: bytes, destroyed: nat)

  datatype Job = Job(refs: int, held: nat, cmd: int, started: nat, delivered: seq<Delivery>, finished: bool,
                     destroyed: nat)

  /** A worker thread between its points of interest. */
  datatype Stage = Running | Decided(r: Result) | Delivered | JobReleased | Gone

  datatype Worker = Worker(t: nat, j: nat, stage: Stage)

  /** A start on a tunnel that is not a LAN one, inside the caller's own call: entered, back from
      the result callback, returned. It holds no reference. */
  datatype CallStage = Entered | CalledBack | Returned

  datatype Call = Call(t: nat, j: nat, stage: CallStage)

  /** The other calls that go on using their object after something they cannot control, a callback,
      the network, a lock or a wait, and hold no reference of their own either. */
  datatype Kind = Connect | SyncConnect | Shutdown | GetResult

  /** Such a call, its tunnel or, for `GetResult`, its job, and the uses that are still to come:
      the connection, the status callback and the unlocking for `Connect`, one for the others. */
  datatype Borrow = Borrow(kind: Kind, x: nat, left: nat)

  datatype State = State(tunnels: seq<Tun>, jobs: seq<Job>, workers: seq<Worker>, calls: seq<Call>,
                         borrows: seq<Borrow>)

  const Empty: State := State([], [], [], [], [])

  // ---------- Objects ----------

  function RetainTun(x: Tun): Tun { x.(refs := x.refs + 1) }

  function ReleaseTun(x: Tun): Tun {
    x.(refs := x.refs - 1, destroyed := if x.refs == 1 then x.destroyed + 1 else x.destroyed)
  }

  function RetainJob(x: Job): Job { x.(refs := x.refs + 1) }

  function ReleaseJob(x: Job): Job {
    x.(refs := x.refs - 1, destroyed := if x.refs == 1 then x.destroyed + 1 else x.destroyed)
  }

  /** `deliver_result`: finished first, the callback behind it. */
  function Deliver(x: Job, t: nat, r: Result): Job {
    x.(delivered := x.delivered + [Delivery(t, r)], finished := true)
  }

  function CallBackOf(x: Job, t: nat): Job {
    x.(delivered := x.delivered + [Delivery(t, Result(FT_EIO, []))])
  }

  /** A query that yields no text has failed. */
  type AnswerText = b: bytes | b != [] witness [123]

  /** How the network side of a job turns out: connection and query for an ability job; for a transfer
      that it went through, with the text that came with it, that it was cancelled, or that it broke. */
  datatype Network = NoConnection | QueryFailed | Answer(json: AnswerText) | Moved(text: bytes) | Stopped | Broken

  datatype Decision = Decision(t: Tun, r: Result)

  /** The section of `run_ability_job` under the tunnel's lock, and what it then delivers. */
  function DecideAbility(x: Tun, n: Network): Decision {
    if x.probed then Decision(x, Result(0, x.cache))
    else if n.Answer? then
      Decision(x.(probed := true, cache := n.json), Result(0, n.json))
    else Decision(x, Result(FT_EIO, []))
  }

  function Decide(x: Tun, cmd: int, n: Network): Decision {
    if cmd == CMD_ABILITY then DecideAbility(x, n)
    else if cmd == CMD_UPLOAD || cmd == CMD_DOWNLOAD then Decision(x, DecideTransfer(cmd, n))
    else Decision(x, Result(FT_EIO, []))
  }

  /** `run_upload_job` and `run_download_job`: only a download has a text to hand on. */
  function DecideTransfer(cmd: int, n: Network): Result {
    match n
    case Moved(text) => Result(0, if cmd == CMD_UPLOAD then [] else text)
    case Stopped => Result(FT_ECANCELLED, [])
    case _ => Result(FT_EIO, [])
  }

  // ---------- Steps ----------

  /** One step is one call of the interface, or its part up to the callback it runs, or one atomic
      action of a worker; they interleave freely. */
  datatype Event =
    | CreateTunnel(lan: bool)
    | CreateJob(cmd: int)
    | RetainTunnel(t: nat)
    | ReleaseTunnel(t: nat)
    | RetainTheJob(j: nat)
    | ReleaseTheJob(j: nat)
    | StartJob(t: nat, j: nat)
    | CallBack(c: nat)
    | Finish(c: nat)
    | Enter(kind: Kind, x: nat)
    | GoOn(b: nat)
    | Act(w: nat, n: Network)

  /** Callers use and release only what they hold; a worker acts while it runs. */
  ghost predicate Enabled(s: State, e: Event) {
    match e
    case CreateTunnel(_) => true
    case CreateJob(_) => true
    case RetainTunnel(t) => t < |s.tunnels| && s.tunnels[t].held > 0
    case ReleaseTunnel(t) => t < |s.tunnels| && s.tunnels[t].held > 0
    case RetainTheJob(j) => j < |s.jobs| && s.jobs[j].held > 0
    case ReleaseTheJob(j) => j < |s.jobs| && s.jobs[j].held > 0
    case StartJob(t, j) =>
      t < |s.tunnels| && s.tunnels[t].held > 0 && j < |s.jobs| && s.jobs[j].held > 0
    case CallBack(c) => c < |s.calls| && s.calls[c].stage == Entered && s.calls[c].j < |s.jobs|
    case Finish(c) => c < |s.calls| && s.calls[c].stage == CalledBack && s.calls[c].j < |s.jobs|
    case Enter(kind, x) =>
      if kind == GetResult then x < |s.jobs| && s.jobs[x].held > 0 else x < |s.tunnels| && s.tunnels[x].held > 0
    case GoOn(b) => b < |s.borrows| && s.borrows[b].left > 0
    case Act(w, _) =>
      w < |s.workers| && s.workers[w].stage != Gone &&
      s.workers[w].t < |s.tunnels| && s.workers[w].j < |s.jobs|
  }

  function SetT(s: State, t: nat, x: Tun): State
    requires t < |s.tunnels|
  {
    s.(tunnels := s.tunnels[t := x])
  }

  function SetJ(s: State, j: nat, x: Job): State
    requires j < |s.jobs|
  {
    s.(jobs := s.jobs[j := x])
  }

  function ActOf(s: State, w: nat, n: Network): State
    requires Enabled(s, Act(w, n))
  {
    var me := s.workers[w];
    var t, j := s.tunnels[me.t], s.jobs[me.j];
    match me.stage
    case Running =>
      var d := Decide(t, j.cmd, n);
      SetT(s, me.t, d.t).(workers := s.workers[w := me.(stage := Decided(d.r))])
    case Decided(r) => SetJ(s, me.j, Deliver(j, me.t, r)).(workers := s.workers[w := me.(stage := Delivered)])
    case Delivered => SetJ(s, me.j, ReleaseJob(j)).(workers := s.workers[w := me.(stage := JobReleased)])
    case JobReleased => SetT(s, me.t, ReleaseTun(t)).(workers := s.workers[w := me.(stage := Gone)])
    case Gone => s
  }

  function Step(s: State, e: Event): State
    requires Enabled(s, e)
  {
    match e
    case CreateTunnel(lan) => s.(tunnels := s.tunnels + [Tun(1, 1, lan, false, [], 0)])
    case CreateJob(cmd) => s.(jobs := s.jobs + [Job(1, 1, cmd, 0, [], false, 0)])
    case RetainTunnel(t) =>
      SetT(s, t, RetainTun(s.tunnels[t]).(held := s.tunnels[t].held + 1))
    case ReleaseTunnel(t) =>
      SetT(s, t, ReleaseTun(s.tunnels[t]).(held := s.tunnels[t].held - 1))
    case RetainTheJob(j) =>
      SetJ(s, j, RetainJob(s.jobs[j]).(held := s.jobs[j].held + 1))
    case ReleaseTheJob(j) =>
      SetJ(s, j, ReleaseJob(s.jobs[j]).(held := s.jobs[j].held - 1))
    case StartJob(t, j) =>
      var job := s.jobs[j].(started := s.jobs[j].started + 1);
      if s.tunnels[t].lan then
        SetJ(SetT(s, t, RetainTun(s.tunnels[t])), j, RetainJob(job))
          .(workers := s.workers + [Worker(t, j, Running)])
      else SetJ(s, j, job).(calls := s.calls + [Call(t, j, Entered)])
    case CallBack(c) =>
      var me := s.calls[c];
      SetJ(s, me.j, CallBackOf(s.jobs[me.j], me.t)).(calls := s.calls[c := me.(stage := CalledBack)])
    case Finish(c) =>
      var me := s.calls[c];
      SetJ(s, me.j, s.jobs[me.j].(finished := true)).(calls := s.calls[c := me.(stage := Returned)])
    case Enter(kind, x) =>
      s.(borrows := s.borrows + [Borrow(kind, x, if kind == Connect then 3 else 1)])
    case GoOn(b) => s.(borrows := s.borrows[b := s.borrows[b].(left := s.borrows[b].left - 1)])
    case Act(w, n) => ActOf(s, w, n)
  }

  // ---------- Counting worker references ----------

  function HoldsTunnel(w: Worker, t: nat): nat {
    if w.t == t && w.stage != Gone then 1 else 0
  }

  function HoldsJob(w: Worker, j: nat): nat {
    if w.j == j && w.stage != Gone && w.stage != JobReleased then 1 else 0
  }

  function OwesResult(w: Worker, j: nat): nat {
    if w.j == j && (w.stage == Running || w.stage.Decided?) then 1 else 0
  }

  function TunnelRefs(ws: seq<Worker>, t: nat): nat {
    if ws == [] then 0 else TunnelRefs(ws[..|ws| - 1], t) + HoldsTunnel(ws[|ws| - 1], t)
  }

  function JobRefs(ws: seq<Worker>, j: nat): nat {
    if ws == [] then 0 else JobRefs(ws[..|ws| - 1], j) + HoldsJob(ws[|ws| - 1], j)
  }

  function Owed(ws: seq<Worker>, j: nat): nat {
    if ws == [] then 0 else Owed(ws[..|ws| - 1], j) + OwesResult(ws[|ws| - 1], j)
  }

  function CallOwes(c: Call, j: nat): nat {
    if c.j == j && c.stage == Entered then 1 else 0
  }

  function CallsOwed(cs: seq<Call>, j: nat): nat {
    if cs == [] then 0 else CallsOwed(cs[..|cs| - 1], j) + CallOwes(cs[|cs| - 1], j)
  }

  lemma {:induction false} CallsUpdate(cs: seq<Call>, i: nat, c: Call, x: nat)
    requires i < |cs|
    ensures CallsOwed(cs[i := c], x) == CallsOwed(cs, x) - CallOwes(cs[i], x) + CallOwes(c, x)
    decreases |cs|
  {
    hide CallOwes;
    var n := |cs| - 1;
    if i < n {
      assert cs[i := c][..n] == cs[..n][i := c];
      CallsUpdate(cs[..n], i, c, x);
    } else {
      assert cs[i := c][..n] == cs[..n];
    }
  }

  lemma {:induction false} CountsUpdate(ws: seq<Worker>, i: nat, w: Worker, x: nat)
    requires i < |ws|
    ensures TunnelRefs(ws[i := w], x) == TunnelRefs(ws, x) - HoldsTunnel(ws[i], x) + HoldsTunnel(w, x)
    ensures JobRefs(ws[i := w], x) == JobRefs(ws, x) - HoldsJob(ws[i], x) + HoldsJob(w, x)
    ensures Owed(ws[i := w], x) == Owed(ws, x) - OwesResult(ws[i], x) + OwesResult(w, x)
    decreases |ws|
  {
    hide HoldsTunnel, HoldsJob, OwesResult;
    var n := |ws| - 1;
    if i < n {
      assert ws[i := w][..n] == ws[..n][i := w];
      CountsUpdate(ws[..n], i, w, x);
    } else {
      assert ws[i := w][..n] == ws[..n];
    }
  }

  lemma CountsAppend(ws: seq<Worker>, w: Worker, cs: seq<Call>, c: Call, x: nat)
    ensures TunnelRefs(ws + [w], x) == TunnelRefs(ws, x) + HoldsTunnel(w, x)
    ensures JobRefs(ws + [w], x) == JobRefs(ws, x) + HoldsJob(w, x)
    ensures Owed(ws + [w], x) == Owed(ws, x) + OwesResult(w, x)
    ensures CallsOwed(cs + [c], x) == CallsOwed(cs, x) + CallOwes(c, x)
  {
    hide HoldsTunnel, HoldsJob, OwesResult, CallOwes;
    assert (ws + [w])[..|ws|] == ws && (cs + [c])[..|cs|] == cs;
  }

  lemma {:induction false} CountsContain(ws: seq<Worker>, i: nat, x: nat)
    requires i < |ws|
    ensures HoldsTunnel(ws[i], x) <= TunnelRefs(ws, x)
    ensures HoldsJob(ws[i], x) <= JobRefs(ws, x)
    decreases |ws|
  {
    hide HoldsTunnel, HoldsJob;
    if i < |ws| - 1 { CountsContain(ws[..|ws| - 1], i, x); }
  }

  // ---------- Invariant ----------

  /** The count is what callers and running workers hold; the object is gone exactly when that is
      nothing, and it was destroyed once. */
  ghost predicate TunnelCounted(s: State, t: nat)
    requires t < |s.tunnels|
  {
    var x := s.tunnels[t];
    x.refs == x.held + TunnelRefs(s.workers, t) && x.destroyed == if x.refs > 0 then 0 else 1
  }

  /** Likewise for a job; and each start has delivered its one result or still owes it. */
  ghost predicate JobCounted(s: State, j: nat)
    requires j < |s.jobs|
  {
    var x := s.jobs[j];
    x.refs == x.held + JobRefs(s.workers, j) && x.destroyed == (if x.refs > 0 then 0 else 1) &&
    x.started == |x.delivered| + Owed(s.workers, j) + CallsOwed(s.calls, j)
  }

  ghost predicate WorkersInRange(s: State) {
    (forall i :: 0 <= i < |s.workers| ==> s.workers[i].t < |s.tunnels| && s.workers[i].j < |s.jobs|) &&
    (forall i :: 0 <= i < |s.calls| ==> s.calls[i].t < |s.tunnels| && s.calls[i].j < |s.jobs|) &&
    (forall i :: 0 <= i < |s.borrows| ==>
       s.borrows[i].x < if s.borrows[i].kind == GetResult then |s.jobs| else |s.tunnels|)
  }

  ghost predicate Inv(s: State) {
    WorkersInRange(s) &&
    (forall t :: 0 <= t < |s.tunnels| ==> TunnelCounted(s, t)) &&
    (forall j :: 0 <= j < |s.jobs| ==> JobCounted(s, j))
  }

  /** The next use that a call makes of a tunnel. On a tunnel that is not a LAN one there is no
      connection to make and no lock to release. */
  ghost predicate UsesTunnel(s: State, c: Borrow, t: nat) {
    c.kind != GetResult && c.x == t && t < |s.tunnels| &&
    (s.tunnels[t].lan || c.kind == Shutdown || (c.kind == Connect && c.left == 2))
  }

  /** Steps that use an object on the strength of a reference that their caller had when the call
      began. */
  ghost predicate BorrowsTunnel(s: State, e: Event, t: nat) {
    e.GoOn? && e.b < |s.borrows| && UsesTunnel(s, s.borrows[e.b], t)
  }

  ghost predicate BorrowsJob(s: State, e: Event, j: nat) {
    match e
    case CallBack(c) => c < |s.calls| && s.calls[c].j == j
    case Finish(c) => c < |s.calls| && s.calls[c].j == j
    case GoOn(b) => b < |s.borrows| && s.borrows[b].kind == GetResult && s.borrows[b].x == j
    case _ => false
  }

  /** The objects that a step reads or writes. */
  ghost predicate TouchesTunnel(s: State, e: Event, t: nat) {
    match e
    case RetainTunnel(u) => u == t
    case ReleaseTunnel(u) => u == t
    case StartJob(u, _) => u == t
    case Enter(kind, x) => kind != GetResult && x == t
    case Act(w, _) => w < |s.workers| && s.workers[w].t == t && s.workers[w].stage != Gone
    case _ => BorrowsTunnel(s, e, t)
  }

  ghost predicate TouchesJob(s: State, e: Event, j: nat) {
    match e
    case RetainTheJob(i) => i == j
    case ReleaseTheJob(i) => i == j
    case StartJob(_, i) => i == j
    case Enter(kind, x) => kind == GetResult && x == j
    case Act(w, _) => w < |s.workers| && s.workers[w].j == j &&
      s.workers[w].stage != Gone && s.workers[w].stage != JobReleased
    case _ => BorrowsJob(s, e, j)
  }

  /** Somebody, a caller or a worker, still has a reference to the tunnel. */
  ghost predicate TunnelReferenced(s: State, t: nat)
    requires t < |s.tunnels|
  {
    s.tunnels[t].held > 0 || exists i :: 0 <= i < |s.workers| && HoldsTunnel(s.workers[i], t) > 0
  }

  /** Likewise for a job. */
  ghost predicate JobReferenced(s: State, j: nat)
    requires j < |s.jobs|
  {
    s.jobs[j].held > 0 || exists i :: 0 <= i < |s.workers| && HoldsJob(s.workers[i], j) > 0
  }

  lemma {:induction false} SomebodyHolds(ws: seq<Worker>, x: nat)
    ensures JobRefs(ws, x) > 0 <==> exists i :: 0 <= i < |ws| && HoldsJob(ws[i], x) > 0
    ensures TunnelRefs(ws, x) > 0 <==> exists i :: 0 <= i < |ws| && HoldsTunnel(ws[i], x) > 0
    decreases |ws|
  {
    hide HoldsJob, HoldsTunnel;
    if ws != [] {
      var n := |ws| - 1;
      SomebodyHolds(ws[..n], x);
      assert forall i :: 0 <= i < n ==> ws[..n][i] == ws[i];
      if JobRefs(ws[..n], x) > 0 {
        var i :| 0 <= i < n && HoldsJob(ws[..n][i], x) > 0;
        assert HoldsJob(ws[i], x) > 0;
      }
      if TunnelRefs(ws[..n], x) > 0 {
        var i :| 0 <= i < n && HoldsTunnel(ws[..n][i], x) > 0;
        assert HoldsTunnel(ws[i], x) > 0;
      }
      if i :| 0 <= i < |ws| && HoldsJob(ws[i], x) > 0 {
        assert i < n ==> HoldsJob(ws[..n][i], x) > 0;
      }
      if i :| 0 <= i < |ws| && HoldsTunnel(ws[i], x) > 0 {
        assert i < n ==> HoldsTunnel(ws[..n][i], x) > 0;
      }
    }
  }

  ghost predicate TunnelsUsable(s: State, e: Event) {
    forall t :: 0 <= t < |s.tunnels| && TouchesTunnel(s, e, t) ==> s.tunnels[t].destroyed == 0
  }

  ghost predicate JobsUsable(s: State, e: Event) {
    forall j :: 0 <= j < |s.jobs| && TouchesJob(s, e, j) ==> s.jobs[j].destroyed == 0
  }

  ghost predicate TunnelsLent(s: State, e: Event) {
    forall t :: 0 <= t < |s.tunnels| && BorrowsTunnel(s, e, t) ==> TunnelReferenced(s, t)
  }

  ghost predicate JobsLent(s: State, e: Event) {
    forall j :: 0 <= j < |s.jobs| && BorrowsJob(s, e, j) ==> JobReferenced(s, j)
  }

  /** A step touches no object that has been destroyed, exactly when what it borrows is still
      referenced by somebody; steps that borrow nothing never do. */
  lemma NoUseAfterDestroy(s: State, e: Event)
    requires Inv(s) && Enabled(s, e)
    ensures TunnelsUsable(s, e) <==> TunnelsLent(s, e)
    ensures JobsUsable(s, e) <==> JobsLent(s, e)
  {
    hide TunnelRefs, JobRefs, Owed, CallsOwed, BorrowsTunnel, BorrowsJob;
    forall t | 0 <= t < |s.tunnels| && TouchesTunnel(s, e, t)
      ensures s.tunnels[t].destroyed == 0 <==> (BorrowsTunnel(s, e, t) ==> TunnelReferenced(s, t))
    {
      TunnelUse(s, e, t);
    }
    forall j | 0 <= j < |s.jobs| && TouchesJob(s, e, j)
      ensures s.jobs[j].destroyed == 0 <==> (BorrowsJob(s, e, j) ==> JobReferenced(s, j))
    {
      JobUse(s, e, j);
    }
    BorrowingTouches(s, e);
  }

  lemma BorrowingTouches(s: State, e: Event)
    ensures forall t :: BorrowsTunnel(s, e, t) ==> TouchesTunnel(s, e, t)
    ensures forall j :: BorrowsJob(s, e, j) ==> TouchesJob(s, e, j)
  {
  }

  lemma TunnelUse(s: State, e: Event, t: nat)
    requires Inv(s) && Enabled(s, e) && t < |s.tunnels| && TouchesTunnel(s, e, t)
    ensures s.tunnels[t].destroyed == 0 <==> (BorrowsTunnel(s, e, t) ==> TunnelReferenced(s, t))
  {
    hide TunnelRefs, JobRefs, Owed, CallsOwed, UsesTunnel, JobCounted;
    assert TunnelCounted(s, t);
    SomebodyHolds(s.workers, t);
    if e.Act? { CountsContain(s.workers, e.w, t); }
  }

  lemma JobUse(s: State, e: Event, j: nat)
    requires Inv(s) && Enabled(s, e) && j < |s.jobs| && TouchesJob(s, e, j)
    ensures s.jobs[j].destroyed == 0 <==> (BorrowsJob(s, e, j) ==> JobReferenced(s, j))
  {
    hide TunnelRefs, JobRefs, Owed, CallsOwed, TunnelCounted;
    assert JobCounted(s, j);
    SomebodyHolds(s.workers, j);
    if e.Act? { CountsContain(s.workers, e.w, j); }
  }

  ghost predicate OfCaller(e: Event) {
    !e.Act? && !e.StartJob? && !e.CallBack? && !e.Finish?
  }

  lemma CallerStepInv(s: State, e: Event)
    requires Inv(s) && Enabled(s, e) && OfCaller(e)
    ensures Inv(Step(s, e))
  {
    hide TunnelRefs, JobRefs, Owed, CallsOwed, TunnelCounted, JobCounted;
    var s' := Step(s, e);
    forall t | 0 <= t < |s'.tunnels| ensures TunnelCounted(s', t) {
      CallerTunnel(s, e, t);
    }
    forall j | 0 <= j < |s'.jobs| ensures JobCounted(s', j) {
      CallerJob(s, e, j);
    }
  }

  lemma CallerTunnel(s: State, e: Event, t: nat)
    requires Inv(s) && Enabled(s, e) && OfCaller(e) && t < |Step(s, e).tunnels|
    ensures TunnelCounted(Step(s, e), t)
  {
    hide TunnelRefs, JobCounted;
    if t < |s.tunnels| {
      assert TunnelCounted(s, t);
    } else {
      FreshCounts(s.workers, t, s);
    }
  }

  lemma CallerJob(s: State, e: Event, j: nat)
    requires Inv(s) && Enabled(s, e) && OfCaller(e) && j < |Step(s, e).jobs|
    ensures JobCounted(Step(s, e), j)
  {
    hide JobRefs, Owed, CallsOwed, TunnelCounted;
    if j < |s.jobs| {
      assert JobCounted(s, j);
    } else {
      FreshCounts(s.workers, j, s);
      FreshCalls(s.calls, j, s);
    }
  }

  /** No worker refers to an object that does not exist yet. */
  lemma {:induction false} FreshCounts(ws: seq<Worker>, x: nat, s: State)
    requires forall i :: 0 <= i < |ws| ==> ws[i].t < |s.tunnels| && ws[i].j < |s.jobs|
    ensures x >= |s.tunnels| ==> TunnelRefs(ws, x) == 0
    ensures x >= |s.jobs| ==> JobRefs(ws, x) == 0 && Owed(ws, x) == 0
    decreases |ws|
  {
    if ws != [] { FreshCounts(ws[..|ws| - 1], x, s); }
  }

  lemma {:induction false} FreshCalls(cs: seq<Call>, x: nat, s: State)
    requires forall i :: 0 <= i < |cs| ==> cs[i].j < |s.jobs|
    ensures x >= |s.jobs| ==> CallsOwed(cs, x) == 0
    decreases |cs|
  {
    if cs != [] { FreshCalls(cs[..|cs| - 1], x, s); }
  }

  lemma StartInv(s: State, t: nat, j: nat)
    requires Inv(s) && Enabled(s, StartJob(t, j))
    ensures Inv(Step(s, StartJob(t, j)))
  {
    hide TunnelRefs, JobRefs, Owed, CallsOwed;
    var s' := Step(s, StartJob(t, j));
    var w, c := Worker(t, j, Running), Call(t, j, Entered);
    forall u | 0 <= u < |s'.tunnels| ensures TunnelCounted(s', u) {
      assert TunnelCounted(s, u);
      CountsAppend(s.workers, w, s.calls, c, u);
    }
    forall i | 0 <= i < |s'.jobs| ensures JobCounted(s', i) {
      assert JobCounted(s, i);
      CountsAppend(s.workers, w, s.calls, c, i);
    }
  }

  /** The two halves of a start that is answered inside the call. */
  lemma CallInv(s: State, e: Event)
    requires Inv(s) && Enabled(s, e) && (e.CallBack? || e.Finish?)
    ensures Inv(Step(s, e))
  {
    hide TunnelRefs, JobRefs, Owed, CallsOwed;
    var s' := Step(s, e);
    forall t | 0 <= t < |s'.tunnels| ensures TunnelCounted(s', t) {
      assert TunnelCounted(s, t);
    }
    forall j | 0 <= j < |s'.jobs| ensures JobCounted(s', j) {
      assert JobCounted(s, j);
      CallsUpdate(s.calls, e.c, s'.calls[e.c], j);
    }
  }

  lemma ActInv(s: State, w: nat, n: Network)
    requires Inv(s) && Enabled(s, Act(w, n))
    ensures Inv(Step(s, Act(w, n)))
  {
    hide TunnelRefs, JobRefs, Owed, Decide, TunnelCounted, JobCounted;
    var s' := ActOf(s, w, n);
    forall t | 0 <= t < |s'.tunnels| ensures TunnelCounted(s', t) {
      ActTunnel(s, w, n, t);
    }
    forall j | 0 <= j < |s'.jobs| ensures JobCounted(s', j) {
      ActJob(s, w, n, j);
    }
  }

  lemma ActTunnel(s: State, w: nat, n: Network, t: nat)
    requires Inv(s) && Enabled(s, Act(w, n)) && t < |s.tunnels|
    ensures t < |ActOf(s, w, n).tunnels| && TunnelCounted(ActOf(s, w, n), t)
  {
    hide TunnelRefs, JobRefs, Owed, JobCounted;
    var me := s.workers[w];
    assert TunnelCounted(s, t);
    DecideKeepsCounts(s.tunnels[me.t], s.jobs[me.j].cmd, n);
    CountsContain(s.workers, w, t);
    CountsUpdate(s.workers, w, ActOf(s, w, n).workers[w], t);
  }

  lemma ActJob(s: State, w: nat, n: Network, j: nat)
    requires Inv(s) && Enabled(s, Act(w, n)) && j < |s.jobs|
    ensures j < |ActOf(s, w, n).jobs| && JobCounted(ActOf(s, w, n), j)
  {
    hide TunnelRefs, JobRefs, Owed, CallsOwed, TunnelCounted, Decide;
    assert JobCounted(s, j);
    CountsContain(s.workers, w, j);
    CountsUpdate(s.workers, w, ActOf(s, w, n).workers[w], j);
  }

  lemma DecideKeepsCounts(x: Tun, cmd: int, n: Network)
    ensures var y := Decide(x, cmd, n).t;
            y.refs == x.refs && y.held == x.held && y.destroyed == x.destroyed && y.lan == x.lan
  {
  }

  lemma StepInv(s: State, e: Event)
    requires Inv(s) && Enabled(s, e)
    ensures Inv(Step(s, e))
  {
    hide Inv, Step;
    match e {
      case StartJob(t, j) => StartInv(s, t, j);
      case Act(w, n) => ActInv(s, w, n);
      case CallBack(_) => CallInv(s, e);
      case Finish(_) => CallInv(s, e);
      case _ => CallerStepInv(s, e);
    }
  }

  /** A run: every step was allowed when it was taken, and touched only what still existed. */
  ghost predicate IsRun(states: seq<State>, es: seq<Event>) {
    |states| == |es| + 1 && states[0] == Empty &&
    forall i :: 0 <= i < |es| ==>
      Enabled(states[i], es[i]) && TunnelsUsable(states[i], es[i]) && JobsUsable(states[i], es[i]) &&
      states[i + 1] == Step(states[i], es[i])
  }

  /** Lifetime safety of every interleaving: the accounting stands at every state, and whatever
      step comes next touches only what still exists, exactly when what it borrows is still
      referenced. */
  lemma {:induction false} RunIsSafe(states: seq<State>, es: seq<Event>, n: nat, e: Event)
    requires IsRun(states, es) && n <= |es| && Enabled(states[n], e)
    ensures Inv(states[n])
    ensures TunnelsUsable(states[n], e) <==> TunnelsLent(states[n], e)
    ensures JobsUsable(states[n], e) <==> JobsLent(states[n], e)
    decreases n
  {
    hide Inv, Step, TunnelsUsable, JobsUsable, TunnelsLent, JobsLent, Enabled;
    if n == 0 {
      EmptyInv();
    } else {
      RunIsSafe(states, es, n - 1, es[n - 1]);
      StepInv(states[n - 1], es[n - 1]);
    }
    NoUseAfterDestroy(states[n], e);
  }

  /** A run that reaches a state. */
  ghost predicate Reached(s: State) {
    exists states, es :: IsRun(states, es) && states[|es|] == s
  }

  lemma ReachesNext(s: State, e: Event, t: State)
    requires Reached(s) && Enabled(s, e) && TunnelsUsable(s, e) && JobsUsable(s, e) && t == Step(s, e)
    ensures Reached(t)
  {
    hide Step, Enabled, TunnelsUsable, JobsUsable;
    var states, es :| IsRun(states, es) && states[|es|] == s;
    var states', es' := states + [t], es + [e];
    assert IsRun(states', es') && states'[|es'|] == t;
  }

  lemma EmptyReached()
    ensures Reached(Empty)
  {
    assert IsRun([Empty], []);
  }

  /** A callback that gives back the last reference to its job: the call then finishes a job that
      is gone. */
  lemma CallbackReleases(cmd: int) returns (s: State)
    ensures Reached(s) && |s.jobs| == 1 && s.jobs[0].destroyed == 1
    ensures Enabled(s, Finish(0)) && TouchesJob(s, Finish(0), 0) && !JobsUsable(s, Finish(0))
  {
    hide Reached;
    var x := Tun(1, 1, false, false, [], 0);
    var y := Job(1, 1, cmd, 0, [], false, 0);
    EmptyReached();
    var s1 := Empty.(tunnels := [x]);
    ReachesNext(Empty, CreateTunnel(false), s1);
    var s2 := s1.(jobs := [y]);
    ReachesNext(s1, CreateJob(cmd), s2);
    s := StubReleases(s2, y);
  }

  lemma StubReleases(s2: State, y: Job) returns (s: State)
    requires Reached(s2) && s2 == State([Tun(1, 1, false, false, [], 0)], [y], [], [], [])
    requires y == Job(1, 1, y.cmd, 0, [], false, 0)
    ensures Reached(s) && |s.jobs| == 1 && s.jobs[0].destroyed == 1
    ensures Enabled(s, Finish(0)) && TouchesJob(s, Finish(0), 0) && !JobsUsable(s, Finish(0))
  {
    hide Reached;
    var z := y.(started := 1);
    var s3 := s2.(jobs := [z], calls := [Call(0, 0, Entered)]);
    ReachesNext(s2, StartJob(0, 0), s3);
    var d := CallBackOf(z, 0);
    var s4 := s2.(jobs := [d], calls := [Call(0, 0, CalledBack)]);
    ReachesNext(s3, CallBack(0), s4);
    s := s4.(jobs := [ReleaseJob(d).(held := 0)]);
    ReachesNext(s4, ReleaseTheJob(0), s);
  }

  /** A connection callback that gives back the last reference to its tunnel: the call then reads the
      status callback of a tunnel that is gone. */
  lemma ConnectCallbackReleases(lan: bool) returns (s: State)
    ensures Reached(s) && |s.tunnels| == 1 && s.tunnels[0].destroyed == 1
    ensures Enabled(s, GoOn(0)) && TouchesTunnel(s, GoOn(0), 0) && !TunnelsUsable(s, GoOn(0))
  {
    hide Reached;
    var x := Tun(1, 1, lan, false, [], 0);
    EmptyReached();
    var s1 := Empty.(tunnels := [x]);
    ReachesNext(Empty, CreateTunnel(lan), s1);
    var s2 := s1.(borrows := [Borrow(Connect, 0, 3)]);
    ReachesNext(s1, Enter(Connect, 0), s2);
    var s3 := s1.(borrows := [Borrow(Connect, 0, 2)]);
    ReachesNext(s2, GoOn(0), s3);
    s := s3.(tunnels := [ReleaseTun(x).(held := 0)]);
    ReachesNext(s3, ReleaseTunnel(0), s);
  }

  lemma EmptyInv()
    ensures Inv(Empty) && AbilityInv(Empty)
  {
  }

  /** Once no worker is left on a job it has delivered exactly as many results as it was started,
      and once the callers let go as well it has been destroyed, exactly once. */
  lemma AllDelivered(s: State, j: nat)
    requires Inv(s) && j < |s.jobs|
    requires forall i :: 0 <= i < |s.workers| && s.workers[i].j == j ==>
               s.workers[i].stage == JobReleased || s.workers[i].stage == Gone
    requires forall i :: 0 <= i < |s.calls| && s.calls[i].j == j ==> s.calls[i].stage != Entered
    ensures |s.jobs[j].delivered| == s.jobs[j].started
    ensures s.jobs[j].destroyed == if s.jobs[j].held == 0 then 1 else 0
  {
    hide JobRefs, Owed, CallsOwed, TunnelCounted;
    assert JobCounted(s, j);
    NothingOwed(s.workers, j);
    NoCallOwes(s.calls, j);
  }

  lemma {:induction false} NothingOwed(ws: seq<Worker>, j: nat)
    requires forall i :: 0 <= i < |ws| && ws[i].j == j ==> ws[i].stage == JobReleased || ws[i].stage == Gone
    ensures Owed(ws, j) == 0 && JobRefs(ws, j) == 0
    decreases |ws|
  {
    if ws != [] { NothingOwed(ws[..|ws| - 1], j); }
  }

  lemma {:induction false} NoCallOwes(cs: seq<Call>, j: nat)
    requires forall i :: 0 <= i < |cs| && cs[i].j == j ==> cs[i].stage != Entered
    ensures CallsOwed(cs, j) == 0
    decreases |cs|
  {
    if cs != [] { NoCallOwes(cs[..|cs| - 1], j); }
  }

  // ---------- The ability cache ----------

  /** A probed tunnel stays probed with the same answer, whatever happens next. */
  lemma CacheStays(s: State, e: Event, t: nat)
    requires Enabled(s, e) && t < |s.tunnels| && s.tunnels[t].probed
    ensures t < |Step(s, e).tunnels| && Step(s, e).tunnels[t].probed
    ensures Step(s, e).tunnels[t].cache == s.tunnels[t].cache
  {
  }

  /** An ability job on this tunnel may report its cached answer or a failure, nothing else. */
  ghost predicate Agrees(x: Tun, r: Result) {
    r == Result(-3, []) || (x.probed && r == Result(0, x.cache))
  }

  ghost predicate IsAbility(s: State, j: nat) {
    j < |s.jobs| && s.jobs[j].cmd == 7
  }

  ghost predicate AbilityInv(s: State) {
    (forall t :: 0 <= t < |s.tunnels| && s.tunnels[t].probed ==> s.tunnels[t].cache != []) &&
    (forall i :: 0 <= i < |s.workers| && s.workers[i].stage.Decided? && IsAbility(s, s.workers[i].j) ==>
       s.workers[i].t < |s.tunnels| && Agrees(s.tunnels[s.workers[i].t], s.workers[i].stage.r)) &&
    (forall j, k :: 0 <= j < |s.jobs| && IsAbility(s, j) && 0 <= k < |s.jobs[j].delivered| ==>
       var d := s.jobs[j].delivered[k]; d.t < |s.tunnels| && Agrees(s.tunnels[d.t], d.r))
  }

  lemma AgreesStays(s: State, e: Event, t: nat, r: Result)
    requires Enabled(s, e) && t < |s.tunnels| && Agrees(s.tunnels[t], r)
    ensures t < |Step(s, e).tunnels| && Agrees(Step(s, e).tunnels[t], r)
  {
    hide Step;
    TunnelsStay(s, e, t);
    if s.tunnels[t].probed { CacheStays(s, e, t); }
  }

  lemma TunnelsStay(s: State, e: Event, t: nat)
    requires Enabled(s, e) && t < |s.tunnels|
    ensures t < |Step(s, e).tunnels|
  {
  }

  /** What a step adds to the deliveries of a job, and how it leaves the other fields that the
      ability answers depend on. */
  lemma StepDelivers(s: State, e: Event, j: nat)
    requires Enabled(s, e) && WorkersInRange(s) && j < |Step(s, e).jobs|
    ensures var t := Step(s, e);
            if j >= |s.jobs| then t.jobs[j].delivered == []
            else
              t.jobs[j].cmd == s.jobs[j].cmd &&
              (t.jobs[j].delivered == s.jobs[j].delivered ||
               (e.CallBack? && t.jobs[j].delivered ==
                  s.jobs[j].delivered + [Delivery(s.calls[e.c].t, Result(-3, []))]) ||
               (e.Act? && s.workers[e.w].j == j && s.workers[e.w].stage.Decided? &&
                t.jobs[j].delivered == s.jobs[j].delivered + [Delivery(s.workers[e.w].t, s.workers[e.w].stage.r)]))
  {
    hide Decide;
  }

  /** A worker's decision, as a function of the tunnel it leaves: the cached answer when that
      tunnel is probed, the probing job included, and a failure otherwise. */
  lemma DecidesCached(s: State, w: nat, n: Network)
    requires Enabled(s, Act(w, n)) && s.workers[w].stage == Running && IsAbility(s, s.workers[w].j)
    ensures var t := Step(s, Act(w, n)); var x := t.tunnels[s.workers[w].t];
            t.workers[w] == s.workers[w].(stage := Decided(if x.probed then Result(0, x.cache) else Result(-3, [])))
  {
  }

  /** What a worker delivers, by the kind of its job: the answer for an ability job (7), whether it asks
      now or finds it cached; success with the text for a download (4) and without it for an upload (5) that
      went through, the code for cancellation or the general failure for one that did not; failure for a job
      of any other kind. */
  ghost predicate Outcome(x: Tun, cmd: int, n: Network, r: Result) {
    if cmd == 7 && x.probed then r == Result(0, x.cache)
    else if cmd == 7 && n.Answer? then r == Result(0, n.json)
    else if cmd == 4 && n.Moved? then r == Result(0, n.text)
    else if cmd == 5 && n.Moved? then r == Result(0, [])
    else if (cmd == 4 || cmd == 5) && n.Stopped? then r == Result(-5, [])
    else r == Result(-3, [])
  }

  /** A worker's two steps: one result is delivered, the one its job and the network call for, and the
      tunnel remembers an answer that was asked for, and nothing else. */
  lemma WorkerDelivers(s: State, w: nat, n: Network, m: Network)
    requires Enabled(s, Act(w, n)) && s.workers[w].stage == Running
    ensures var t, j := s.workers[w].t, s.workers[w].j;
            var s1 := Step(s, Act(w, n));
            Enabled(s1, Act(w, m)) && var s2 := Step(s1, Act(w, m));
            s1.jobs == s.jobs && s2.tunnels == s1.tunnels &&
            (exists r :: Outcome(s.tunnels[t], s.jobs[j].cmd, n, r) &&
               s2.jobs == s.jobs[j := s.jobs[j].(delivered := s.jobs[j].delivered + [Delivery(t, r)],
                                                 finished := true)]) &&
            s2.tunnels ==
              if s.jobs[j].cmd == 7 && !s.tunnels[t].probed && n.Answer?
              then s.tunnels[t := s.tunnels[t].(probed := true, cache := n.json)] else s.tunnels
  {
    var t, j := s.workers[w].t, s.workers[w].j;
    var r := Decide(s.tunnels[t], s.jobs[j].cmd, n).r;
    assert Outcome(s.tunnels[t], s.jobs[j].cmd, n, r);
    var s1 := Step(s, Act(w, n));
    assert s1.workers[w] == s.workers[w].(stage := Decided(r));
  }

  /** A start that is answered inside the call delivers a failure; it marks the job finished only behind
      the callback. */
  lemma StubDelivers(s: State, c: nat)
    requires Enabled(s, CallBack(c))
    ensures var me := s.calls[c];
            var s1 := Step(s, CallBack(c));
            Enabled(s1, Finish(c)) && var s2 := Step(s1, Finish(c)); var x := s.jobs[me.j];
            s1.jobs == s.jobs[me.j := x.(delivered := x.delivered + [Delivery(me.t, Result(-3, []))])] &&
            s2.jobs == s1.jobs[me.j := s1.jobs[me.j].(finished := true)] && s2.tunnels == s.tunnels
  {
  }

  lemma StepWorker(s: State, e: Event, i: nat)
    requires Enabled(s, e) && WorkersInRange(s) && i < |Step(s, e).workers|
    ensures var t := Step(s, e);
            if i >= |s.workers| then t.workers[i].stage == Running
            else
              t.workers[i].t == s.workers[i].t && t.workers[i].j == s.workers[i].j &&
              (t.workers[i] == s.workers[i] || (e.Act? && e.w == i))
    ensures e.Act? && e.w == i ==> NextStage(s.workers[i], Step(s, e).workers[i])
  {
    hide Decide;
  }

  /** A worker's stages follow one another. */
  ghost predicate NextStage(a: Worker, b: Worker) {
    match a.stage
    case Running => b.stage.Decided?
    case Decided(_) => b.stage == Delivered
    case Delivered => b.stage == JobReleased
    case _ => b.stage == Gone
  }

  lemma AbilityStep(s: State, e: Event)
    requires AbilityInv(s) && WorkersInRange(s) && Enabled(s, e)
    ensures AbilityInv(Step(s, e))
  {
    hide Step, Enabled, Agrees;
    var s' := Step(s, e);
    forall t | 0 <= t < |s'.tunnels| && s'.tunnels[t].probed ensures s'.tunnels[t].cache != [] {
      CacheNotEmpty(s, e, t);
    }
    forall i | 0 <= i < |s'.workers| && s'.workers[i].stage.Decided? && IsAbility(s', s'.workers[i].j)
      ensures s'.workers[i].t < |s'.tunnels| && Agrees(s'.tunnels[s'.workers[i].t], s'.workers[i].stage.r)
    {
      WorkerAgrees(s, e, i);
    }
    forall j, k | 0 <= j < |s'.jobs| && IsAbility(s', j) && 0 <= k < |s'.jobs[j].delivered|
      ensures var d := s'.jobs[j].delivered[k]; d.t < |s'.tunnels| && Agrees(s'.tunnels[d.t], d.r)
    {
      DeliveryAgrees(s, e, j, k);
    }
  }

  lemma CacheNotEmpty(s: State, e: Event, t: nat)
    requires AbilityInv(s) && Enabled(s, e) && t < |Step(s, e).tunnels| && Step(s, e).tunnels[t].probed
    ensures Step(s, e).tunnels[t].cache != []
  {
    hide Agrees;
  }

  lemma WorkerAgrees(s: State, e: Event, i: nat)
    requires AbilityInv(s) && WorkersInRange(s) && Enabled(s, e) && i < |Step(s, e).workers|
    requires var w := Step(s, e).workers[i]; w.stage.Decided? && IsAbility(Step(s, e), w.j)
    ensures var w := Step(s, e).workers[i];
            w.t < |Step(s, e).tunnels| && Agrees(Step(s, e).tunnels[w.t], w.stage.r)
  {
    hide Step, Enabled;
    StepWorker(s, e, i);
    var me := s.workers[i];
    StepDelivers(s, e, me.j);
    TunnelsStay(s, e, me.t);
    if Step(s, e).workers[i] == me {
      AgreesStays(s, e, me.t, me.stage.r);
    } else {
      DecidesCached(s, i, e.n);
    }
  }

  lemma DeliveryAgrees(s: State, e: Event, j: nat, k: nat)
    requires AbilityInv(s) && WorkersInRange(s) && Enabled(s, e)
    requires j < |Step(s, e).jobs| && IsAbility(Step(s, e), j) && k < |Step(s, e).jobs[j].delivered|
    ensures var d := Step(s, e).jobs[j].delivered[k];
            d.t < |Step(s, e).tunnels| && Agrees(Step(s, e).tunnels[d.t], d.r)
  {
    hide Step;
    StepDelivers(s, e, j);
    var before := s.jobs[j].delivered;
    if k < |before| {
      AgreesStays(s, e, before[k].t, before[k].r);
    } else if e.CallBack? {
      AgreesStays(s, e, s.calls[e.c].t, Result(FT_EIO, []));
    } else {
      AgreesStays(s, e, s.workers[e.w].t, s.workers[e.w].stage.r);
    }
  }

  /** In every run, whatever an ability job has delivered for a tunnel is a failure or the one
      answer that the tunnel has cached, which is not empty. */
  lemma {:induction false} AbilityAnswersAgree(states: seq<State>, es: seq<Event>, n: nat)
    requires IsRun(states, es) && n <= |es|
    ensures AbilityInv(states[n])
    decreases n
  {
    hide Inv, Step, Enabled, AbilityInv;
    if n == 0 {
      EmptyInv();
    } else {
      AbilityAnswersAgree(states, es, n - 1);
      RunIsSafe(states, es, n - 1, es[n - 1]);
      InRange(states[n - 1]);
      AbilityStep(states[n - 1], es[n - 1]);
    }
  }

  lemma InRange(s: State)
    requires Inv(s)
    ensures WorkersInRange(s)
  {
  }

  /** The worker reports `r` or has reported it. */
  ghost predicate Settles(s: State, w: nat, r: Result) {
    w < |s.workers| &&
    var me := s.workers[w];
    me.j < |s.jobs| && me.stage != Running &&
    (me.stage == Decided(r) || (!me.stage.Decided? && Delivery(me.t, r) in s.jobs[me.j].delivered))
  }

  lemma SettlesStays(s: State, e: Event, w: nat, r: Result)
    requires Enabled(s, e) && WorkersInRange(s) && Settles(s, w, r)
    ensures Settles(Step(s, e), w, r)
    ensures Step(s, e).workers[w].t == s.workers[w].t
  {
    hide Decide;
  }

  /** The decision of an ability job on a tunnel that is probed by then, be it the job that probed
      it or a later one: from then on, in every run, the job delivers the answer that the tunnel
      has cached, the same for all of them. */
  lemma {:induction false} AbilityJobsAgree(states: seq<State>, es: seq<Event>, n: nat, k: nat, t: nat)
    requires IsRun(states, es) && n < k <= |es| && es[n].Act? && t < |states[n + 1].tunnels|
    requires var me := states[n].workers[es[n].w];
             me.t == t && me.stage == Running && IsAbility(states[n], me.j)
    requires states[n + 1].tunnels[t].probed
    ensures t < |states[k].tunnels| && states[k].tunnels[t].probed
    ensures states[k].tunnels[t].cache == states[n + 1].tunnels[t].cache != []
    ensures Settles(states[k], es[n].w, Result(0, states[k].tunnels[t].cache))
    ensures states[k].workers[es[n].w].t == t
    decreases k - n
  {
    hide Inv, Step, Enabled, AbilityInv, Settles;
    RunIsSafe(states, es, k - 1, es[k - 1]);
    InRange(states[k - 1]);
    if k == n + 1 {
      DecidesCached(states[n], es[n].w, es[n].n);
      DecisionSettles(states[n], es[n].w, es[n].n);
      AbilityAnswersAgree(states, es, k);
      assert states[k].tunnels[t].cache != [] by { CachesHeld(states[k], t); }
    } else {
      AbilityJobsAgree(states, es, n, k - 1, t);
      CacheStays(states[k - 1], es[k - 1], t);
      SettlesStays(states[k - 1], es[k - 1], es[n].w, Result(0, states[k - 1].tunnels[t].cache));
    }
  }

  lemma CachesHeld(s: State, t: nat)
    requires AbilityInv(s) && t < |s.tunnels| && s.tunnels[t].probed
    ensures s.tunnels[t].cache != []
  {
  }

  lemma DecisionSettles(s: State, w: nat, n: Network)
    requires Enabled(s, Act(w, n)) && WorkersInRange(s) && s.workers[w].stage == Running && IsAbility(s, s.workers[w].j)
    requires Step(s, Act(w, n)).tunnels[s.workers[w].t].probed
    ensures Settles(Step(s, Act(w, n)), w, Result(0, Step(s, Act(w, n)).tunnels[s.workers[w].t].cache))
  {
  }

  // ---------- The objects ----------

  class FtTunnel {
    var refcount: int
    var isLan: bool
    var abilityProbed: bool
    var abilityCache: bytes
    ghost var held: nat
    ghost var destroyed: nat

    ghost function View(): Tun
      reads this
    {
      Tun(refcount, held, isLan, abilityProbed, abilityCache, destroyed)
    }

    constructor (lan: bool)
      ensures View() == Tun(1, 1, lan, false, [], 0)
    {
      refcount, isLan, abilityProbed, abilityCache, held, destroyed := 1, lan, false, [], 1, 0;
    }

    method Retain()
      modifies this
      ensures View() == RetainTun(old(View()))
    {
      refcount := refcount + 1;
    }

    method Release() returns (last: bool)
      modifies this
      ensures View() == ReleaseTun(old(View())) && last == (old(refcount) == 1)
    {
      last := refcount == 1;
      refcount := refcount - 1;
      if last { destroyed := destroyed + 1; }
    }

    /** `run_ability_job` up to the delivery; the network answers as `n` when asked. */
    method RunAbility(n: Network) returns (r: Result)
      modifies this
      ensures Decision(View(), r) == DecideAbility(old(View()), n)
    {
      var abilityJson: bytes, useCache := [], false;
      if abilityProbed {
        abilityJson, useCache := abilityCache, true;
      } else if n.Answer? {
        abilityCache, abilityProbed := n.json, true;
        abilityJson := abilityCache;
      }
      if useCache || abilityJson != [] { return Result(0, abilityJson); }
      return Result(FT_EIO, []);
    }
  }

  class FtJob {
    var refcount: int
    var cmdType: int
    var finished: bool
    var resEc: int
    var resJson: bytes
    ghost var held: nat
    ghost var started: nat
    ghost var delivered: seq<Delivery>
    ghost var destroyed: nat

    ghost function View(): Job
      reads this
    {
      Job(refcount, held, cmdType, started, delivered, finished, destroyed)
    }

    constructor (cmd: int)
      ensures View() == Job(1, 1, cmd, 0, [], false, 0)
    {
      refcount, cmdType, finished, resEc, resJson := 1, cmd, false, 0, [];
      held, started, delivered, destroyed := 1, 0, [], 0;
    }

    method Retain()
      modifies this
      ensures View() == RetainJob(old(View()))
    {
      refcount := refcount + 1;
    }

    method Release() returns (last: bool)
      modifies this
      ensures View() == ReleaseJob(old(View())) && last == (old(refcount) == 1)
    {
      last := refcount == 1;
      refcount := refcount - 1;
      if last { destroyed := destroyed + 1; }
    }

    method DeliverResult(ghost t: nat, r: Result)
      modifies this
      ensures View() == Deliver(old(View()), t, r)
      ensures resEc == r.ec && resJson == r.json
    {
      finished, resEc, resJson := true, r.ec, r.json;
      delivered := delivered + [Delivery(t, r)];
    }

    /** The first half of a start that is answered inside the call. */
    method AnswerStub(ghost t: nat)
      modifies this`delivered
      ensures View() == CallBackOf(old(View()), t)
    {
      delivered := delivered + [Delivery(t, Result(FT_EIO, []))];
    }

    /** The second half. */
    method FinishStub()
      modifies this`finished, this`resEc
      ensures View() == old(View()).(finished := true) && resEc == FT_EIO
    {
      finished, resEc := true, FT_EIO;
    }
  }
}
