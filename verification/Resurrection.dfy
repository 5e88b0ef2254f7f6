// The carrier's side of a resurrection, against whatever chain, clock, process and
// shutdown signal it meets.

module ResurrectionFlow {
  import opened Wrappers
  import opened Arithmetic

  datatype Request = Request(agentId: string, carrierId: string, executed: bool, carrierConfirmed: bool)

  datatype Readiness = Readiness(found: bool, canComplete: bool)

  datatype Restore = Restore(filesRestored: nat, totalBytes: nat)

  datatype Context = Context(requestId: string, agentId: string, carrierId: string, timeoutMs: nat, pollMs: nat)

  /** Where the shutdown signal is looked at, outside the polling loop. */
  datatype Checkpoint = BeforeDownload | BeforeSpawn | Unhealthy | BeforeComplete | BeforeHeartbeat

  /** Everything the surroundings answer; None stands for an exception.  `now(0)` is read
      before the polling loop, and round i of the loop reads `now(i + 1)`, `aborted(i)` and
      `readiness(i)`. */
  datatype Surroundings = Surroundings(
    offline: Option<bool>,
    request: Option<Request>,
    confirmed: bool,
    now: nat -> int,
    aborted: nat -> bool,
    readiness: nat -> Option<Readiness>,
    restore: Option<Restore>,
    spawn: Option<nat>,
    healthy: Option<bool>,
    completed: bool,
    heartbeat: bool,
    shutdown: Checkpoint -> bool)

  /** What the flow does to the outside, with the answer it got. */
  datatype Act =
    | OfflineChecked(answer: Option<bool>)
    | RequestRead(request: Option<Request>)
    | CarrierConfirmed(ok: bool)
    | ReadinessRead(readiness: Option<Readiness>)
    | Slept(ms: nat)
    | BackupRestored(restore: Option<Restore>)
    | AgentSpawned(spawn: Option<nat>)
    | HealthChecked(healthy: Option<bool>)
    | AgentStopped(pid: nat)
    | ResurrectionCompleted(ok: bool)
    | HeartbeatSent(ok: bool)

  /** The surroundings gave this answer.  The polls are left to WaitForReadiness. */
  predicate Answered(w: Surroundings, a: Act) {
    match a
    case OfflineChecked(answer) => answer == w.offline
    case RequestRead(request) => request == w.request
    case CarrierConfirmed(ok) => ok == w.confirmed
    case BackupRestored(restore) => restore == w.restore
    case AgentSpawned(spawn) => spawn == w.spawn
    case HealthChecked(healthy) => healthy == w.healthy
    case ResurrectionCompleted(ok) => ok == w.completed
    case HeartbeatSent(ok) => ok == w.heartbeat
    case AgentStopped(pid) => w.spawn == Some(pid)
    case ReadinessRead(_) => true
    case Slept(_) => true
  }

  predicate AllAnswered(w: Surroundings, acts: seq<Act>) {
    forall a :: a in acts ==> Answered(w, a)
  }

  datatype CarrierState = ResurrectionComplete | Failed

  datatype FlowError =
    | CallFailed | NotOffline | WrongAgent | WrongCarrier | AlreadyExecuted
    | RequestGone | ReadinessTimeout | ShuttingDown | HealthCheckFailed

  datatype Wait = Ready | GivenUp(error: FlowError) | Polling

  datatype Outcome = Outcome(state: CarrierState, filesRestored: nat, totalBytes: nat, agentPid: Option<nat>,
                             error: Option<FlowError>)

  // ----- What the record of a run must look like, said without the code -----

  predicate Targets(ctx: Context, r: Request) {
    r.agentId == ctx.agentId && r.carrierId == ctx.carrierId && !r.executed
  }

  const READY := ReadinessRead(Some(Readiness(true, true)))
  const NOT_READY := ReadinessRead(Some(Readiness(true, false)))

  /** Polls that found the request not ready, each followed by a sleep. */
  predicate Waiting(acts: seq<Act>, pollMs: nat)
    decreases |acts|
  {
    || acts == []
    || (&& |acts| >= 2 && acts[|acts| - 2] == NOT_READY && acts[|acts| - 1] == Slept(pollMs)
        && Waiting(acts[..|acts| - 2], pollMs))
  }

  /** Such polls, and then one that found it ready. */
  predicate Waited(acts: seq<Act>, pollMs: nat) {
    acts != [] && acts[|acts| - 1] == READY && Waiting(acts[..|acts| - 1], pollMs)
  }

  /** Confirming the carrier is skipped if the request says it happened before. */
  function Confirmation(r: Request): seq<Act> {
    if r.carrierConfirmed then [] else [CarrierConfirmed(true)]
  }

  /** The whole of what may come before completeResurrection. */
  ghost predicate Earned(ctx: Context, acts: seq<Act>) {
    exists r, waited, restore, pid ::
      && Targets(ctx, r) && Waited(waited, ctx.pollMs)
      && acts == [OfflineChecked(Some(true)), RequestRead(Some(r))] + Confirmation(r) + waited
                 + [BackupRestored(Some(restore)), AgentSpawned(Some(pid)), HealthChecked(Some(true))]
  }

  /** completeResurrection comes at most once, after everything else, with at most a heartbeat
      behind it. */
  ghost predicate CompletesOnlyOnceEarned(ctx: Context, acts: seq<Act>) {
    forall i :: 0 <= i < |acts| && acts[i].ResurrectionCompleted? ==>
      Earned(ctx, acts[..i]) && forall j :: i < j < |acts| ==> acts[j].HeartbeatSent? && acts[i].ok
  }

  function Polls(acts: seq<Act>): nat {
    if acts == [] then 0
    else Polls(acts[..|acts| - 1]) + if acts[|acts| - 1].ReadinessRead? then 1 else 0
  }

  // ----- Waiting for readiness -----

  /** The polling loop is left in one of the first n rounds. */
  ghost predicate LeavesWithin(ctx: Context, w: Surroundings, n: nat) {
    exists i :: 0 <= i < n && LeavesAt(ctx, w, i)
  }

  predicate LeavesAt(ctx: Context, w: Surroundings, i: nat) {
    !InTime(ctx, w, i) || w.aborted(i) || w.readiness(i) != Some(Readiness(true, false))
  }

  predicate InTime(ctx: Context, w: Surroundings, i: nat) {
    w.now(i + 1) - w.now(0) < ctx.timeoutMs
  }

  /** The round in which the loop is left. */
  ghost predicate Last(ctx: Context, w: Surroundings, i: nat) {
    LeavesAt(ctx, w, i) && !LeavesWithin(ctx, w, i)
  }

  /** In time, and not interrupted, the poll of that round says that the request is ready. */
  ghost predicate BecomesReady(ctx: Context, w: Surroundings) {
    exists i :: Last(ctx, w, i) && Decides(ctx, w, i, Ready)
  }

  ghost predicate TimesOut(ctx: Context, w: Surroundings) {
    exists i :: Last(ctx, w, i) && Decides(ctx, w, i, GivenUp(ReadinessTimeout))
  }

  ghost predicate IsInterrupted(ctx: Context, w: Surroundings) {
    exists i :: Last(ctx, w, i) && Decides(ctx, w, i, GivenUp(ShuttingDown))
  }

  /** What round i means for the loop that it ends. */
  predicate Decides(ctx: Context, w: Surroundings, i: nat, r: Wait) {
    match r
    case Ready => InTime(ctx, w, i) && !w.aborted(i) && w.readiness(i) == Some(Readiness(true, true))
    case GivenUp(ReadinessTimeout) => !InTime(ctx, w, i)
    case GivenUp(ShuttingDown) => InTime(ctx, w, i) && w.aborted(i)
    case GivenUp(CallFailed) => InTime(ctx, w, i) && !w.aborted(i) && w.readiness(i).None?
    case GivenUp(RequestGone) =>
      InTime(ctx, w, i) && !w.aborted(i) && w.readiness(i).Some? && !w.readiness(i).value.found
    case _ => false
  }

  /** Only one round is the last, and it means one thing. */
  lemma DecidedOnce(ctx: Context, w: Surroundings, i: nat, r: Wait)
    requires Last(ctx, w, i) && Decides(ctx, w, i, r)
    ensures r.Ready? <==> BecomesReady(ctx, w)
    ensures r == GivenUp(ReadinessTimeout) <==> TimesOut(ctx, w)
    ensures r == GivenUp(ShuttingDown) <==> IsInterrupted(ctx, w)
  {
    forall j: nat | Last(ctx, w, j) ensures j == i {
      assert i < j ==> LeavesWithin(ctx, w, j);
      assert j < i ==> LeavesWithin(ctx, w, i);
    }
  }

  /** Time does not run backwards, and a sleep that no shutdown cuts short takes pollMs. */
  ghost predicate ClockAdvances(ctx: Context, w: Surroundings) {
    && ctx.pollMs > 0
    && w.now(0) <= w.now(1)
    && forall i: nat {:trigger w.aborted(i + 1)} :: w.aborted(i + 1) || w.now(i + 2) >= w.now(i + 1) + ctx.pollMs
  }

  /** Unless the signal aborts, i sleeps take i poll intervals. */
  lemma {:induction false} SleepsAddUp(ctx: Context, w: Surroundings, i: nat)
    requires ClockAdvances(ctx, w) && forall k :: 0 <= k <= i ==> !w.aborted(k)
    ensures w.now(i + 1) - w.now(0) >= i * ctx.pollMs
  {
    if i > 0 {
      SleepsAddUp(ctx, w, i - 1);
      assert !w.aborted((i - 1) + 1);
      assert i * ctx.pollMs == (i - 1) * ctx.pollMs + ctx.pollMs;
    }
  }

  lemma FewerThanCeil(i: nat, timeout: nat, poll: nat)
    requires poll > 0 && i * poll < timeout
    ensures i + 1 <= CeilDiv(timeout, poll)
  {
  }

  /** With such a clock the loop is always left, whatever the chain answers. */
  lemma WaitEnds(ctx: Context, w: Surroundings)
    requires ClockAdvances(ctx, w)
    ensures LeavesWithin(ctx, w, CeilDiv(ctx.timeoutMs, ctx.pollMs) + 1)
  {
    var c := CeilDiv(ctx.timeoutMs, ctx.pollMs);
    if exists k :: 0 <= k <= c && w.aborted(k) {
      var k :| 0 <= k <= c && w.aborted(k);
      assert LeavesAt(ctx, w, k);
    } else {
      SleepsAddUp(ctx, w, c);
      assert c * ctx.pollMs >= ctx.timeoutMs;
      assert LeavesAt(ctx, w, c);
    }
  }

  lemma PollsAdd(a: seq<Act>, b: seq<Act>)
    ensures Polls(a + b) == Polls(a) + Polls(b)
  {
    if b == [] {
      assert a + b == a;
    } else {
      assert (a + b)[..|a + b| - 1] == a + b[..|b| - 1];
      PollsAdd(a, b[..|b| - 1]);
    }
  }

  /** Another round is only begun while fewer than ceil(timeout / poll) are behind. */
  lemma RoundsAreBounded(ctx: Context, w: Surroundings, round: nat)
    requires w.now(round + 1) - w.now(0) < ctx.timeoutMs
    requires !LeavesWithin(ctx, w, round) && !w.aborted(round)
    ensures ClockAdvances(ctx, w) ==> round + 1 <= CeilDiv(ctx.timeoutMs, ctx.pollMs)
  {
    if ClockAdvances(ctx, w) {
      forall k | 0 <= k < round ensures !w.aborted(k) {
        assert !LeavesAt(ctx, w, k);
      }
      SleepsAddUp(ctx, w, round);
      FewerThanCeil(round, ctx.timeoutMs, ctx.pollMs);
    }
  }

  lemma PollOnce(acts: seq<Act>, readiness: Option<Readiness>)
    ensures Polls(acts + [ReadinessRead(readiness)]) == Polls(acts) + 1
    ensures (acts + [ReadinessRead(readiness)])[..|acts|] == acts
  {
  }

  lemma WaitOnce(acts: seq<Act>, pollMs: nat)
    requires Waiting(acts, pollMs)
    ensures Waiting(acts + [NOT_READY, Slept(pollMs)], pollMs)
    ensures Polls(acts + [NOT_READY, Slept(pollMs)]) == Polls(acts) + 1
  {
    var more := acts + [NOT_READY, Slept(pollMs)];
    assert more[..|more| - 2] == acts;
    assert more[..|more| - 1] == acts + [NOT_READY];
    assert (acts + [NOT_READY])[..|acts|] == acts;
  }

  predicate Unready(a: Act) {
    a.ReadinessRead? && a != READY && a != NOT_READY
  }

  predicate GaveUp(acts: seq<Act>, pollMs: nat) {
    Waiting(acts, pollMs) || (acts != [] && Unready(acts[|acts| - 1]) && Waiting(acts[..|acts| - 1], pollMs))
  }

  /** The loop, watched for `rounds` rounds: with a clock that stands still it may go on for
      ever, polling.  On success the acts end with a poll that answered "ready"; on failure with
      sleeps, a failed poll, or one that no longer found the request. */
  method WaitForReadiness(ctx: Context, w: Surroundings, rounds: nat) returns (r: Wait, acts: seq<Act>)
    ensures r.Ready? ==> Waited(acts, ctx.pollMs)
    ensures r.GivenUp? ==> GaveUp(acts, ctx.pollMs)
    ensures r.GivenUp? ==>
      if acts == [] then r.error in {ShuttingDown, ReadinessTimeout} else Explains(ctx, w, acts[|acts| - 1], r.error)
    ensures !r.Polling? ==> exists i :: Last(ctx, w, i) && Decides(ctx, w, i, r)
    ensures r.Polling? ==> Waiting(acts, ctx.pollMs) && Polls(acts) == rounds && !LeavesWithin(ctx, w, rounds)
    ensures !r.Polling? ==> LeavesWithin(ctx, w, rounds + 1)
    ensures ClockAdvances(ctx, w) ==> Polls(acts) <= CeilDiv(ctx.timeoutMs, ctx.pollMs)
  {
    acts := [];
    var round := 0;
    while w.now(round + 1) - w.now(0) < ctx.timeoutMs
      invariant round <= rounds && !LeavesWithin(ctx, w, round)
      invariant Waiting(acts, ctx.pollMs) && Polls(acts) == round
      invariant ClockAdvances(ctx, w) ==> round <= CeilDiv(ctx.timeoutMs, ctx.pollMs)
      decreases rounds - round
    {
      if round == rounds {
        return Polling, acts;
      }
      if w.aborted(round) {
        assert Last(ctx, w, round) && Decides(ctx, w, round, GivenUp(ShuttingDown));
        return GivenUp(ShuttingDown), acts;
      }
      RoundsAreBounded(ctx, w, round);
      var readiness := w.readiness(round);
      PollOnce(acts, readiness);
      assert readiness != Some(Readiness(true, false)) ==> Last(ctx, w, round);
      if readiness.None? {
        assert Decides(ctx, w, round, GivenUp(CallFailed));
        return GivenUp(CallFailed), acts + [ReadinessRead(readiness)];
      }
      if !readiness.value.found {
        assert Decides(ctx, w, round, GivenUp(RequestGone));
        return GivenUp(RequestGone), acts + [ReadinessRead(readiness)];
      }
      if readiness.value.canComplete {
        assert Decides(ctx, w, round, Ready);
        return Ready, acts + [ReadinessRead(readiness)];
      }
      WaitOnce(acts, ctx.pollMs);
      acts := acts + [ReadinessRead(readiness), Slept(ctx.pollMs)];
      round := round + 1;
    }
    assert Last(ctx, w, round) && Decides(ctx, w, round, GivenUp(ReadinessTimeout));
    return GivenUp(ReadinessTimeout), acts;
  }

  // ----- The flow -----

  /** A pid is reported exactly for a process that was spawned and not stopped. */
  ghost predicate PidIsRunning(acts: seq<Act>, agentPid: Option<nat>) {
    forall pid: nat :: agentPid == Some(pid) <==> AgentSpawned(Some(pid)) in acts && AgentStopped(pid) !in acts
  }

  predicate OnlyPolls(acts: seq<Act>) {
    forall a :: a in acts ==> a.ReadinessRead? || a.Slept?
  }

  predicate BeforeDownloading(a: Act) {
    a.OfflineChecked? || a.RequestRead? || a.CarrierConfirmed? || a.ReadinessRead? || a.Slept?
  }

  /** Only acts that can come before the download. */
  predicate Preparing(acts: seq<Act>) {
    forall a :: a in acts ==> BeforeDownloading(a)
  }

  lemma {:induction false} WaitingOnlyPolls(acts: seq<Act>, pollMs: nat)
    requires Waiting(acts, pollMs)
    ensures OnlyPolls(acts)
    decreases |acts|
  {
    if acts != [] {
      WaitingOnlyPolls(acts[..|acts| - 2], pollMs);
      assert acts == acts[..|acts| - 2] + [acts[|acts| - 2], acts[|acts| - 1]];
    }
  }

  lemma WaitOnlyPolls(acts: seq<Act>, pollMs: nat)
    requires Waited(acts, pollMs) || GaveUp(acts, pollMs)
    ensures OnlyPolls(acts)
  {
    if Waiting(acts, pollMs) {
      WaitingOnlyPolls(acts, pollMs);
    } else {
      WaitingOnlyPolls(acts[..|acts| - 1], pollMs);
      assert acts == acts[..|acts| - 1] + [acts[|acts| - 1]];
    }
  }

  lemma {:induction false} NoPolls(acts: seq<Act>)
    requires forall a :: a in acts ==> !a.ReadinessRead?
    ensures Polls(acts) == 0
  {
    if acts != [] {
      NoPolls(acts[..|acts| - 1]);
    }
  }

  // ----- What is due, said of the surroundings alone -----

  /** The request is the carrier's to serve, and the carrier is confirmed. */
  predicate Confirms(ctx: Context, w: Surroundings) {
    && w.offline == Some(true)
    && w.request.Some? && Targets(ctx, w.request.value)
    && (w.request.value.carrierConfirmed || w.confirmed)
  }

  predicate DownloadIsDue(w: Surroundings) {
    !w.shutdown(BeforeDownload)
  }

  predicate SpawnIsDue(w: Surroundings) {
    DownloadIsDue(w) && w.restore.Some? && !w.shutdown(BeforeSpawn)
  }

  predicate CheckIsDue(w: Surroundings) {
    SpawnIsDue(w) && w.spawn.Some?
  }

  predicate CompletionIsDue(w: Surroundings) {
    CheckIsDue(w) && w.healthy == Some(true) && !w.shutdown(BeforeComplete)
  }

  predicate HeartbeatIsDue(w: Surroundings) {
    CompletionIsDue(w) && w.completed && !w.shutdown(BeforeHeartbeat)
  }

  /** Everything a completed resurrection needs. */
  ghost predicate Succeeds(ctx: Context, w: Surroundings) {
    Confirms(ctx, w) && BecomesReady(ctx, w) && CompletionIsDue(w) && w.completed
  }

  /** The first acts happen exactly when they are due. */
  predicate BeginsWhenDue(ctx: Context, w: Surroundings, acts: seq<Act>) {
    && OfflineChecked(w.offline) in acts
    && (RequestRead(w.request) in acts <==> w.offline == Some(true))
    && (CarrierConfirmed(w.confirmed) in acts <==>
          && w.offline == Some(true) && w.request.Some?
          && Targets(ctx, w.request.value) && !w.request.value.carrierConfirmed)
  }

  /** And so do the others, once the request is ready. */
  predicate GoesOnWhenDue(w: Surroundings, acts: seq<Act>, ready: bool) {
    && (BackupRestored(w.restore) in acts <==> ready && DownloadIsDue(w))
    && (AgentSpawned(w.spawn) in acts <==> ready && SpawnIsDue(w))
    && (HealthChecked(w.healthy) in acts <==> ready && CheckIsDue(w))
    && (w.spawn.Some? ==>
          (AgentStopped(w.spawn.value) in acts <==> ready && CheckIsDue(w) && w.healthy == Some(false)))
    && (ResurrectionCompleted(w.completed) in acts <==> ready && CompletionIsDue(w))
    && (HeartbeatSent(w.heartbeat) in acts <==> ready && HeartbeatIsDue(w))
  }

  /** Steps 1 to 4 went through. */
  ghost predicate Prepared(ctx: Context, acts: seq<Act>) {
    exists r, waited ::
      && Targets(ctx, r) && Waited(waited, ctx.pollMs)
      && acts == [OfflineChecked(Some(true)), RequestRead(Some(r))] + Confirmation(r) + waited
  }

  lemma PreparingCompletesNothing(acts: seq<Act>, i: nat)
    requires Preparing(acts) && i < |acts|
    ensures !acts[i].ResurrectionCompleted?
  {
    assert acts[i] in acts;
  }

  lemma WaitingGoesOn(w: Surroundings, begun: seq<Act>, waited: seq<Act>)
    requires Preparing(begun) && AllAnswered(w, begun) && OnlyPolls(waited)
    requires forall a :: a in begun ==> !a.ReadinessRead?
    ensures Preparing(begun + waited) && AllAnswered(w, begun + waited)
    ensures Polls(begun + waited) == Polls(waited)
  {
    NoPolls(begun);
    PollsAdd(begun, waited);
  }

  lemma WaitingBeginsNothing(ctx: Context, w: Surroundings, begun: seq<Act>, waited: seq<Act>)
    requires BeginsWhenDue(ctx, w, begun) && OnlyPolls(waited)
    ensures BeginsWhenDue(ctx, w, begun + waited)
  {
    forall a: Act | !a.ReadinessRead? && !a.Slept? ensures a in begun + waited <==> a in begun {
    }
  }

  /** Steps 1 to 3. */
  method Begin(ctx: Context, w: Surroundings) returns (failed: Option<FlowError>, acts: seq<Act>)
    ensures acts != [] && Preparing(acts) && AllAnswered(w, acts) && BeginsWhenDue(ctx, w, acts)
    ensures forall a :: a in acts ==> !a.ReadinessRead?
    ensures failed.None? <==> Confirms(ctx, w)
    ensures failed.None? ==>
      acts == [OfflineChecked(Some(true)), RequestRead(w.request)] + Confirmation(w.request.value)
    ensures failed.Some? ==> Explains(ctx, w, acts[|acts| - 1], failed.value)
  {
    acts := [OfflineChecked(w.offline)];
    if w.offline.None? {
      return Some(CallFailed), acts;
    }
    if !w.offline.value {
      return Some(NotOffline), acts;
    }
    acts := acts + [RequestRead(w.request)];
    if w.request.None? {
      return Some(CallFailed), acts;
    }
    var request := w.request.value;
    if request.agentId != ctx.agentId {
      return Some(WrongAgent), acts;
    }
    if request.carrierId != ctx.carrierId {
      return Some(WrongCarrier), acts;
    }
    if request.executed {
      return Some(AlreadyExecuted), acts;
    }
    if !request.carrierConfirmed {
      acts := acts + [CarrierConfirmed(w.confirmed)];
      if !w.confirmed {
        return Some(CallFailed), acts;
      }
    }
    return None, acts;
  }

  /** Steps 1 to 4, as far as they get. */
  method Prepare(ctx: Context, w: Surroundings, rounds: nat) returns (r: Wait, acts: seq<Act>)
    ensures Preparing(acts) && AllAnswered(w, acts) && BeginsWhenDue(ctx, w, acts)
    ensures r.Ready? ==> Prepared(ctx, acts) && acts[|acts| - 1] == READY
    ensures !r.Polling? ==> (r.Ready? <==> Confirms(ctx, w) && BecomesReady(ctx, w))
    ensures r.GivenUp? ==> acts != [] && Explains(ctx, w, acts[|acts| - 1], r.error)
    ensures r.Polling? ==> Polls(acts) == rounds && !LeavesWithin(ctx, w, rounds)
    ensures ClockAdvances(ctx, w) ==> Polls(acts) <= CeilDiv(ctx.timeoutMs, ctx.pollMs)
  {
    var failed: Option<FlowError>;
    failed, acts := Begin(ctx, w);
    if failed.Some? {
      NoPolls(acts);
      return GivenUp(failed.value), acts;
    }
    var waited: seq<Act>;
    r, waited := WaitForReadiness(ctx, w, rounds);
    if !r.Polling? {
      ghost var i :| Last(ctx, w, i) && Decides(ctx, w, i, r);
      DecidedOnce(ctx, w, i, r);
    }
    WaitOnlyPolls(waited, ctx.pollMs);
    WaitingGoesOn(w, acts, waited);
    WaitingBeginsNothing(ctx, w, acts, waited);
    return r, acts + waited;
  }

  /** completeResurrection succeeded if and only if the outcome says so. */
  ghost predicate ReportsTruthfully(acts: seq<Act>, o: Outcome) {
    && (o.state.ResurrectionComplete? <==> ResurrectionCompleted(true) in acts)
    && (o.state.ResurrectionComplete? <==> o.error.None?)
    && PidIsRunning(acts, o.agentPid)
    && (forall r: Restore :: BackupRestored(Some(r)) in acts ==>
          o.filesRestored == r.filesRestored && o.totalBytes == if o.error.None? then r.totalBytes else 0)
    && ((forall r: Restore :: BackupRestored(Some(r)) !in acts) ==> o.filesRestored == 0 && o.totalBytes == 0)
  }

  /** The answer to this act was an exception. */
  predicate Threw(a: Act) {
    match a
    case OfflineChecked(answer) => answer.None?
    case RequestRead(request) => request.None?
    case CarrierConfirmed(ok) => !ok
    case ReadinessRead(readiness) => readiness.None?
    case BackupRestored(restore) => restore.None?
    case AgentSpawned(spawn) => spawn.None?
    case HealthChecked(healthy) => healthy.None?
    case ResurrectionCompleted(ok) => !ok
    case _ => false
  }

  /** The daemon was shutting down where the flow looked after this act. */
  ghost predicate ShutsDownAfter(ctx: Context, w: Surroundings, last: Act) {
    match last
    case RequestRead(_) => IsInterrupted(ctx, w)
    case CarrierConfirmed(_) => IsInterrupted(ctx, w)
    case Slept(_) => IsInterrupted(ctx, w)
    case ReadinessRead(_) => w.shutdown(BeforeDownload)
    case BackupRestored(_) => w.shutdown(BeforeSpawn)
    case AgentStopped(_) => w.shutdown(Unhealthy)
    case HealthChecked(_) => w.shutdown(BeforeComplete)
    case _ => false
  }

  /** An error is explained by the last act before it, and by what the flow found then. */
  ghost predicate Explains(ctx: Context, w: Surroundings, last: Act, e: FlowError) {
    match e
    case CallFailed => Threw(last)
    case NotOffline => last == OfflineChecked(Some(false))
    case WrongAgent => last.RequestRead? && last.request.Some? && last.request.value.agentId != ctx.agentId
    case WrongCarrier =>
      && last.RequestRead? && last.request.Some?
      && last.request.value.agentId == ctx.agentId && last.request.value.carrierId != ctx.carrierId
    case AlreadyExecuted =>
      && last.RequestRead? && last.request.Some? && last.request.value.executed
      && last.request.value.agentId == ctx.agentId && last.request.value.carrierId == ctx.carrierId
    case RequestGone => last.ReadinessRead? && last.readiness.Some? && !last.readiness.value.found
    case ReadinessTimeout =>
      (last.Slept? || (!Threw(last) && (last.CarrierConfirmed? || last.RequestRead?))) && TimesOut(ctx, w)
    case HealthCheckFailed => last.AgentStopped? && !w.shutdown(Unhealthy)
    case ShuttingDown => !Threw(last) && ShutsDownAfter(ctx, w, last)
  }

  ghost predicate FailsForAReason(ctx: Context, w: Surroundings, acts: seq<Act>, error: Option<FlowError>) {
    error.Some? ==> acts != [] && Explains(ctx, w, acts[|acts| - 1], error.value)
  }

  function Failure(e: FlowError, filesRestored: nat, agentPid: Option<nat>): Outcome {
    Outcome(Failed, filesRestored, 0, agentPid, Some(e))
  }

  /** The acts of a revival that went well. */
  function Revived(restore: Restore, pid: nat): seq<Act> {
    [BackupRestored(Some(restore)), AgentSpawned(Some(pid)), HealthChecked(Some(true))]
  }

  /** Steps 5 to 7: the acts up to a passing health check, or the failure. */
  method Revive(ctx: Context, w: Surroundings) returns (failed: Option<Outcome>, acts: seq<Act>)
    ensures failed.None? ==>
      && w.restore.Some? && w.spawn.Some? && w.healthy == Some(true)
      && acts == Revived(w.restore.value, w.spawn.value)
    ensures failed.Some? ==>
      && (forall a :: a in acts ==> !BeforeDownloading(a))
      && (forall a :: a in acts ==> !a.ResurrectionCompleted? && Answered(w, a))
      && failed.value.error.Some? && ReportsTruthfully(acts, failed.value)
      && if acts == [] then failed.value.error == Some(ShuttingDown) && w.shutdown(BeforeDownload)
         else FailsForAReason(ctx, w, acts, failed.value.error)
    ensures failed.None? ==> CheckIsDue(w)
    ensures failed.Some? ==> !(CheckIsDue(w) && w.healthy == Some(true)) && GoesOnWhenDue(w, acts, true)
  {
    if w.shutdown(BeforeDownload) {
      return Some(Failure(ShuttingDown, 0, None)), [];
    }
    acts := [BackupRestored(w.restore)];
    if w.restore.None? {
      return Some(Failure(CallFailed, 0, None)), acts;
    }
    var filesRestored := w.restore.value.filesRestored;
    if w.shutdown(BeforeSpawn) {
      return Some(Failure(ShuttingDown, filesRestored, None)), acts;
    }
    acts := [BackupRestored(w.restore), AgentSpawned(w.spawn)];
    if w.spawn.None? {
      return Some(Failure(CallFailed, filesRestored, None)), acts;
    }
    var agentPid := w.spawn;
    acts := [BackupRestored(w.restore), AgentSpawned(w.spawn), HealthChecked(w.healthy)];
    if w.healthy.None? {
      return Some(Failure(CallFailed, filesRestored, agentPid)), acts;
    }
    if !w.healthy.value {
      acts := [BackupRestored(w.restore), AgentSpawned(w.spawn), HealthChecked(w.healthy),
               AgentStopped(agentPid.value)];
      agentPid := None;
      if w.shutdown(Unhealthy) {
        return Some(Failure(ShuttingDown, filesRestored, agentPid)), acts;
      }
      return Some(Failure(HealthCheckFailed, filesRestored, agentPid)), acts;
    }
    return None, acts;
  }

  /** If the second half completes, it does so as its fourth act and at most beats once after. */
  ghost predicate Finishes(acts: seq<Act>) {
    forall i :: 0 <= i < |acts| && acts[i].ResurrectionCompleted? ==>
      && (exists restore, pid ::
            acts[..i] == [BackupRestored(Some(restore)), AgentSpawned(Some(pid)), HealthChecked(Some(true))])
      && (forall j :: i < j < |acts| ==> acts[j].HeartbeatSent? && acts[i].ok)
  }

  lemma CompletingFinishes(restore: Restore, pid: nat, ok: bool, beats: seq<Act>)
    requires beats == [] || (ok && |beats| == 1 && beats[0].HeartbeatSent?)
    ensures Finishes(Revived(restore, pid) + [ResurrectionCompleted(ok)] + beats)
  {
    assert (Revived(restore, pid) + [ResurrectionCompleted(ok)] + beats)[..3] == Revived(restore, pid);
  }

  lemma CompletingReports(restore: Restore, pid: nat, ok: bool, beats: seq<Act>)
    requires beats == [] || (ok && |beats| == 1 && beats[0].HeartbeatSent?)
    ensures ReportsTruthfully(Revived(restore, pid) + [ResurrectionCompleted(ok)] + beats,
                              if ok then Outcome(ResurrectionComplete, restore.filesRestored, restore.totalBytes,
                                                 Some(pid), None)
                              else Failure(CallFailed, restore.filesRestored, Some(pid)))
  {
    var acts := Revived(restore, pid) + [ResurrectionCompleted(ok)] + beats;
    assert acts[0] in acts && acts[1] in acts && acts[3] in acts;
  }

  lemma RevivalIsAnswered(w: Surroundings, beats: seq<Act>)
    requires w.restore.Some? && w.spawn.Some? && w.healthy == Some(true)
    requires beats == [] || beats == [HeartbeatSent(w.heartbeat)]
    ensures var revived := Revived(w.restore.value, w.spawn.value);
            AllAnswered(w, revived) && AllAnswered(w, revived + [ResurrectionCompleted(w.completed)] + beats)
  {
  }

  lemma CompletingIsDue(w: Surroundings, beats: seq<Act>)
    requires CompletionIsDue(w)
    requires beats == if HeartbeatIsDue(w) then [HeartbeatSent(w.heartbeat)] else []
    ensures var revived := Revived(w.restore.value, w.spawn.value);
            GoesOnWhenDue(w, revived + [ResurrectionCompleted(w.completed)] + beats, true)
  {
    var acts := Revived(w.restore.value, w.spawn.value) + [ResurrectionCompleted(w.completed)] + beats;
    assert acts[0] in acts && acts[1] in acts && acts[2] in acts && acts[3] in acts;
    assert HeartbeatIsDue(w) ==> acts[4] in acts;
  }

  lemma StoppingShortIsDue(w: Surroundings)
    requires CheckIsDue(w) && w.healthy == Some(true) && w.shutdown(BeforeComplete)
    ensures GoesOnWhenDue(w, Revived(w.restore.value, w.spawn.value), true)
  {
    var acts := Revived(w.restore.value, w.spawn.value);
    assert acts[0] in acts && acts[1] in acts && acts[2] in acts;
  }

  lemma RevivedReports(restore: Restore, pid: nat)
    ensures ReportsTruthfully(Revived(restore, pid), Failure(ShuttingDown, restore.filesRestored, Some(pid)))
    ensures Finishes(Revived(restore, pid))
  {
    var acts := Revived(restore, pid);
    assert acts[0] in acts && acts[1] in acts;
  }

  /** What the second half owes, once the request is ready. */
  ghost predicate EndsRight(ctx: Context, w: Surroundings, acts: seq<Act>, o: Outcome) {
    && (forall a :: a in acts ==> !BeforeDownloading(a))
    && Finishes(acts) && AllAnswered(w, acts) && GoesOnWhenDue(w, acts, true)
    && ReportsTruthfully(acts, o)
    && (o.state.ResurrectionComplete? <==> CompletionIsDue(w) && w.completed)
    && (if acts == [] then o.error == Some(ShuttingDown) && w.shutdown(BeforeDownload)
        else FailsForAReason(ctx, w, acts, o.error))
  }

  lemma StoppingShortIsRight(ctx: Context, w: Surroundings)
    requires CheckIsDue(w) && w.healthy == Some(true) && w.shutdown(BeforeComplete)
    ensures EndsRight(ctx, w, Revived(w.restore.value, w.spawn.value),
                      Failure(ShuttingDown, w.restore.value.filesRestored, w.spawn))
  {
    RevivalIsAnswered(w, []);
    RevivedReports(w.restore.value, w.spawn.value);
    StoppingShortIsDue(w);
  }

  lemma CompletingExplains(ctx: Context, w: Surroundings, beats: seq<Act>)
    requires CompletionIsDue(w)
    requires beats == [] || (w.completed && beats == [HeartbeatSent(w.heartbeat)])
    ensures var acts := Revived(w.restore.value, w.spawn.value) + [ResurrectionCompleted(w.completed)] + beats;
            && (forall a :: a in acts ==> !BeforeDownloading(a))
            && (!w.completed ==> FailsForAReason(ctx, w, acts, Some(CallFailed)))
  {
  }

  lemma CompletingIsRight(ctx: Context, w: Surroundings, beats: seq<Act>)
    requires CompletionIsDue(w)
    requires beats == if HeartbeatIsDue(w) then [HeartbeatSent(w.heartbeat)] else []
    ensures var restore, pid := w.restore.value, w.spawn.value;
            EndsRight(ctx, w, Revived(restore, pid) + [ResurrectionCompleted(w.completed)] + beats,
                      if w.completed then Outcome(ResurrectionComplete, restore.filesRestored, restore.totalBytes,
                                                  w.spawn, None)
                      else Failure(CallFailed, restore.filesRestored, w.spawn))
  {
    RevivalIsAnswered(w, beats);
    CompletingFinishes(w.restore.value, w.spawn.value, w.completed, beats);
    CompletingReports(w.restore.value, w.spawn.value, w.completed, beats);
    CompletingIsDue(w, beats);
    CompletingExplains(ctx, w, beats);
  }

  /** Steps 5 to 9. */
  method Resurrect(ctx: Context, w: Surroundings) returns (o: Outcome, acts: seq<Act>)
    ensures EndsRight(ctx, w, acts, o)
  {
    var failed: Option<Outcome>;
    failed, acts := Revive(ctx, w);
    if failed.Some? {
      assert forall i :: 0 <= i < |acts| ==> acts[i] in acts;
      return failed.value, acts;
    }
    var restore, pid := w.restore.value, w.spawn.value;
    if w.shutdown(BeforeComplete) {
      StoppingShortIsRight(ctx, w);
      return Failure(ShuttingDown, restore.filesRestored, w.spawn), acts;
    }
    acts := acts + [ResurrectionCompleted(w.completed)];
    var beats := if w.completed && !w.shutdown(BeforeHeartbeat) then [HeartbeatSent(w.heartbeat)] else [];
    CompletingIsRight(ctx, w, beats);
    if !w.completed {
      assert acts + beats == acts;
      return Failure(CallFailed, restore.filesRestored, w.spawn), acts;
    }
    return Outcome(ResurrectionComplete, restore.filesRestored, restore.totalBytes, w.spawn, None), acts + beats;
  }

  /** What happened before the download does not bear on the outcome. */
  lemma PreparationReportsNothing(prepared: seq<Act>, rest: seq<Act>, o: Outcome)
    requires Preparing(prepared) && ReportsTruthfully(rest, o)
    ensures ReportsTruthfully(prepared + rest, o)
  {
    forall a: Act | !BeforeDownloading(a)
      ensures a in prepared + rest <==> a in rest
    {
    }
  }

  lemma PreparingStops(prepared: seq<Act>, rest: seq<Act>, i: nat)
    requires Preparing(prepared) && i < |prepared + rest| && (prepared + rest)[i].ResurrectionCompleted?
    ensures |prepared| <= i && rest[i - |prepared|] == (prepared + rest)[i]
  {
    if i < |prepared| {
      PreparingCompletesNothing(prepared, i);
    }
  }

  lemma EarnedBeforeCompleting(ctx: Context, prepared: seq<Act>, rest: seq<Act>)
    requires Preparing(prepared) && Finishes(rest)
    requires Prepared(ctx, prepared)
    ensures CompletesOnlyOnceEarned(ctx, prepared + rest)
  {
    var acts := prepared + rest;
    forall i | 0 <= i < |acts| && acts[i].ResurrectionCompleted?
      ensures Earned(ctx, acts[..i]) && forall j :: i < j < |acts| ==> acts[j].HeartbeatSent? && acts[i].ok
    {
      PreparingStops(prepared, rest, i);
      var k := i - |prepared|;
      assert rest[k].ResurrectionCompleted?;
      var restore, pid :|
        rest[..k] == [BackupRestored(Some(restore)), AgentSpawned(Some(pid)), HealthChecked(Some(true))];
      assert acts[..i] == prepared + rest[..k];
      forall j | i < j < |acts| ensures acts[j].HeartbeatSent? && acts[i].ok {
        assert acts[j] == rest[j - |prepared|];
      }
    }
  }

  lemma UnpreparedIsRight(ctx: Context, w: Surroundings, acts: seq<Act>)
    requires Preparing(acts)
    ensures CompletesOnlyOnceEarned(ctx, acts) && GoesOnWhenDue(w, acts, false)
    ensures forall e: FlowError :: ReportsTruthfully(acts, Failure(e, 0, None))
  {
    forall i: nat | i < |acts| ensures !acts[i].ResurrectionCompleted? {
      PreparingCompletesNothing(acts, i);
    }
  }

  lemma WholeGoesOnWhenDue(ctx: Context, w: Surroundings, prepared: seq<Act>, rest: seq<Act>)
    requires Preparing(prepared) && AllAnswered(w, prepared) && BeginsWhenDue(ctx, w, prepared)
    requires AllAnswered(w, rest) && GoesOnWhenDue(w, rest, true)
    requires forall a :: a in rest ==> !BeforeDownloading(a)
    ensures AllAnswered(w, prepared + rest)
    ensures BeginsWhenDue(ctx, w, prepared + rest) && GoesOnWhenDue(w, prepared + rest, true)
  {
  }

  lemma WholeIsRight(ctx: Context, w: Surroundings, prepared: seq<Act>, rest: seq<Act>, o: Outcome)
    requires Preparing(prepared) && AllAnswered(w, prepared) && BeginsWhenDue(ctx, w, prepared)
    requires Prepared(ctx, prepared) && prepared[|prepared| - 1] == READY
    requires EndsRight(ctx, w, rest, o)
    ensures var acts := prepared + rest;
            && CompletesOnlyOnceEarned(ctx, acts) && AllAnswered(w, acts)
            && ReportsTruthfully(acts, o) && FailsForAReason(ctx, w, acts, o.error)
            && BeginsWhenDue(ctx, w, acts) && GoesOnWhenDue(w, acts, true)
  {
    WholeGoesOnWhenDue(ctx, w, prepared, rest);
    EarnedBeforeCompleting(ctx, prepared, rest);
    PreparationReportsNothing(prepared, rest, o);
  }

  /** For every behaviour of the surroundings, watched for any number of polling rounds; there
      is an outcome unless the flow is still polling then. */
  method ExecuteResurrectionFlow(ctx: Context, w: Surroundings, rounds: nat)
    returns (o: Option<Outcome>, acts: seq<Act>)
    ensures CompletesOnlyOnceEarned(ctx, acts) && AllAnswered(w, acts)
    ensures o.Some? ==> ReportsTruthfully(acts, o.value) && FailsForAReason(ctx, w, acts, o.value.error)
    ensures o.Some? ==> (o.value.state.ResurrectionComplete? <==> Succeeds(ctx, w))
    ensures BeginsWhenDue(ctx, w, acts)
    ensures GoesOnWhenDue(w, acts, o.Some? && Confirms(ctx, w) && BecomesReady(ctx, w))
    ensures o.None? ==> Preparing(acts) && Polls(acts) == rounds && !LeavesWithin(ctx, w, rounds)
    ensures ClockAdvances(ctx, w) ==> Polls(acts) <= CeilDiv(ctx.timeoutMs, ctx.pollMs)
    ensures ClockAdvances(ctx, w) && rounds > CeilDiv(ctx.timeoutMs, ctx.pollMs) ==> o.Some?
  {
    var ready, prepared := Prepare(ctx, w, rounds);
    if !ready.Ready? {
      UnpreparedIsRight(ctx, w, prepared);
      return if ready.GivenUp? then Some(Failure(ready.error, 0, None)) else None, prepared;
    }
    var rest: seq<Act>;
    var outcome: Outcome;
    outcome, rest := Resurrect(ctx, w);
    PollsAdd(prepared, rest);
    NoPolls(rest);
    WholeIsRight(ctx, w, prepared, rest, outcome);
    return Some(outcome), prepared + rest;
  }

  /** What ExecuteResurrectionFlow ensures, for a flow that completed: the recovery went through,
      and its counts are the ones reported. */
  lemma CompletionReportsRestore(ctx: Context, w: Surroundings, acts: seq<Act>, o: Outcome)
    requires CompletesOnlyOnceEarned(ctx, acts) && AllAnswered(w, acts) && ReportsTruthfully(acts, o)
    requires o.state.ResurrectionComplete?
    ensures w.restore == Some(Restore(o.filesRestored, o.totalBytes))
  {
    var i :| 0 <= i < |acts| && acts[i] == ResurrectionCompleted(true);
    assert Earned(ctx, acts[..i]);
    var r, waited, restore, pid :|
      && Targets(ctx, r) && Waited(waited, ctx.pollMs)
      && acts[..i] == [OfflineChecked(Some(true)), RequestRead(Some(r))] + Confirmation(r) + waited
                      + [BackupRestored(Some(restore)), AgentSpawned(Some(pid)), HealthChecked(Some(true))];
    assert acts[..i][i - 3] == BackupRestored(Some(restore));
    assert acts[i - 3] in acts;
  }
}
