// The carrier daemon that runs resurrections.

module CarrierDaemons {
  datatype Record = Record(requestId: string, agentId: string, complete: bool, startedAt: int, completedAt: int,
                           filesRestored: nat)

  datatype AddRequestResult = Accepted | NotRunning | ConcurrencyLimit | AlreadyProcessing

  datatype Pending = Pending(requestId: string, agentId: string)

  const HISTORY_LIMIT := 100

  function Key(requestId: string, agentId: string): string {
    agentId + ":" + requestId
  }

  /** activeResurrections maps a key to the flow that was started under it; flows are
      numbered in the order they start, shutdown controllers in the order they are made. */
  datatype Fields = Fields(running: bool, active: map<string, nat>, history: seq<Record>, nextFlow: nat,
                           controller: nat, aborted: set<nat>)

  const STOPPED := Fields(false, map[], [], 0, 0, {})

  /** start, before it adds the pending requests. */
  function Opened(m: Fields): Fields {
    m.(running := true, controller := m.controller + 1)
  }

  /** stop, up to its wait for the active flows. */
  function Closed(m: Fields): Fields {
    if m.running then m.(running := false, aborted := m.aborted + {m.controller}) else m
  }

  function Answer(m: Fields, max: int, requestId: string, agentId: string): AddRequestResult {
    if !m.running then NotRunning
    else if Key(requestId, agentId) in m.active then AlreadyProcessing
    else if |m.active| >= max then ConcurrencyLimit
    else Accepted
  }

  function AfterAdd(m: Fields, max: int, requestId: string, agentId: string): Fields {
    if Answer(m, max, requestId, agentId) == Accepted
    then m.(active := m.active[Key(requestId, agentId) := m.nextFlow], nextFlow := m.nextFlow + 1)
    else m
  }

  function AfterAddAll(m: Fields, max: int, pending: seq<Pending>): Fields {
    if pending == [] then m
    else
      var last := pending[|pending| - 1];
      AfterAdd(AfterAddAll(m, max, pending[..|pending| - 1]), max, last.requestId, last.agentId)
  }

  function LastOf(s: seq<Record>, n: nat): seq<Record> {
    if |s| <= n then s else s[|s| - n..]
  }

  class CarrierDaemon {
    const maxConcurrent: int
    const pendingRequestIds: seq<Pending>
    var running: bool
    var active: map<string, nat>
    var history: seq<Record>
    var nextFlow: nat
    var controller: nat
    var aborted: set<nat>

    ghost function View(): Fields
      reads this
    {
      Fields(running, active, history, nextFlow, controller, aborted)
    }

    constructor (maxConcurrent: int, pendingRequestIds: seq<Pending>)
      ensures View() == STOPPED
      ensures this.maxConcurrent == maxConcurrent && this.pendingRequestIds == pendingRequestIds
    {
      this.maxConcurrent, this.pendingRequestIds := maxConcurrent, pendingRequestIds;
      running, active, history, nextFlow := false, map[], [], 0;
      controller, aborted := 0, {};
    }

    method Start()
      modifies this
      ensures View() == if old(running) then old(View())
                        else AfterAddAll(Opened(old(View())), maxConcurrent, pendingRequestIds)
    {
      if running {
        return;
      }
      running := true;
      controller := controller + 1;
      for i := 0 to |pendingRequestIds|
        invariant View() == AfterAddAll(Opened(old(View())), maxConcurrent, pendingRequestIds[..i])
      {
        assert pendingRequestIds[..i + 1][..i] == pendingRequestIds[..i];
        var _ := AddRequest(pendingRequestIds[i].requestId, pendingRequestIds[i].agentId);
      }
      assert pendingRequestIds[..|pendingRequestIds|] == pendingRequestIds;
    }

    method Stop()
      modifies this
      ensures View() == Closed(old(View()))
    {
      if !running {
        return;
      }
      running := false;
      aborted := aborted + {controller};
    }

    method AddRequest(requestId: string, agentId: string) returns (r: AddRequestResult)
      modifies this
      ensures r == Answer(old(View()), maxConcurrent, requestId, agentId)
      ensures View() == AfterAdd(old(View()), maxConcurrent, requestId, agentId)
    {
      if !running {
        return NotRunning;
      }
      var key := Key(requestId, agentId);
      if key in active {
        return AlreadyProcessing;
      }
      if |active| >= maxConcurrent {
        return ConcurrencyLimit;
      }
      active := active[key := nextFlow];
      nextFlow := nextFlow + 1;
      return Accepted;
    }

    /** _executeRequest, once the flow has returned. */
    method RecordResult(record: Record)
      modifies this`history
      ensures View() == old(View()).(history := LastOf(old(history) + [record], HISTORY_LIMIT))
    {
      history := history + [record];
      ghost var all, dropped := history, 0;
      while |history| > HISTORY_LIMIT
        invariant 0 <= dropped <= |all| && history == all[dropped..]
        invariant dropped > 0 ==> |history| >= HISTORY_LIMIT
      {
        assert all[dropped..][1..] == all[dropped + 1..];
        history := history[1..];
        dropped := dropped + 1;
      }
      assert history == LastOf(all, HISTORY_LIMIT);
    }

    /** The finally callback of a flow. */
    method Forget(key: string)
      modifies this
      ensures View() == old(View()).(active := old(active) - {key})
    {
      active := active - {key};
    }
  }

  // ----- Runs -----

  /** A flow first makes its working directory; only then does it look up the shutdown signal
      that it obeys.  Its promise is rejected when the directory cannot be made, and resolved
      otherwise; the flow is gone once its finally callback has run. */
  datatype Phase = Preparing | Working(controller: nat) | Resolved | Rejected

  datatype Flow = Flow(requestId: string, agentId: string, phase: Phase) {
    function Under(): string {
      Key(requestId, agentId)
    }
  }

  /** `flows` holds every accepted flow that is not gone, `finished` every record ever pushed. */
  datatype State = State(fields: Fields, flows: map<nat, Flow>, finished: seq<Record>)

  datatype Event =
    | Started
    | Stopped
    | Requested(requestId: string, agentId: string)
    | DirectoryMade(flow: nat)
    | Finished(flow: nat, complete: bool, startedAt: int, completedAt: int, filesRestored: nat)
    | SetupFailed(flow: nat)
    | Finalized(flow: nat)

  datatype Config = Config(maxConcurrent: int, pending: seq<Pending>)

  const INIT := State(STOPPED, map[], [])

  predicate Enabled(s: State, ev: Event) {
    match ev
    case DirectoryMade(f) => f in s.flows && s.flows[f].phase.Preparing?
    case SetupFailed(f) => f in s.flows && s.flows[f].phase.Preparing?
    case Finished(f, _, _, _, _) => f in s.flows && s.flows[f].phase.Working?
    case Finalized(f) => f in s.flows && (s.flows[f].phase.Resolved? || s.flows[f].phase.Rejected?)
    case _ => true
  }

  function Request(s: State, max: int, requestId: string, agentId: string): State {
    if Answer(s.fields, max, requestId, agentId) == Accepted
    then s.(fields := AfterAdd(s.fields, max, requestId, agentId),
            flows := s.flows[s.fields.nextFlow := Flow(requestId, agentId, Preparing)])
    else s
  }

  function RequestAll(s: State, max: int, pending: seq<Pending>): State {
    if pending == [] then s
    else
      var last := pending[|pending| - 1];
      Request(RequestAll(s, max, pending[..|pending| - 1]), max, last.requestId, last.agentId)
  }

  /** A new process; numbers are not used again. */
  function Restarted(s: State): State {
    INIT.(fields := STOPPED.(nextFlow := s.fields.nextFlow, controller := s.fields.controller + 1,
                             aborted := s.fields.aborted))
  }

  /** The promise that `finally` returns has no handler, so a rejection that passes through it
      ends the process. */
  function Next(cfg: Config, s: State, ev: Event): State
    requires Enabled(s, ev)
  {
    match ev
    case Started =>
      if s.fields.running then s
      else RequestAll(s.(fields := Opened(s.fields)), cfg.maxConcurrent, cfg.pending)
    case Stopped => s.(fields := Closed(s.fields))
    case Requested(requestId, agentId) => Request(s, cfg.maxConcurrent, requestId, agentId)
    case DirectoryMade(f) => s.(flows := s.flows[f := s.flows[f].(phase := Working(s.fields.controller))])
    case Finished(f, complete, startedAt, completedAt, filesRestored) =>
      var record := Record(s.flows[f].requestId, s.flows[f].agentId, complete, startedAt, completedAt, filesRestored);
      s.(fields := s.fields.(history := LastOf(s.fields.history + [record], HISTORY_LIMIT)),
         flows := s.flows[f := s.flows[f].(phase := Resolved)],
         finished := s.finished + [record])
    case SetupFailed(f) => s.(flows := s.flows[f := s.flows[f].(phase := Rejected)])
    case Finalized(f) =>
      if s.flows[f].phase.Rejected? then Restarted(s)
      else s.(fields := s.fields.(active := s.fields.active - {s.flows[f].Under()}), flows := s.flows - {f})
  }

  ghost predicate Runs(cfg: Config, s: State, evs: seq<Event>)
    decreases |evs|
  {
    evs == [] || (Enabled(s, evs[0]) && Runs(cfg, Next(cfg, s, evs[0]), evs[1..]))
  }

  ghost function After(cfg: Config, s: State, evs: seq<Event>): State
    requires Runs(cfg, s, evs)
    decreases |evs|
  {
    if evs == [] then s else After(cfg, Next(cfg, s, evs[0]), evs[1..])
  }

  /** The table of active flows is exact: every key leads to the one flow that runs under it. */
  ghost predicate Exact(s: State) {
    && (forall k :: k in s.fields.active ==> s.fields.active[k] in s.flows && s.flows[s.fields.active[k]].Under() == k)
    && (forall f :: f in s.flows ==> s.flows[f].Under() in s.fields.active && s.fields.active[s.flows[f].Under()] == f)
    && (forall f :: f in s.flows ==> f < s.fields.nextFlow)
  }

  ghost predicate Inv(cfg: Config, s: State) {
    && Exact(s)
    && |s.fields.active| <= (if cfg.maxConcurrent < 0 then 0 else cfg.maxConcurrent)
    && s.fields.history == LastOf(s.finished, HISTORY_LIMIT)
  }

  lemma RequestKeepsInv(cfg: Config, s: State, requestId: string, agentId: string)
    requires Inv(cfg, s)
    ensures Inv(cfg, Request(s, cfg.maxConcurrent, requestId, agentId))
  {
    var t := Request(s, cfg.maxConcurrent, requestId, agentId);
    if t != s {
      assert t.flows[s.fields.nextFlow].Under() == Key(requestId, agentId);
      forall f | f in t.flows
        ensures t.flows[f].Under() in t.fields.active && t.fields.active[t.flows[f].Under()] == f
      {
        if f != s.fields.nextFlow {
          assert s.flows[f].Under() in s.fields.active;
        }
      }
    }
  }

  lemma {:induction false} RequestAllKeepsInv(cfg: Config, s: State, pending: seq<Pending>)
    requires Inv(cfg, s)
    ensures Inv(cfg, RequestAll(s, cfg.maxConcurrent, pending))
  {
    if pending != [] {
      var last := pending[|pending| - 1];
      RequestAllKeepsInv(cfg, s, pending[..|pending| - 1]);
      RequestKeepsInv(cfg, RequestAll(s, cfg.maxConcurrent, pending[..|pending| - 1]), last.requestId, last.agentId);
    }
  }

  lemma StepKeepsInv(cfg: Config, s: State, ev: Event)
    requires Inv(cfg, s) && Enabled(s, ev)
    ensures Inv(cfg, Next(cfg, s, ev))
  {
    match ev
    case Started =>
      if !s.fields.running {
        RequestAllKeepsInv(cfg, s.(fields := Opened(s.fields)), cfg.pending);
      }
    case Stopped =>
    case Requested(requestId, agentId) => RequestKeepsInv(cfg, s, requestId, agentId);
    case DirectoryMade(f) => SettlingKeepsExact(s, f, Next(cfg, s, ev));
    case Finished(f, complete, startedAt, completedAt, filesRestored) =>
      var flow := s.flows[f];
      SettlingKeepsExact(s, f, Next(cfg, s, ev));
    case SetupFailed(f) => SettlingKeepsExact(s, f, Next(cfg, s, ev));
    case Finalized(f) =>
  }

  lemma SettlingKeepsExact(s: State, f: nat, t: State)
    requires Exact(s) && f in s.flows && f in t.flows && t.flows == s.flows[f := s.flows[f].(phase := t.flows[f].phase)]
    requires t.fields.active == s.fields.active && t.fields.nextFlow == s.fields.nextFlow
    ensures Exact(t)
  {
  }

  lemma {:induction false} RunKeepsInv(cfg: Config, s: State, evs: seq<Event>)
    requires Inv(cfg, s) && Runs(cfg, s, evs)
    ensures Inv(cfg, After(cfg, s, evs))
    decreases |evs|
  {
    if evs != [] {
      StepKeepsInv(cfg, s, evs[0]);
      RunKeepsInv(cfg, Next(cfg, s, evs[0]), evs[1..]);
    }
  }

  /** Over any interleaving of starts, stops, requests, results, failures and late finally
      callbacks: the active flows respect the limit, are exactly the ones not yet forgotten,
      no two under one key, and the history is the last hundred results in order. */
  lemma DaemonStaysExact(cfg: Config, evs: seq<Event>)
    requires Runs(cfg, INIT, evs)
    ensures var s := After(cfg, INIT, evs);
            && Inv(cfg, s)
            && (forall f, g :: f in s.flows && g in s.flows && s.flows[f].Under() == s.flows[g].Under() ==> f == g)
  {
    RunKeepsInv(cfg, INIT, evs);
    var s := After(cfg, INIT, evs);
    forall f, g | f in s.flows && g in s.flows && s.flows[f].Under() == s.flows[g].Under() ensures f == g {
      assert s.fields.active[s.flows[f].Under()] == f;
    }
  }

  /** What a finished flow leaves in the history: one record of its own, as the last one; and with
      more than a hundred the oldest is gone. */
  lemma FinishedIsRecorded(cfg: Config, evs: seq<Event>, f: nat, complete: bool, startedAt: int, completedAt: int,
                           filesRestored: nat)
    requires Runs(cfg, INIT, evs)
    requires Enabled(After(cfg, INIT, evs), Finished(f, complete, startedAt, completedAt, filesRestored))
    ensures var s := After(cfg, INIT, evs);
            var t := Next(cfg, s, Finished(f, complete, startedAt, completedAt, filesRestored));
            var flow, before := s.flows[f], s.fields.history;
            var kept := if |before| < 100 then before else before[1..];
            && |before| <= 100
            && t.fields.history == kept + [Record(flow.requestId, flow.agentId, complete, startedAt, completedAt,
                                                  filesRestored)]
            && t.flows[f].phase == Resolved && t.flows.Keys == s.flows.Keys
            && t.fields.active == s.fields.active && t.fields.running == s.fields.running
  {
    RunKeepsInv(cfg, INIT, evs);
  }

  /** A finished flow takes its own entry out, and no other's, even though it deletes by key.  (The
      case of a rejected flow repeats what Next assumes of a rejection without a handler.) */
  lemma CompletionRemovesOnlyItsOwn(cfg: Config, evs: seq<Event>, f: nat)
    requires Runs(cfg, INIT, evs) && Enabled(After(cfg, INIT, evs), Finalized(f))
    ensures var s := After(cfg, INIT, evs);
            var t := Next(cfg, s, Finalized(f));
            if s.flows[f].phase.Rejected? then t == Restarted(s)
            else
              && (forall k :: k in s.fields.active && s.fields.active[k] != f ==>
                    k in t.fields.active && t.fields.active[k] == s.fields.active[k])
              && (forall k :: k in t.fields.active ==> t.fields.active[k] != f)
              && |t.fields.active| == |s.fields.active| - 1
  {
    RunKeepsInv(cfg, INIT, evs);
  }

  predicate KeyIsLive(s: State, key: string) {
    exists f :: f in s.flows && s.flows[f].Under() == key
  }

  /** The limit never starves: with a free place, a new key is accepted while running. */
  lemma FreePlaceIsGiven(cfg: Config, evs: seq<Event>, requestId: string, agentId: string)
    requires Runs(cfg, INIT, evs)
    ensures var s := After(cfg, INIT, evs);
            (Answer(s.fields, cfg.maxConcurrent, requestId, agentId) == Accepted
             <==> s.fields.running && |s.flows| < cfg.maxConcurrent && !KeyIsLive(s, Key(requestId, agentId)))
  {
    RunKeepsInv(cfg, INIT, evs);
    SameCount(After(cfg, INIT, evs));
  }

  lemma {:induction false} RequestAllIsAddAll(s: State, max: int, pending: seq<Pending>)
    ensures RequestAll(s, max, pending).fields == AfterAddAll(s.fields, max, pending)
  {
    if pending != [] {
      RequestAllIsAddAll(s, max, pending[..|pending| - 1]);
    }
  }

  /** What a step does to the fields is what the method of the class does. */
  lemma StepsAreMethods(cfg: Config, s: State, ev: Event)
    requires Enabled(s, ev)
    ensures var m, m' := s.fields, Next(cfg, s, ev).fields;
            match ev
            case Started => m' == if m.running then m else AfterAddAll(Opened(m), cfg.maxConcurrent, cfg.pending)
            case Stopped => m' == Closed(m)
            case Requested(requestId, agentId) => m' == AfterAdd(m, cfg.maxConcurrent, requestId, agentId)
            case Finished(_, _, _, _, _) => m'.active == m.active && m' == m.(history := m'.history)
            case Finalized(f) =>
              s.flows[f].phase.Resolved? ==>
                m' == m.(active := m.active - {Key(s.flows[f].requestId, s.flows[f].agentId)})
            case _ => m' == m
  {
    if ev.Started? && !s.fields.running {
      RequestAllIsAddAll(s.(fields := Opened(s.fields)), cfg.maxConcurrent, cfg.pending);
    }
  }

  /** Which refusal is given when. */
  lemma RefusalsAreExact(cfg: Config, evs: seq<Event>, requestId: string, agentId: string)
    requires Runs(cfg, INIT, evs)
    ensures var s := After(cfg, INIT, evs);
            var answer := Answer(s.fields, cfg.maxConcurrent, requestId, agentId);
            && (answer == NotRunning <==> !s.fields.running)
            && (answer == AlreadyProcessing <==> s.fields.running && KeyIsLive(s, Key(requestId, agentId)))
            && (answer == ConcurrencyLimit <==>
                  s.fields.running && !KeyIsLive(s, Key(requestId, agentId)) && |s.flows| >= cfg.maxConcurrent)
  {
    RunKeepsInv(cfg, INIT, evs);
    SameCount(After(cfg, INIT, evs));
  }

  /** A flow that began while the pending pairs were added. */
  predicate Begins(s: State, t: State, f: nat) {
    f in t.flows && f !in s.flows
  }

  /** From `s` to `t`, the pairs in turn found their flow running, or were given one, or found no
      place; and a pair was given one only if all pairs before it have theirs. */
  ghost predicate Served(s: State, t: State, max: int, pending: seq<Pending>) {
    && (forall f :: f in s.flows ==> f in t.flows && t.flows[f] == s.flows[f])
    && (forall p :: p in pending ==> KeyIsLive(t, Key(p.requestId, p.agentId)) || |t.flows| >= max)
    && (forall f :: Begins(s, t, f) ==> exists i :: GivenAt(t, f, pending, i))
  }

  ghost predicate AllLive(t: State, pending: seq<Pending>) {
    forall p :: p in pending ==> KeyIsLive(t, Key(p.requestId, p.agentId))
  }

  lemma LiveStays(t: State, u: State)
    requires forall f :: f in t.flows ==> f in u.flows && u.flows[f] == t.flows[f]
    ensures forall key :: KeyIsLive(t, key) ==> KeyIsLive(u, key)
    ensures forall pending :: AllLive(t, pending) ==> AllLive(u, pending)
  {
    forall key | KeyIsLive(t, key) ensures KeyIsLive(u, key) {
      var f :| f in t.flows && t.flows[f].Under() == key;
      assert f in u.flows && u.flows[f] == t.flows[f];
    }
  }

  /** The pair at position i, whose predecessors have their flows, was given this one. */
  ghost predicate GivenAt(t: State, f: nat, pending: seq<Pending>, i: nat) {
    && i < |pending| && f in t.flows
    && t.flows[f] == Flow(pending[i].requestId, pending[i].agentId, Preparing) && AllLive(t, pending[..i])
  }

  lemma GivenStays(t: State, u: State, f: nat, pending: seq<Pending>, last: Pending, i: nat)
    requires forall g :: g in t.flows ==> g in u.flows && u.flows[g] == t.flows[g]
    requires GivenAt(t, f, pending, i)
    ensures GivenAt(u, f, pending + [last], i)
  {
    LiveStays(t, u);
    assert (pending + [last])[i] == pending[i] && (pending + [last])[..i] == pending[..i];
  }

  /** What one more request adds. */
  lemma RequestGives(cfg: Config, t: State, last: Pending)
    requires Inv(cfg, t) && t.fields.running
    ensures var u := Request(t, cfg.maxConcurrent, last.requestId, last.agentId);
            && (forall f :: f in t.flows ==> f in u.flows && u.flows[f] == t.flows[f])
            && (KeyIsLive(u, Key(last.requestId, last.agentId)) || |u.flows| >= cfg.maxConcurrent)
            && (u != t ==>
                  && |t.flows| < cfg.maxConcurrent
                  && (forall f :: f in u.flows && f !in t.flows ==> f == t.fields.nextFlow)
                  && t.fields.nextFlow in u.flows
                  && u.flows[t.fields.nextFlow] == Flow(last.requestId, last.agentId, Preparing))
  {
    SameCount(t);
    var u := Request(t, cfg.maxConcurrent, last.requestId, last.agentId);
    if u != t {
      assert u.flows[t.fields.nextFlow].Under() == Key(last.requestId, last.agentId);
    } else if Key(last.requestId, last.agentId) in t.fields.active {
      var f := t.fields.active[Key(last.requestId, last.agentId)];
      assert f in t.flows && t.flows[f].Under() == Key(last.requestId, last.agentId);
    }
  }

  lemma OneMoreServed(cfg: Config, s: State, t: State, pending: seq<Pending>, last: Pending)
    requires Inv(cfg, t) && t.fields.running && Served(s, t, cfg.maxConcurrent, pending)
    ensures Served(s, Request(t, cfg.maxConcurrent, last.requestId, last.agentId), cfg.maxConcurrent, pending + [last])
  {
    var u := Request(t, cfg.maxConcurrent, last.requestId, last.agentId);
    RequestGives(cfg, t, last);
    LiveStays(t, u);
    forall f | Begins(s, u, f) ensures exists i :: GivenAt(u, f, pending + [last], i) {
      if f in t.flows {
        assert Begins(s, t, f);
        var i :| GivenAt(t, f, pending, i);
        GivenStays(t, u, f, pending, last, i);
      } else {
        assert (pending + [last])[|pending|] == last && (pending + [last])[..|pending|] == pending;
        assert AllLive(t, pending);
        assert GivenAt(u, f, pending + [last], |pending|);
      }
    }
  }

  lemma {:induction false} AllAreServed(cfg: Config, s: State, pending: seq<Pending>)
    requires Inv(cfg, s) && s.fields.running
    ensures Served(s, RequestAll(s, cfg.maxConcurrent, pending), cfg.maxConcurrent, pending)
  {
    if pending != [] {
      var earlier, last := pending[..|pending| - 1], pending[|pending| - 1];
      AllAreServed(cfg, s, earlier);
      RequestAllKeepsInv(cfg, s, earlier);
      RequestsKeepRunning(s, cfg.maxConcurrent, earlier);
      OneMoreServed(cfg, s, RequestAll(s, cfg.maxConcurrent, earlier), earlier, last);
      assert earlier + [last] == pending;
    }
  }

  lemma ServedFromAlike(a: State, b: State, t: State, max: int, pending: seq<Pending>)
    requires a.flows == b.flows && Served(a, t, max, pending)
    ensures Served(b, t, max, pending)
  {
    forall f | Begins(b, t, f) ensures exists i :: GivenAt(t, f, pending, i) {
      assert Begins(a, t, f);
    }
  }

  /** After start every pending pair has a flow, as far as there are places, and in their order. */
  lemma StartServesPending(cfg: Config, evs: seq<Event>)
    requires Runs(cfg, INIT, evs) && !After(cfg, INIT, evs).fields.running
    ensures var s := After(cfg, INIT, evs);
            var t := Next(cfg, s, Started);
            t.fields.running && Served(s, t, cfg.maxConcurrent, cfg.pending)
  {
    RunKeepsInv(cfg, INIT, evs);
    var s := After(cfg, INIT, evs);
    var running := s.(fields := Opened(s.fields));
    AllAreServed(cfg, running, cfg.pending);
    RequestsKeepRunning(running, cfg.maxConcurrent, cfg.pending);
    ServedFromAlike(running, s, Next(cfg, s, Started), cfg.maxConcurrent, cfg.pending);
  }

  lemma SameCount(s: State)
    requires Exact(s)
    ensures |s.flows| == |s.fields.active|
  {
    assert s.fields.active.Values == s.flows.Keys by {
      forall f | f in s.flows ensures f in s.fields.active.Values {
        assert s.fields.active[s.flows[f].Under()] == f;
      }
    }
    ValuesOfInjective(s.fields.active);
  }

  lemma {:induction false} ValuesOfInjective(m: map<string, nat>)
    requires forall j, k :: j in m && k in m && m[j] == m[k] ==> j == k
    ensures |m.Values| == |m|
    decreases |m|
  {
    if m != map[] {
      var k :| k in m;
      var rest := m - {k};
      assert m.Keys == rest.Keys + {k};
      assert m.Values == rest.Values + {m[k]};
      ValuesOfInjective(rest);
    }
  }

  // ----- Whom stop reaches -----

  ghost predicate Signalled(s: State, f: nat)
    requires f in s.flows && s.flows[f].phase.Working?
  {
    s.flows[f].phase.controller in s.fields.aborted
  }

  /** A flow that runs has been told to stop, unless the daemon runs and the flow has its
      controller. */
  ghost predicate SignalsKnown(s: State) {
    && (s.fields.running ==> s.fields.controller !in s.fields.aborted)
    && (!s.fields.running ==> s.flows == map[] || s.fields.controller in s.fields.aborted)
    && (forall k :: k in s.fields.aborted ==> k <= s.fields.controller)
    && (forall f :: f in s.flows && s.flows[f].phase.Working? ==>
          (Signalled(s, f) <==> !(s.fields.running && s.flows[f].phase.controller == s.fields.controller)))
  }

  lemma {:induction false} RequestsLeaveSignals(s: State, max: int, pending: seq<Pending>)
    requires SignalsKnown(s) && s.fields.running
    ensures SignalsKnown(RequestAll(s, max, pending))
  {
    if pending != [] {
      RequestsLeaveSignals(s, max, pending[..|pending| - 1]);
    }
  }

  lemma {:induction false} RequestsOnlyAdd(s: State, max: int, pending: seq<Pending>)
    requires forall f :: f in s.flows ==> f < s.fields.nextFlow
    ensures var t := RequestAll(s, max, pending);
            && s.fields.nextFlow <= t.fields.nextFlow
            && t.fields.aborted == s.fields.aborted
            && (forall f :: f < s.fields.nextFlow ==> (f in t.flows <==> f in s.flows))
            && (forall f :: f in t.flows ==> f < t.fields.nextFlow)
            && (forall f :: f in s.flows ==> t.flows[f] == s.flows[f])
  {
    if pending != [] {
      RequestsOnlyAdd(s, max, pending[..|pending| - 1]);
    }
  }

  lemma {:induction false} RequestsKeepRunning(s: State, max: int, pending: seq<Pending>)
    ensures RequestAll(s, max, pending).fields.running == s.fields.running
    ensures RequestAll(s, max, pending).fields.controller == s.fields.controller
  {
    if pending != [] {
      RequestsKeepRunning(s, max, pending[..|pending| - 1]);
    }
  }

  lemma StepKeepsSignalsKnown(cfg: Config, s: State, ev: Event)
    requires SignalsKnown(s) && Enabled(s, ev)
    ensures SignalsKnown(Next(cfg, s, ev))
  {
    if ev.Started? && !s.fields.running {
      RequestsLeaveSignals(s.(fields := Opened(s.fields)), cfg.maxConcurrent, cfg.pending);
    }
  }

  lemma {:induction false} RunKeepsSignalsKnown(cfg: Config, s: State, evs: seq<Event>)
    requires SignalsKnown(s) && Runs(cfg, s, evs)
    ensures SignalsKnown(After(cfg, s, evs))
    decreases |evs|
  {
    if evs != [] {
      StepKeepsSignalsKnown(cfg, s, evs[0]);
      RunKeepsSignalsKnown(cfg, Next(cfg, s, evs[0]), evs[1..]);
    }
  }

  /** However the run goes on, from `s` or later, the flow never runs without having been told to stop. */
  ghost predicate StaysSignalled(cfg: Config, s: State, f: nat) {
    forall evs :: Runs(cfg, s, evs) ==>
      var t := After(cfg, s, evs);
      f in t.flows && t.flows[f].phase.Working? ==> Signalled(t, f)
  }

  /** The flow is over, or has been told to stop. */
  ghost predicate Heard(s: State, f: nat) {
    && (forall g :: g in s.flows ==> g < s.fields.nextFlow)
    && f < s.fields.nextFlow
    && (f in s.flows ==> !s.flows[f].phase.Preparing? && (s.flows[f].phase.Working? ==> Signalled(s, f)))
  }

  lemma StepKeepsHeard(cfg: Config, s: State, ev: Event, f: nat)
    requires Heard(s, f) && Enabled(s, ev)
    ensures Heard(Next(cfg, s, ev), f)
  {
    if ev.Started? && !s.fields.running {
      RequestsOnlyAdd(s.(fields := Opened(s.fields)), cfg.maxConcurrent, cfg.pending);
    }
  }

  lemma {:induction false} RunKeepsHeard(cfg: Config, s: State, evs: seq<Event>, f: nat)
    requires Heard(s, f) && Runs(cfg, s, evs)
    ensures Heard(After(cfg, s, evs), f)
    decreases |evs|
  {
    if evs != [] {
      StepKeepsHeard(cfg, s, evs[0], f);
      RunKeepsHeard(cfg, Next(cfg, s, evs[0]), evs[1..], f);
    }
  }

  /** A flow that is still preparing when the daemon is stopped and started again obeys the new
      controller, and so never hears of that stop. */
  lemma RestartHidesStop(cfg: Config, s: State, f: nat)
    requires Exact(s) && SignalsKnown(s) && !s.fields.running && f in s.flows && s.flows[f].phase.Preparing?
    ensures !StaysSignalled(cfg, s, f)
  {
    var started := Next(cfg, s, Started);
    var running := s.(fields := Opened(s.fields));
    RequestsOnlyAdd(running, cfg.maxConcurrent, cfg.pending);
    RequestsLeaveSignals(running, cfg.maxConcurrent, cfg.pending);
    RequestsKeepRunning(running, cfg.maxConcurrent, cfg.pending);
    var made := Next(cfg, started, DirectoryMade(f));
    var evs := [Started, DirectoryMade(f)];
    assert evs[1..] == [DirectoryMade(f)] && evs[1..][1..] == [];
    assert Runs(cfg, started, evs[1..]) && After(cfg, started, evs[1..]) == made;
    assert Runs(cfg, s, evs) && After(cfg, s, evs) == made;
  }

  /** While the daemon is stopped, every flow that runs has been told to stop; a flow runs on
      untold only under the controller of a running daemon. */
  lemma SignalsReachRunningFlows(cfg: Config, evs: seq<Event>, f: nat)
    requires Runs(cfg, INIT, evs)
    requires f in After(cfg, INIT, evs).flows && After(cfg, INIT, evs).flows[f].phase.Working?
    ensures var s := After(cfg, INIT, evs);
            Signalled(s, f) <==> !(s.fields.running && s.flows[f].phase.controller == s.fields.controller)
  {
    RunKeepsSignalsKnown(cfg, INIT, evs);
  }

  /** In every reachable state of a running daemon, and for every flow that is not over: stop
      reaches it, whatever follows, if and only if its working directory has been made. */
  lemma StopReachesIff(cfg: Config, evs: seq<Event>, f: nat)
    requires Runs(cfg, INIT, evs) && After(cfg, INIT, evs).fields.running && f in After(cfg, INIT, evs).flows
    requires After(cfg, INIT, evs).flows[f].phase.Preparing? || After(cfg, INIT, evs).flows[f].phase.Working?
    ensures var s := After(cfg, INIT, evs);
            StaysSignalled(cfg, Next(cfg, s, Stopped), f) <==> s.flows[f].phase.Working?
  {
    RunKeepsInv(cfg, INIT, evs);
    RunKeepsSignalsKnown(cfg, INIT, evs);
    var s := After(cfg, INIT, evs);
    var stopped := Next(cfg, s, Stopped);
    if s.flows[f].phase.Preparing? {
      StepKeepsSignalsKnown(cfg, s, Stopped);
      RestartHidesStop(cfg, stopped, f);
    } else {
      forall more | Runs(cfg, stopped, more) ensures Heard(After(cfg, stopped, more), f) {
        RunKeepsHeard(cfg, stopped, more, f);
      }
    }
  }

  /** One pair blurs into the other: a colon inside the longer agent id takes the place of the
      separator, and the rest of that id begins the other request id. */
  ghost predicate Blurs(requestId: string, agentId: string, requestId': string, agentId': string) {
    exists x :: agentId' == agentId + ":" + x && requestId == x + ":" + requestId'
  }

  /** Exactly when two pairs share a key; never, if no agent id holds a colon. */
  lemma KeysAreUnambiguous(requestId: string, agentId: string, requestId': string, agentId': string)
    ensures Key(requestId, agentId) == Key(requestId', agentId')
       <==> (|| (requestId == requestId' && agentId == agentId')
             || Blurs(requestId, agentId, requestId', agentId')
             || Blurs(requestId', agentId', requestId, agentId))
    ensures ':' !in agentId && ':' !in agentId' && Key(requestId, agentId) == Key(requestId', agentId') ==>
              requestId == requestId' && agentId == agentId'
  {
    if Key(requestId, agentId) == Key(requestId', agentId') {
      if |agentId| <= |agentId'| {
        SameKeyBlurs(requestId, agentId, requestId', agentId');
      } else {
        SameKeyBlurs(requestId', agentId', requestId, agentId);
      }
    }
  }

  lemma SameKeyBlurs(requestId: string, agentId: string, requestId': string, agentId': string)
    requires Key(requestId, agentId) == Key(requestId', agentId') && |agentId| <= |agentId'|
    ensures (requestId == requestId' && agentId == agentId') || Blurs(requestId, agentId, requestId', agentId')
    ensures ':' !in agentId' ==> requestId == requestId' && agentId == agentId'
  {
    var key := Key(requestId, agentId);
    assert key[..|agentId|] == agentId && key[|agentId| + 1..] == requestId;
    assert key[..|agentId'|] == agentId' && key[|agentId'| + 1..] == requestId';
    if |agentId| < |agentId'| {
      var x := agentId'[|agentId| + 1..];
      assert agentId'[|agentId|] == key[|agentId|] == ':';
      assert agentId' == agentId + ":" + x;
      assert requestId == x + ":" + requestId' by {
        assert key[|agentId| + 1..] == key[|agentId| + 1..|agentId'|] + [key[|agentId'|]] + key[|agentId'| + 1..];
        assert key[|agentId| + 1..|agentId'|] == x;
        assert key[|agentId'|] == ':';
      }
    }
  }

  lemma ColonsCollide()
    ensures Key("c", "a:b") == Key("b:c", "a")
  {
  }
}
