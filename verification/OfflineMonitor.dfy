// The monitor that watches for offline agents.

module OfflineMonitoring {
  datatype Fields = Fields(watched: set<string>, knownOffline: set<string>)

  /** The decision a check ends with. */
  function Decide(m: Fields, agentId: string, isOffline: bool): Fields {
    if isOffline && agentId !in m.knownOffline then m.(knownOffline := m.knownOffline + {agentId})
    else if !isOffline && agentId in m.knownOffline then m.(knownOffline := m.knownOffline - {agentId})
    else m
  }

  class OfflineMonitor {
    var watched: set<string>
    var knownOffline: set<string>

    ghost function View(): Fields
      reads this
    {
      Fields(watched, knownOffline)
    }

    constructor (watchedAgents: seq<string>)
      ensures View() == Fields(set a | a in watchedAgents, {})
    {
      watched := set a | a in watchedAgents;
      knownOffline := {};
    }

    method AddWatch(agentId: string)
      modifies this
      ensures View() == old(View()).(watched := old(watched) + {agentId})
    {
      watched := watched + {agentId};
    }

    method RemoveWatch(agentId: string)
      modifies this
      ensures View() == Fields(old(watched) - {agentId}, old(knownOffline) - {agentId})
    {
      watched := watched - {agentId};
      knownOffline := knownOffline - {agentId};
    }

    /** _poll after isOffline returned; `notified` tells whether the handlers are called. */
    method OnChecked(agentId: string, isOffline: bool) returns (notified: bool)
      modifies this
      ensures View() == Decide(old(View()), agentId, isOffline)
      ensures notified <==> isOffline && agentId !in old(knownOffline)
    {
      notified := isOffline && agentId !in knownOffline;
      if notified {
        knownOffline := knownOffline + {agentId};
      } else if !isOffline && agentId in knownOffline {
        knownOffline := knownOffline - {agentId};
      }
    }
  }

  // ----- Runs: any number of polls in flight, each suspended at a check of some agent -----

  datatype Check = ReadingConfig(agentId: string) | ReadingStatus(agentId: string)

  datatype Seen = SawOffline(agentId: string) | SawOnline(agentId: string) | Removed(agentId: string)

  /** `log` is everything observed or removed, and `notified` the places in it at which the
      handlers were called. */
  datatype State = State(fields: Fields, checks: map<nat, Check>, log: seq<Seen>, notified: set<nat>)

  datatype Event =
    | Watched(agentId: string)
    | Unwatched(agentId: string)
    | Visited(p: nat, agentId: string)
    | ConfigRead(p: nat, configured: bool)
    | StatusRead(p: nat, isOffline: bool)
    | CheckFailed(p: nat)

  predicate Enabled(s: State, ev: Event) {
    match ev
    case Visited(p, agentId) => p !in s.checks && agentId in s.fields.watched
    case ConfigRead(p, _) => p in s.checks && s.checks[p].ReadingConfig?
    case StatusRead(p, _) => p in s.checks && s.checks[p].ReadingStatus?
    case CheckFailed(p) => p in s.checks
    case _ => true
  }

  function Next(s: State, ev: Event): State
    requires Enabled(s, ev)
  {
    match ev
    case Watched(a) => s.(fields := s.fields.(watched := s.fields.watched + {a}))
    case Unwatched(a) =>
      s.(fields := Fields(s.fields.watched - {a}, s.fields.knownOffline - {a}), log := s.log + [Removed(a)])
    case Visited(p, a) => s.(checks := s.checks[p := ReadingConfig(a)])
    case ConfigRead(p, configured) =>
      s.(checks := if configured then s.checks[p := ReadingStatus(s.checks[p].agentId)] else s.checks - {p})
    case StatusRead(p, isOffline) =>
      var a := s.checks[p].agentId;
      State(Decide(s.fields, a, isOffline), s.checks - {p},
            s.log + [if isOffline then SawOffline(a) else SawOnline(a)],
            if isOffline && a !in s.fields.knownOffline then s.notified + {|s.log|} else s.notified)
    case CheckFailed(p) => s.(checks := s.checks - {p})
  }

  ghost predicate Runs(s: State, evs: seq<Event>)
    decreases |evs|
  {
    evs == [] || (Enabled(s, evs[0]) && Runs(Next(s, evs[0]), evs[1..]))
  }

  ghost function After(s: State, evs: seq<Event>): State
    requires Runs(s, evs)
    decreases |evs|
  {
    if evs == [] then s else After(Next(s, evs[0]), evs[1..])
  }

  function Init(watched: set<string>): State {
    State(Fields(watched, {}), map[], [], {})
  }

  /** An agent without a configuration on chain is passed over: only a configured one has its
      status read, and until it is read nothing is decided. */
  lemma OnlyConfiguredIsJudged(s: State, p: nat, configured: bool)
    requires Enabled(s, ConfigRead(p, configured))
    ensures var t := Next(s, ConfigRead(p, configured));
            && t.fields == s.fields && t.log == s.log && t.notified == s.notified
            && t.checks - {p} == s.checks - {p}
            && (p in t.checks <==> configured)
            && (configured ==> t.checks[p] == ReadingStatus(s.checks[p].agentId))
  {
  }

  /** What the log says about an agent: the last word on it. */
  function Offline(log: seq<Seen>, a: string): bool {
    if log == [] then false
    else
      var last := log[|log| - 1];
      if last.agentId == a then last.SawOffline? else Offline(log[..|log| - 1], a)
  }

  /** The monitor's view is the last word on each agent, and the handlers are called exactly
      where that word turns to offline. */
  ghost predicate Faithful(s: State) {
    && (forall a :: a in s.fields.knownOffline <==> Offline(s.log, a))
    && (forall i :: i in s.notified ==> 0 <= i < |s.log|)
    && (forall i {:trigger Turns(s.log, i)} :: 0 <= i < |s.log| ==> (i in s.notified <==> Turns(s.log, i)))
  }

  predicate Turns(log: seq<Seen>, i: nat)
    requires i < |log|
  {
    !Offline(log[..i], log[i].agentId) && Offline(log[..i + 1], log[i].agentId)
  }

  lemma LogGrows(log: seq<Seen>, x: Seen, i: nat)
    requires i < |log|
    ensures Turns(log + [x], i) <==> Turns(log, i)
  {
    assert (log + [x])[..i] == log[..i] && (log + [x])[..i + 1] == log[..i + 1];
  }

  lemma LastWord(log: seq<Seen>, x: Seen, a: string)
    ensures Offline(log + [x], a) == if x.agentId == a then x.SawOffline? else Offline(log, a)
  {
  }

  lemma AppendKeepsFaithful(s: State, t: State, x: Seen)
    requires Faithful(s) && t.log == s.log + [x]
    requires forall a :: a in t.fields.knownOffline
                    <==> if x.agentId == a then x.SawOffline? else a in s.fields.knownOffline
    requires t.notified
          == if x.SawOffline? && x.agentId !in s.fields.knownOffline then s.notified + {|s.log|} else s.notified
    ensures Faithful(t)
  {
    forall a ensures a in t.fields.knownOffline <==> Offline(t.log, a) {
      LastWord(s.log, x, a);
    }
    forall i | 0 <= i < |t.log| ensures i in t.notified <==> Turns(t.log, i) {
      if i < |s.log| {
        LogGrows(s.log, x, i);
        assert i in s.notified <==> Turns(s.log, i);
      } else {
        assert t.log[..i] == s.log && t.log[..i + 1] == t.log;
        LastWord(s.log, x, x.agentId);
      }
    }
  }

  lemma StepKeepsFaithful(s: State, ev: Event)
    requires Faithful(s) && Enabled(s, ev)
    ensures Faithful(Next(s, ev))
  {
    match ev
    case Unwatched(a) => AppendKeepsFaithful(s, Next(s, ev), Removed(a));
    case StatusRead(p, isOffline) =>
      var a := s.checks[p].agentId;
      AppendKeepsFaithful(s, Next(s, ev), if isOffline then SawOffline(a) else SawOnline(a));
    case _ =>
  }

  lemma {:induction false} RunKeepsFaithful(s: State, evs: seq<Event>)
    requires Faithful(s) && Runs(s, evs)
    ensures Faithful(After(s, evs))
    decreases |evs|
  {
    if evs != [] {
      StepKeepsFaithful(s, evs[0]);
      RunKeepsFaithful(Next(s, evs[0]), evs[1..]);
    }
  }

  /** As long as nothing but "offline" is seen of an agent, the last word stays "offline". */
  lemma {:induction false} StaysOffline(log: seq<Seen>, i: nat, j: nat, a: string)
    requires i < j <= |log| && log[i] == SawOffline(a)
    requires forall k :: i < k < j ==> log[k] != SawOnline(a) && log[k] != Removed(a)
    ensures Offline(log[..j], a)
    decreases j
  {
    if log[j - 1].agentId != a {
      assert log[..j][..j - 1] == log[..j - 1];
      StaysOffline(log, i, j - 1, a);
    }
  }

  /** Even with overlapping polls and watches that change under them: the handlers hear of an
      agent exactly when the last word on it turns to offline, so between two notifications
      for the same agent it was seen online or taken off the watch list. */
  lemma NotificationsAreDebounced(watched: set<string>, evs: seq<Event>, i: nat, j: nat)
    requires Runs(Init(watched), evs)
    requires i in After(Init(watched), evs).notified && j in After(Init(watched), evs).notified && i < j
    ensures var log := After(Init(watched), evs).log;
            && j < |log| && log[i].SawOffline? && log[j].SawOffline?
            && (log[i].agentId == log[j].agentId ==>
                  exists k :: i < k < j && (log[k] == SawOnline(log[i].agentId) || log[k] == Removed(log[i].agentId)))
  {
    RunKeepsFaithful(Init(watched), evs);
    var log := After(Init(watched), evs).log;
    assert Turns(log, i) && Turns(log, j);
    assert log[..i + 1][i] == log[i] && log[..j + 1][j] == log[j];
    if log[i].agentId == log[j].agentId
       && (forall k :: i < k < j ==> log[k] != SawOnline(log[i].agentId) && log[k] != Removed(log[i].agentId)) {
      StaysOffline(log, i, j, log[i].agentId);
      assert false;
    }
  }

  lemma KnownOfflineIsTheLastWord(watched: set<string>, evs: seq<Event>)
    requires Runs(Init(watched), evs)
    ensures Faithful(After(Init(watched), evs))
  {
    RunKeepsFaithful(Init(watched), evs);
  }

  // ----- Checks that are under way when their agent is removed -----

  predicate InFlight(s: State, a: string) {
    exists p :: p in s.checks && s.checks[p].agentId == a
  }

  /** The next event is an offline status of `a`, and the handlers hear nothing of it. */
  ghost predicate Unheard(s: State, p: nat, a: string) {
    && Enabled(s, StatusRead(p, true)) && s.checks[p].agentId == a
    && |s.log| !in Next(s, StatusRead(p, true)).notified
  }

  /** From `s`, the agent is removed, `evs` happen, it is watched again, `more` happen without
      an offline status of it: and then the first such status goes unheard. */
  ghost predicate Missed(s: State, a: string, evs: seq<Event>, more: seq<Event>, p: nat) {
    var removed := Next(s, Unwatched(a));
    && Runs(removed, evs) && Watched(a) !in evs
    && var again := Next(After(removed, evs), Watched(a));
       && Runs(again, more)
       && var late := After(again, more);
          NoOffline(late.log, |again.log|, a) && Unheard(late, p, a)
  }

  ghost predicate NoOffline(log: seq<Seen>, from: nat, a: string) {
    forall i :: from <= i < |log| ==> log[i] != SawOffline(a)
  }

  /** While it is not watched, an agent without a check under way gets none and stays unknown. */
  lemma {:induction false} RemovedStaysUnknown(s: State, a: string, evs: seq<Event>)
    requires Runs(s, evs) && Watched(a) !in evs
    requires a !in s.fields.watched && a !in s.fields.knownOffline && !InFlight(s, a)
    ensures a !in After(s, evs).fields.knownOffline
    decreases |evs|
  {
    if evs != [] {
      assert evs == [evs[0]] + evs[1..];
      var t := Next(s, evs[0]);
      assert forall p :: p in t.checks && t.checks[p].agentId == a ==> p in s.checks && s.checks[p].agentId == a;
      RemovedStaysUnknown(t, a, evs[1..]);
    }
  }

  /** An unknown agent stays unknown until an offline status of it is read. */
  lemma {:induction false} UnknownUntilOffline(s: State, a: string, evs: seq<Event>)
    requires Runs(s, evs) && a !in s.fields.knownOffline && NoOffline(After(s, evs).log, |s.log|, a)
    ensures a !in After(s, evs).fields.knownOffline
    decreases |evs|
  {
    if evs != [] {
      var t := Next(s, evs[0]);
      LogOnlyGrows(t, evs[1..]);
      var log := After(s, evs).log;
      assert t.log == log[..|t.log|];
      assert |t.log| > |s.log| ==> t.log[|s.log|] == log[|s.log|];
      UnknownUntilOffline(t, a, evs[1..]);
    }
  }

  lemma {:induction false} LogOnlyGrows(s: State, evs: seq<Event>)
    requires Runs(s, evs)
    ensures s.log <= After(s, evs).log
    decreases |evs|
  {
    if evs != [] {
      LogOnlyGrows(Next(s, evs[0]), evs[1..]);
    }
  }

  /** Removing an agent no check of which is under way is clean: when it is watched again, its
      first offline status is always heard. */
  lemma QuietRemovalIsClean(s: State, a: string, evs: seq<Event>, more: seq<Event>, p: nat)
    requires !InFlight(s, a)
    ensures !Missed(s, a, evs, more, p)
  {
    var removed := Next(s, Unwatched(a));
    assert removed.checks == s.checks;
    if Missed(s, a, evs, more, p) {
      RemovedStaysUnknown(removed, a, evs);
      UnknownUntilOffline(Next(After(removed, evs), Watched(a)), a, more);
    }
  }

  /** What the late check of `a` still has to do. */
  function Rest(c: Check, p: nat): seq<Event> {
    (if c.ReadingConfig? then [ConfigRead(p, true)] else []) + [StatusRead(p, true)]
  }

  lemma RunsTwo(s: State, e: Event, f: Event)
    requires Enabled(s, e) && Enabled(Next(s, e), f)
    ensures Runs(s, [e, f]) && After(s, [e, f]) == Next(Next(s, e), f)
  {
    RunsOne(Next(s, e), f);
    assert [e, f][1..] == [f];
  }

  lemma RunsOne(s: State, e: Event)
    requires Enabled(s, e)
    ensures Runs(s, [e]) && After(s, [e]) == Next(s, e)
  {
    assert [e][1..] == [];
    assert After(Next(s, e), []) == Next(s, e);
  }

  lemma LateCheckMarks(s: State, p: nat, a: string)
    requires p in s.checks && s.checks[p].agentId == a
    ensures Runs(s, Rest(s.checks[p], p)) && Watched(a) !in Rest(s.checks[p], p)
    ensures var t := After(s, Rest(s.checks[p], p));
            a in t.fields.knownOffline && t.checks.Keys <= s.checks.Keys && |t.log| == |s.log| + 1
    ensures Faithful(s) ==> Faithful(After(s, Rest(s.checks[p], p)))
  {
    var evs := Rest(s.checks[p], p);
    if s.checks[p].ReadingConfig? {
      assert evs == [ConfigRead(p, true), StatusRead(p, true)];
      RunsTwo(s, ConfigRead(p, true), StatusRead(p, true));
    } else {
      assert evs == [StatusRead(p, true)];
      RunsOne(s, StatusRead(p, true));
    }
    if Faithful(s) {
      RunKeepsFaithful(s, evs);
    }
  }

  lemma {:induction false} AboveAll(used: set<nat>) returns (q: nat)
    ensures forall p :: p in used ==> p < q
  {
    if used == {} {
      q := 0;
    } else {
      var p :| p in used;
      var r := AboveAll(used - {p});
      q := if p < r then r else p + 1;
      assert used == (used - {p}) + {p};
    }
  }

  /** And removing one with a check under way is not: the late check can mark the agent, and
      then its first offline status after it is watched again is not heard. */
  lemma LateCheckSilencesAgent(s: State, p: nat, a: string) returns (more: seq<Event>, q: nat)
    requires Faithful(s) && p in s.checks && s.checks[p].agentId == a
    ensures Missed(s, a, Rest(s.checks[p], p), more, q)
  {
    var removed := Next(s, Unwatched(a));
    StepKeepsFaithful(s, Unwatched(a));
    LateCheckMarks(removed, p, a);
    var marked := After(removed, Rest(s.checks[p], p));
    var again := Next(marked, Watched(a));
    StepKeepsFaithful(marked, Watched(a));
    q := AboveAll(again.checks.Keys);
    more := [Visited(q, a), ConfigRead(q, true)];
    RunsTwo(again, Visited(q, a), ConfigRead(q, true));
    RunKeepsFaithful(again, more);
    assert After(again, more).log == again.log;
  }

  /** The exact condition, in any state of any run: the first offline status of an agent that is
      removed and watched again is always heard if and only if no check of it was under way
      when it was removed. */
  lemma RemovalIsCleanIff(watched: set<string>, before: seq<Event>, a: string)
    requires Runs(Init(watched), before)
    ensures var s := After(Init(watched), before);
            (forall evs, more, p :: !Missed(s, a, evs, more, p)) <==> !InFlight(s, a)
  {
    RunKeepsFaithful(Init(watched), before);
    var s := After(Init(watched), before);
    if InFlight(s, a) {
      var p :| p in s.checks && s.checks[p].agentId == a;
      var more, q := LateCheckSilencesAgent(s, p, a);
    } else {
      forall evs, more, p ensures !Missed(s, a, evs, more, p) {
        QuietRemovalIsClean(s, a, evs, more, p);
      }
    }
  }
}
