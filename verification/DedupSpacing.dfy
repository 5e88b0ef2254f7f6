// When duplicates are really kept apart.

module DedupSpacing {
  import opened Wrappers
  import opened ObservationTable
  import opened ChatCompactor
  import opened CompactionRuns
  import opened CompactionSafety
  import opened DrainBound

  function Distance(a: int, b: int): nat {
    if a < b then b - a else a - b
  }

  /** Any two rows the hooks captured with the same content are the dedup window apart. */
  ghost predicate Spaced(cfg: Config, s: State) {
    forall i, j ::
      (i in s.hooked && j in s.hooked && i != j && i in s.history && j in s.history
       && s.history[i].contentHash == s.history[j].contentHash)
      ==> Distance(s.history[i].epoch, s.history[j].epoch) >= cfg.dedupWindowMs / 1000
  }

  /** A capture is far enough from every equal row that is still in the table. */
  lemma CaptureIsSpaced(cfg: Config, tie: TieBreak, s: State, ev: Event, i: nat)
    requires ev.Captured? && Enabled(cfg, s, ev) && Next(cfg, tie, s, ev) != s
    requires i in s.rows && s.rows[i].contentHash == ev.contentHash
    ensures Distance(s.rows[i].epoch, ev.insertedAt / 1000) >= cfg.dedupWindowMs / 1000
  {
  }

  /** The configurations under which a compacted row can be deleted within the window. */
  predicate CanForget(cfg: Config) {
    && cfg.enabled && cfg.deleteCompactedLowValue && cfg.minImportanceToKeep > cfg.leastImportance
    && PullLimit(cfg) > KeepRecent(cfg)
    && cfg.dedupWindowMs >= 1000
  }

  /** Without them, nothing is ever deleted. */
  ghost predicate NothingLost(cfg: Config, s: State) {
    && s.deleted == map[]
    && ImportanceOk(s.rows, cfg.leastImportance)
    && (!cfg.enabled || PullLimit(cfg) <= KeepRecent(cfg) ==> s.passes == map[])
  }

  ghost predicate ImportanceOk(rows: Rows, least: real) {
    forall id :: id in rows && rows[id].kind.Chat? ==> rows[id].importance >= least
  }

  lemma NoLowValue(rows: Rows, tie: TieBreak, agentId: string, minImportance: real, keepRecent: nat, least: real)
    requires ImportanceOk(rows, least) && minImportance <= least
    ensures LowValue(rows, tie, agentId, minImportance, keepRecent) == {}
  {
  }

  lemma CommitLosesNothing(cfg: Config, tie: TieBreak, s: State, p: nat, contentHash: string, now: int,
                           pruneFails: bool)
    requires p in s.passes && NothingLost(cfg, s)
    requires !CanForget(cfg) && cfg.dedupWindowMs >= 1000
    ensures NothingLost(cfg, Next(cfg, tie, s, Summarized(p, contentHash, now, pruneFails)))
  {
    var committed := AfterCommit(s.(passes := s.passes - {p}), s.passes[p], contentHash, now);
    assert ImportanceOk(committed.rows, cfg.leastImportance);
    if cfg.deleteCompactedLowValue {
      NoLowValue(committed.rows, tie, s.passes[p].agentId, cfg.minImportanceToKeep, KeepRecent(cfg),
                 cfg.leastImportance);
    }
  }

  lemma NothingIsLost(cfg: Config, tie: TieBreak, s: State, ev: Event)
    requires Enabled(cfg, s, ev) && NothingLost(cfg, s)
    requires !CanForget(cfg) && cfg.dedupWindowMs >= 1000
    ensures NothingLost(cfg, Next(cfg, tie, s, ev))
  {
    match ev
    case Started(p, agentId) =>
      if cfg.enabled {
        SmallPullNeverCompacts(cfg, tie, s.rows, agentId);
      }
    case Summarized(p, contentHash, now, pruneFails) =>
      CommitLosesNothing(cfg, tie, s, p, contentHash, now, pruneFails);
    case _ =>
  }

  lemma StepKeepsSpaced(cfg: Config, tie: TieBreak, s: State, ev: Event)
    requires Inv(cfg, tie, s) && Enabled(cfg, s, ev) && NothingLost(cfg, s) && Spaced(cfg, s)
    ensures Spaced(cfg, Next(cfg, tie, s, ev))
  {
    var t := Next(cfg, tie, s, ev);
    if ev.Captured? && t != s {
      forall i, j | i in t.hooked && j in t.hooked && i != j && t.history[i].contentHash == t.history[j].contentHash
        ensures Distance(t.history[i].epoch, t.history[j].epoch) >= cfg.dedupWindowMs / 1000
      {
        var old_ := if i == s.nextId then j else i;
        if i == s.nextId || j == s.nextId {
          assert LiveOk(cfg, tie, s, old_);
          CaptureIsSpaced(cfg, tie, s, ev, old_);
        }
      }
    }
  }

  lemma {:induction false} RunKeepsSpaced(cfg: Config, tie: TieBreak, s: State, evs: seq<Event>)
    requires Inv(cfg, tie, s) && Runs(cfg, tie, s, evs) && NothingLost(cfg, s) && Spaced(cfg, s)
    requires !CanForget(cfg) && cfg.dedupWindowMs >= 1000
    ensures Spaced(cfg, After(cfg, tie, s, evs))
    decreases |evs|
  {
    if evs != [] {
      StepKeepsInv(cfg, tie, s, evs[0]);
      NothingIsLost(cfg, tie, s, evs[0]);
      StepKeepsSpaced(cfg, tie, s, evs[0]);
      RunKeepsSpaced(cfg, tie, Next(cfg, tie, s, evs[0]), evs[1..]);
    }
  }

  // ----- A run that forgets -----

  /** `n` different contents. */
  function Name(n: nat): string {
    seq(n, i => 'm')
  }

  /** The k-th message of a burst at time zero, with the lowest score there is. */
  function Message(cfg: Config, k: nat): Event {
    Captured("agent", Chat, Name(k), cfg.leastImportance, 0, 0)
  }

  ghost predicate Filled(cfg: Config, s: State, k: nat) {
    && s.nextId == k + 1 && s.deleted == map[] && s.passes == map[]
    && s.rows == s.history && s.hooked == s.rows.Keys
    && |s.rows| == k
    && (forall id :: 1 <= id <= k ==> id in s.rows)
    && forall id :: id in s.rows ==>
        1 <= id <= k && s.rows[id] == Row("agent", Chat, Name(id), 0, cfg.leastImportance, None)
  }

  lemma {:induction false} Fill(cfg: Config, tie: TieBreak, k: nat) returns (evs: seq<Event>)
    ensures Runs(cfg, tie, INIT, evs) && Filled(cfg, After(cfg, tie, INIT, evs), k)
  {
    evs := [];
    if k > 0 {
      var before := Fill(cfg, tie, k - 1);
      var s := After(cfg, tie, INIT, before);
      evs := before + [Message(cfg, k)];
      OneMoreEvent(cfg, tie, INIT, before, Message(cfg, k));
      FillOneMore(cfg, tie, s, k);
    }
  }

  lemma FillOneMore(cfg: Config, tie: TieBreak, s: State, k: nat)
    requires k > 0 && Filled(cfg, s, k - 1)
    ensures Filled(cfg, Next(cfg, tie, s, Message(cfg, k)), k)
  {
    assert forall id :: id in s.rows ==> |Name(id)| == id;
    assert |Name(k)| == k;
    assert !Duplicate(s.rows, Name(k), 0, cfg.dedupWindowMs);
    var t := Next(cfg, tie, s, Message(cfg, k));
    assert t.rows.Keys == s.rows.Keys + {k};
  }

  lemma {:induction false} OneMoreEvent(cfg: Config, tie: TieBreak, s: State, evs: seq<Event>, ev: Event)
    requires Runs(cfg, tie, s, evs) && Enabled(cfg, After(cfg, tie, s, evs), ev)
    ensures Runs(cfg, tie, s, evs + [ev])
    ensures After(cfg, tie, s, evs + [ev]) == Next(cfg, tie, After(cfg, tie, s, evs), ev)
    decreases |evs|
  {
    if evs != [] {
      OneMoreEvent(cfg, tie, Next(cfg, tie, s, evs[0]), evs[1..], ev);
      assert (evs + [ev])[0] == evs[0] && (evs + [ev])[1..] == evs[1..] + [ev];
    } else {
      assert evs + [ev] == [ev];
      assert [ev][1..] == [];
    }
  }

  /** K + 1 messages at once, a pass over them with its prune, and the rolled-up message again. */
  lemma ForgetfulRun(cfg: Config, tie: TieBreak) returns (evs: seq<Event>)
    requires CanForget(cfg)
    ensures Runs(cfg, tie, INIT, evs) && !Spaced(cfg, After(cfg, tie, INIT, evs))
  {
    var k := KeepRecent(cfg);
    evs := Fill(cfg, tie, k + 1);
    var s := After(cfg, tie, INIT, evs);
    var m := OldestIsSelected(cfg, tie, s);
    OneMoreEvent(cfg, tie, INIT, evs, Started(0, "agent"));
    evs := evs + [Started(0, "agent")];
    var reading := Next(cfg, tie, s, Started(0, "agent"));
    OneMoreEvent(cfg, tie, INIT, evs, Summarized(0, Name(k + 3), 0, false));
    evs := evs + [Summarized(0, Name(k + 3), 0, false)];
    var pruned := Next(cfg, tie, reading, Summarized(0, Name(k + 3), 0, false));
    SelectedIsForgotten(cfg, tie, s, m);
    OneMoreEvent(cfg, tie, INIT, evs, Message(cfg, m));
    evs := evs + [Message(cfg, m)];
    ForgottenComesBack(cfg, tie, s, pruned, m);
  }

  lemma OldestIsSelected(cfg: Config, tie: TieBreak, s: State) returns (m: nat)
    requires CanForget(cfg) && Filled(cfg, s, KeepRecent(cfg) + 1)
    ensures m in s.rows && Selection(cfg, s.rows, tie, "agent") == [m]
  {
    assert Uncompacted(s.rows, "agent") == s.rows.Keys;
    var q := Chronological(s.rows, tie, Uncompacted(s.rows, "agent"));
    assert |s.rows| == |s.rows.Keys|;
    m := q[0];
    assert m in Uncompacted(s.rows, "agent");
    assert q[..1] == [m];
  }

  lemma SelectedIsForgotten(cfg: Config, tie: TieBreak, s: State, m: nat)
    requires CanForget(cfg) && Filled(cfg, s, KeepRecent(cfg) + 1) && m in s.rows
    requires Selection(cfg, s.rows, tie, "agent") == [m]
    ensures var pruned := Next(cfg, tie, Next(cfg, tie, s, Started(0, "agent")),
                               Summarized(0, Name(KeepRecent(cfg) + 3), 0, false));
            && m !in pruned.rows && pruned.history[m] == s.history[m] && pruned.hooked == s.hooked
            && m in pruned.history && pruned.nextId !in s.rows && m < pruned.nextId
            && forall id :: id in pruned.rows ==>
                 || (id in s.rows && pruned.rows[id].contentHash == Name(id))
                 || pruned.rows[id].contentHash == Name(KeepRecent(cfg) + 3)
  {
    SelectedHasLowValue(cfg, tie, s, m, Name(KeepRecent(cfg) + 3));
  }

  lemma SelectedHasLowValue(cfg: Config, tie: TieBreak, s: State, m: nat, summary: string)
    requires CanForget(cfg) && Filled(cfg, s, KeepRecent(cfg) + 1) && m in s.rows
    requires m in Selection(cfg, s.rows, tie, "agent")
    ensures m in LowValue(Committed(s.rows, s.nextId, "agent", [m], summary, 0), tie, "agent", cfg.minImportanceToKeep,
                          KeepRecent(cfg))
  {
    SelectedAreSettled(cfg, s.rows, tie, "agent", m);
    var rows := Committed(s.rows, s.nextId, "agent", [m], summary, 0);
    SettledSurvives(s.rows, rows, tie, KeepRecent(cfg), m);
    NewestIffFewNewer(rows, tie, "agent", KeepRecent(cfg), m);
  }

  lemma ForgottenComesBack(cfg: Config, tie: TieBreak, s: State, pruned: State, m: nat)
    requires CanForget(cfg) && Filled(cfg, s, KeepRecent(cfg) + 1) && m in s.rows
    requires m !in pruned.rows && m in pruned.history && pruned.history[m] == s.history[m] && pruned.hooked == s.hooked
    requires pruned.nextId !in s.rows && m < pruned.nextId
    requires forall id :: id in pruned.rows ==>
               || (id in s.rows && pruned.rows[id].contentHash == Name(id))
               || pruned.rows[id].contentHash == Name(KeepRecent(cfg) + 3)
    ensures !Spaced(cfg, Next(cfg, tie, pruned, Message(cfg, m)))
  {
    assert forall id: nat :: |Name(id)| == id;
    assert !Duplicate(pruned.rows, Name(m), 0, cfg.dedupWindowMs);
    var t := Next(cfg, tie, pruned, Message(cfg, m));
    assert pruned.nextId in t.hooked && m in t.hooked && pruned.nextId != m;
    assert t.history[m].contentHash == t.history[pruned.nextId].contentHash;
  }

  /** The exact condition.  Equal contents are kept a window apart in every run if and only if
      the configuration never lets a compacted row be deleted or its window is under a second;
      otherwise some run captures the same content twice at once.  The clock may jump in
      between, but not step back between the check and the insert of one capture. */
  lemma SpacingHoldsExactly(cfg: Config, tie: TieBreak)
    ensures (forall evs :: Runs(cfg, tie, INIT, evs) ==> Spaced(cfg, After(cfg, tie, INIT, evs))) <==> !CanForget(cfg)
  {
    if CanForget(cfg) {
      var evs := ForgetfulRun(cfg, tie);
    } else {
      forall evs | Runs(cfg, tie, INIT, evs) ensures Spaced(cfg, After(cfg, tie, INIT, evs)) {
        if cfg.dedupWindowMs >= 1000 {
          RunKeepsSpaced(cfg, tie, INIT, evs);
        }
      }
    }
  }
}
