// How fast compaction drains a backlog.

module DrainBound {
  import opened ObservationTable
  import opened ChatCompactor
  import opened CompactionRuns
  import opened CompactionSafety
  import opened Arithmetic

  datatype Table = Table(rows: Rows, nextId: nat)

  /** A pass that nothing interleaves with: BeginCompaction, then FinishCompaction. */
  function AfterPass(cfg: Config, tie: TieBreak, t: Table, agentId: string, contentHash: string, now: int): Table {
    var ids := Selection(cfg, t.rows, tie, agentId);
    if ids == [] then t
    else
      var committed := Committed(t.rows, t.nextId, agentId, ids, contentHash, now);
      Table(if cfg.deleteCompactedLowValue then Pruned(cfg, committed, tie, agentId) else committed, t.nextId + 1)
  }

  ghost predicate PassTakes(cfg: Config, tie: TieBreak, t: Table, u: Table, agentId: string) {
    exists contentHash, now :: u == AfterPass(cfg, tie, t, agentId, contentHash, now)
  }

  /** Each table comes from the one before by one pass for the agent. */
  ghost predicate Passes(cfg: Config, tie: TieBreak, ts: seq<Table>, agentId: string) {
    forall i {:trigger ts[i]} :: 0 < i < |ts| ==> PassTakes(cfg, tie, ts[i - 1], ts[i], agentId)
  }

  function Min(a: int, b: int): int {
    if a < b then a else b
  }

  function Max(a: int, b: int): int {
    if a < b then b else a
  }

  ghost predicate IdsBelow(t: Table) {
    forall id :: id in t.rows ==> id < t.nextId
  }

  /** These are the two steps of the interleaved runs, back to back. */
  lemma PassIsTwoSteps(cfg: Config, tie: TieBreak, s: State, p: nat, agentId: string, contentHash: string, now: int)
    requires p !in s.passes && Selection(cfg, s.rows, tie, agentId) != []
    ensures var mid := Next(cfg, tie, s, Started(p, agentId));
            && Enabled(cfg, mid, Summarized(p, contentHash, now, false))
            && var end := Next(cfg, tie, mid, Summarized(p, contentHash, now, false));
               Table(end.rows, end.nextId) == AfterPass(cfg, tie, Table(s.rows, s.nextId), agentId, contentHash, now)
  {
  }

  lemma SelectionSize(cfg: Config, tie: TieBreak, rows: Rows, agentId: string)
    requires cfg.enabled
    ensures |Selection(cfg, rows, tie, agentId)|
         == Max(0, Min(|Uncompacted(rows, agentId)|, PullLimit(cfg)) - KeepRecent(cfg))
    ensures Ids(Selection(cfg, rows, tie, agentId)) <= Uncompacted(rows, agentId)
    ensures |Ids(Selection(cfg, rows, tie, agentId))| == |Selection(cfg, rows, tie, agentId)|
  {
    var q := Chronological(rows, tie, Uncompacted(rows, agentId));
    var ids := Selection(cfg, rows, tie, agentId);
    assert forall i :: 0 <= i < |ids| ==> ids[i] == q[i];
    forall i, j | 0 <= i < j < |ids| ensures ids[i] != ids[j] {
      assert Newer(rows, tie, q[j], q[i]);
    }
    SetOfDistinct(ids);
  }

  /** Committing takes the batch out of the uncompacted rows; the new row is not a chat row. */
  lemma CommitTakesBatch(t: Table, agentId: string, ids: seq<nat>, contentHash: string, now: int)
    requires IdsBelow(t)
    ensures var rows := Committed(t.rows, t.nextId, agentId, ids, contentHash, now);
            && IdsBelow(Table(rows, t.nextId + 1))
            && Uncompacted(rows, agentId) == Uncompacted(t.rows, agentId) - Ids(ids)
  {
  }

  /** Pruning takes only compacted rows. */
  lemma PruneTakesNone(cfg: Config, tie: TieBreak, rows: Rows, agentId: string)
    ensures Pruned(cfg, rows, tie, agentId).Keys <= rows.Keys
    ensures Uncompacted(Pruned(cfg, rows, tie, agentId), agentId) == Uncompacted(rows, agentId)
  {
  }

  /** A pass takes its selection out of the uncompacted rows, and pruning takes no other. */
  lemma PassDrainsSelection(cfg: Config, tie: TieBreak, t: Table, agentId: string, contentHash: string, now: int)
    requires cfg.enabled && IdsBelow(t)
    ensures IdsBelow(AfterPass(cfg, tie, t, agentId, contentHash, now))
    ensures Uncompacted(AfterPass(cfg, tie, t, agentId, contentHash, now).rows, agentId)
         == Uncompacted(t.rows, agentId) - Ids(Selection(cfg, t.rows, tie, agentId))
  {
    var ids := Selection(cfg, t.rows, tie, agentId);
    CommitTakesBatch(t, agentId, ids, contentHash, now);
    PruneTakesNone(cfg, tie, Committed(t.rows, t.nextId, agentId, ids, contentHash, now), agentId);
  }

  lemma OnePassLeaves(cfg: Config, tie: TieBreak, t: Table, agentId: string, contentHash: string, now: int)
    requires cfg.enabled && IdsBelow(t)
    ensures IdsBelow(AfterPass(cfg, tie, t, agentId, contentHash, now))
    ensures |Uncompacted(AfterPass(cfg, tie, t, agentId, contentHash, now).rows, agentId)|
         == var u := |Uncompacted(t.rows, agentId)|; u - Max(0, Min(u, PullLimit(cfg)) - KeepRecent(cfg))
  {
    PassDrainsSelection(cfg, tie, t, agentId, contentHash, now);
    SelectionSize(cfg, tie, t.rows, agentId);
  }

  function Backlog(t: Table, agentId: string): nat {
    |Uncompacted(t.rows, agentId)|
  }

  /** u rows after n passes, each of which takes p - k until k are left. */
  function Remaining(u: nat, n: nat, k: nat, p: nat): int {
    Max(k, u - n * (p - k))
  }

  lemma OneStepDown(u: nat, n: nat, k: nat, p: nat)
    requires n > 0 && p > k
    ensures var left := Remaining(u, n - 1, k, p);
            left - Max(0, Min(left, p) - k) == Remaining(u, n, k, p)
  {
  }

  lemma OneMorePassLeaves(cfg: Config, tie: TieBreak, t: Table, v: Table, agentId: string, u: nat, n: nat)
    requires cfg.enabled && IdsBelow(t) && PullLimit(cfg) > KeepRecent(cfg) && n > 0
    requires PassTakes(cfg, tie, t, v, agentId)
    requires Backlog(t, agentId) == Remaining(u, n - 1, KeepRecent(cfg), PullLimit(cfg))
    ensures IdsBelow(v) && Backlog(v, agentId) == Remaining(u, n, KeepRecent(cfg), PullLimit(cfg))
  {
    var contentHash, now :| v == AfterPass(cfg, tie, t, agentId, contentHash, now);
    OnePassLeaves(cfg, tie, t, agentId, contentHash, now);
    OneStepDown(u, n, KeepRecent(cfg), PullLimit(cfg));
  }

  /** What n passes leave of a backlog: each takes P - K rows until K are left. */
  lemma {:induction false} PassesLeave(cfg: Config, tie: TieBreak, ts: seq<Table>, agentId: string, n: nat)
    requires cfg.enabled && PullLimit(cfg) > KeepRecent(cfg)
    requires n < |ts| && Passes(cfg, tie, ts, agentId) && IdsBelow(ts[0]) && Backlog(ts[0], agentId) >= KeepRecent(cfg)
    ensures IdsBelow(ts[n])
    ensures Backlog(ts[n], agentId) == Remaining(Backlog(ts[0], agentId), n, KeepRecent(cfg), PullLimit(cfg))
  {
    if n > 0 {
      PassesLeave(cfg, tie, ts, agentId, n - 1);
      OneMorePassLeaves(cfg, tie, ts[n - 1], ts[n], agentId, Backlog(ts[0], agentId), n);
    }
  }

  lemma RemainingHitsBottom(u: nat, n: nat, k: nat, p: nat)
    requires u > k && p > k
    ensures Remaining(u, n, k, p) >= k
    ensures Remaining(u, n, k, p) == k <==> n >= CeilDiv(u - k, p - k)
  {
    CeilDivIsLeast(u - k, p - k, n);
  }

  /** With P the pull limit and K the rows to keep: repeated passes bring a backlog of more
      than K rows down to exactly K, and no earlier than after ceil((U - K) / (P - K)) of
      them. */
  lemma BacklogDrains(cfg: Config, tie: TieBreak, ts: seq<Table>, agentId: string, n: nat)
    requires cfg.enabled && PullLimit(cfg) > KeepRecent(cfg)
    requires n < |ts| && Passes(cfg, tie, ts, agentId) && IdsBelow(ts[0]) && Backlog(ts[0], agentId) > KeepRecent(cfg)
    ensures Backlog(ts[n], agentId) >= KeepRecent(cfg)
    ensures Backlog(ts[n], agentId) == KeepRecent(cfg)
       <==> n >= CeilDiv(Backlog(ts[0], agentId) - KeepRecent(cfg), PullLimit(cfg) - KeepRecent(cfg))
  {
    PassesLeave(cfg, tie, ts, agentId, n);
    RemainingHitsBottom(Backlog(ts[0], agentId), n, KeepRecent(cfg), PullLimit(cfg));
  }

  /** If more rows are to be kept than a pass may read, no pass ever does anything; otherwise
      some backlog is compacted. */
  lemma SmallPullNeverCompacts(cfg: Config, tie: TieBreak, rows: Rows, agentId: string)
    requires cfg.enabled
    ensures PullLimit(cfg) <= KeepRecent(cfg) ==> Selection(cfg, rows, tie, agentId) == []
    ensures PullLimit(cfg) > KeepRecent(cfg) ==>
              (Selection(cfg, rows, tie, agentId) != [] <==> |Uncompacted(rows, agentId)| > KeepRecent(cfg))
  {
  }
}
