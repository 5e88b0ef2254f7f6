// What a compaction pass selects, rolls up and deletes, said without the functions it uses.

module PassEffects {
  import opened Wrappers
  import opened ObservationTable
  import opened ChatCompactor
  import opened CompactionRuns
  import opened CompactionSafety
  import opened DrainBound

  /** An uncompacted chat row of the agent. */
  predicate IsRaw(rows: Rows, agentId: string, id: nat) {
    id in rows && rows[id].kind.Chat? && rows[id].agentId == agentId && rows[id].compactedInto == None
  }

  ghost function RawRows(rows: Rows, agentId: string): set<nat> {
    set id | id in rows && IsRaw(rows, agentId, id)
  }

  /** At most 200 rows are read, and 5 for each message of the period; the newest of them stay. */
  function Quota(cfg: Config, raw: nat): nat {
    var read := Min(Min(raw, 200), 5 * Max(1, cfg.triggerEvery));
    if cfg.enabled then Max(0, read - Max(0, cfg.keepRecentRaw)) else 0
  }

  lemma RawIsUncompacted(rows: Rows, agentId: string)
    ensures RawRows(rows, agentId) == Uncompacted(rows, agentId)
  {
  }

  lemma OutsideIsLater(q: seq<nat>, n: nat, j: nat)
    requires n <= |q| && j < |q| && q[j] !in q[..n]
    ensures j >= n
  {
    assert forall k :: 0 <= k < n ==> q[..n][k] == q[k];
  }

  /** A pass selects raw rows, as many as its quota, and no raw row it leaves is older than one it
      selects. */
  lemma SelectionIsExact(cfg: Config, tie: TieBreak, rows: Rows, agentId: string)
    ensures var ids := Selection(cfg, rows, tie, agentId);
            && |ids| == Quota(cfg, |RawRows(rows, agentId)|) && |Ids(ids)| == |ids|
            && (forall id :: id in ids ==> IsRaw(rows, agentId, id))
            && (forall id, x :: id in ids && IsRaw(rows, agentId, x) && x !in ids ==> Newer(rows, tie, x, id))
  {
    RawIsUncompacted(rows, agentId);
    if cfg.enabled {
      SelectionSize(cfg, tie, rows, agentId);
      var q := Chronological(rows, tie, Uncompacted(rows, agentId));
      var ids := Selection(cfg, rows, tie, agentId);
      assert |ids| <= |q| && ids == q[..|ids|];
      forall id, x | id in ids && IsRaw(rows, agentId, x) && x !in ids ensures Newer(rows, tie, x, id) {
        var i :| 0 <= i < |ids| && ids[i] == id;
        assert x in q;
        var j :| 0 <= j < |q| && q[j] == x;
        OutsideIsLater(q, |ids|, j);
      }
    } else {
      assert Ids([]) == {};
    }
  }

  /** A commit adds one compaction row of the agent, and marks the rows of the batch that still
      exist with its id; it changes nothing else. */
  lemma CommitIsExact(rows: Rows, nextId: nat, agentId: string, ids: seq<nat>, contentHash: string, now: int, id: nat)
    requires nextId !in ids && nextId !in rows
    ensures var out := Committed(rows, nextId, agentId, ids, contentHash, now);
            && (id in out <==> id in rows || id == nextId)
            && out[nextId].agentId == agentId && out[nextId].kind == ChatCompaction
            && out[nextId].contentHash == contentHash && out[nextId].importance == 0.9
            && out[nextId].compactedInto == None
            && 1000 * out[nextId].epoch <= now < 1000 * out[nextId].epoch + 1000
            && (id in rows ==>
                  if id in ids then out[id] == rows[id].(compactedInto := Some(nextId)) else out[id] == rows[id])
  {
  }

  /** A prune deletes exactly the compacted chat rows of the agent below the threshold that have
      the number to keep of newer chat rows; it changes none of the others. */
  lemma PruneIsExact(cfg: Config, tie: TieBreak, rows: Rows, agentId: string, id: nat)
    requires id in rows
    ensures var out := Pruned(cfg, rows, tie, agentId);
            && (id !in out <==>
                  && rows[id].kind.Chat? && rows[id].agentId == agentId && rows[id].compactedInto != None
                  && rows[id].importance < cfg.minImportanceToKeep
                  && |NewerChat(rows, tie, id)| >= Max(0, cfg.keepRecentRaw))
            && (id in out ==> out[id] == rows[id])
  {
    if id in ChatRows(rows, agentId) {
      NewestIffFewNewer(rows, tie, agentId, KeepRecent(cfg), id);
    }
  }

  /** The hooks capture a message if and only if every row with its content lies a whole window
      back, whatever kind and agent; the row says what was captured, and nothing else changes. */
  lemma CaptureIsExact(cfg: Config, tie: TieBreak, s: State, ev: Event)
    requires ev.Captured? && Enabled(cfg, s, ev)
    ensures var t := Next(cfg, tie, s, ev);
            if forall id :: id in s.rows && s.rows[id].contentHash == ev.contentHash ==>
                 1000 * s.rows[id].epoch + cfg.dedupWindowMs <= ev.checkedAt
            then
              && t.nextId == s.nextId + 1 && s.nextId in t.rows && t.rows - {s.nextId} == s.rows - {s.nextId}
              && t.passes == s.passes
              && (var row := t.rows[s.nextId];
                  && row == Row(ev.agentId, ev.kind, ev.contentHash, row.epoch, ev.importance, None)
                  && 1000 * row.epoch <= ev.insertedAt < 1000 * row.epoch + 1000)
            else t == s
  {
    DuplicateExactly(s.rows, ev.contentHash, ev.checkedAt, cfg.dedupWindowMs);
  }

  /** A pass that fails, or a restart, ends passes and touches no row. */
  lemma FailureTouchesNoRow(cfg: Config, tie: TieBreak, s: State, ev: Event)
    requires Enabled(cfg, s, ev) && (ev.RolledBack? || ev.Restarted?)
    ensures var t := Next(cfg, tie, s, ev);
            && t.rows == s.rows && t.nextId == s.nextId
            && (forall p :: p in t.passes <==> p in s.passes && !ev.Restarted? && p != ev.p)
            && (forall p :: p in t.passes ==> t.passes[p] == s.passes[p])
  {
  }
}
