// The compactor that rolls chat rows up.

module ChatCompactor {
  import opened Wrappers
  import opened ObservationTable

  type Score = r: real | 0.0 <= r <= 1.0

  /** `leastImportance` is the lowest score that a captured chat row can get. */
  datatype Config = Config(
    enabled: bool,
    triggerEvery: int,
    keepRecentRaw: int,
    deleteCompactedLowValue: bool,
    minImportanceToKeep: real,
    leastImportance: Score,
    dedupWindowMs: int)

  const COMPACTION_IMPORTANCE: real := 0.9

  function PullLimit(cfg: Config): nat {
    var every := if cfg.triggerEvery > 1 then cfg.triggerEvery else 1;
    if every * 5 < 200 then every * 5 else 200
  }

  function KeepRecent(cfg: Config): nat {
    if cfg.keepRecentRaw > 0 then cfg.keepRecentRaw else 0
  }

  function Compactable(batch: seq<nat>, keepRecent: nat): seq<nat> {
    if |batch| <= keepRecent then [] else batch[..|batch| - keepRecent]
  }

  /** What a pass that reads now will compact. */
  function Selection(cfg: Config, rows: Rows, tie: TieBreak, agentId: string): seq<nat> {
    if !cfg.enabled then [] else Compactable(UncompactedChat(rows, tie, agentId, PullLimit(cfg)), KeepRecent(cfg))
  }

  /** The transaction after the summary has arrived. */
  function Committed(rows: Rows, nextId: nat, agentId: string, ids: seq<nat>, contentHash: string, now: int): Rows {
    Marked(rows[nextId := Row(agentId, ChatCompaction, contentHash, now / 1000, COMPACTION_IMPORTANCE, None)], ids,
           nextId)
  }

  function Pruned(cfg: Config, rows: Rows, tie: TieBreak, agentId: string): Rows {
    rows - LowValue(rows, tie, agentId, cfg.minImportanceToKeep, KeepRecent(cfg))
  }

  /** runChatCompaction up to the await of the summarizer. */
  method BeginCompaction(cfg: Config, store: ObservationStore, agentId: string) returns (compactable: seq<nat>)
    ensures compactable == Selection(cfg, store.rows, store.tie, agentId)
  {
    if !cfg.enabled {
      return [];
    }
    var batch := store.GetUncompactedChat(agentId, PullLimit(cfg));
    if |batch| == 0 {
      return [];
    }
    var keepRecent := KeepRecent(cfg);
    if |batch| <= keepRecent {
      compactable := [];
    } else if keepRecent > 0 {
      compactable := batch[..|batch| - keepRecent];
    } else {
      compactable := batch;
    }
  }

  datatype CompactionResult = CompactionResult(batchSize: nat, compactionId: nat, prunedCount: nat)

  /** runChatCompaction after the await.  A failed transaction is rolled back and thrown; a
      failed prune is only logged. */
  method FinishCompaction(cfg: Config, store: ObservationStore, agentId: string, compactable: seq<nat>,
                          contentHash: string, now: int, commitFails: bool, pruneFails: bool)
    returns (r: Option<CompactionResult>)
    requires store.Valid()
    modifies store
    ensures store.Valid()
    ensures commitFails ==> r == None && store.rows == old(store.rows) && store.nextId == old(store.nextId)
    ensures !commitFails ==>
      && r.Some? && r.value.batchSize == |compactable| && r.value.compactionId == old(store.nextId)
      && store.nextId == old(store.nextId) + 1
      && var committed := old(Committed(store.rows, store.nextId, agentId, compactable, contentHash, now));
         var pruned := Pruned(cfg, committed, store.tie, agentId);
         if cfg.deleteCompactedLowValue && !pruneFails
         then store.rows == pruned && r.value.prunedCount == |committed| - |pruned|
         else store.rows == committed && r.value.prunedCount == 0
  {
    if commitFails {
      return None;
    }
    var id := store.Insert(agentId, ChatCompaction, contentHash, COMPACTION_IMPORTANCE, now);
    var _ := store.MarkCompacted(compactable, id);
    ghost var committed := store.rows;
    var prunedCount := 0;
    if cfg.deleteCompactedLowValue && !pruneFails {
      prunedCount := store.PruneCompactedLowValue(agentId, cfg.minImportanceToKeep, KeepRecent(cfg));
      SizeOfDifference(committed, LowValue(committed, store.tie, agentId, cfg.minImportanceToKeep, KeepRecent(cfg)));
    }
    return Some(CompactionResult(|compactable|, id, prunedCount));
  }

  lemma SizeOfDifference(rows: Rows, gone: set<nat>)
    requires gone <= rows.Keys
    ensures |rows - gone| == |rows| - |gone|
  {
  }

  /** captureChatMessage and onAfterToolCall, from the duplicate check on: no await in between. */
  method Capture(cfg: Config, store: ObservationStore, agentId: string, kind: Kind, contentHash: string,
                 importance: real,
                 checkedAt: int, insertedAt: int) returns (captured: bool)
    requires store.Valid()
    modifies store
    ensures store.Valid()
    ensures captured <==> !old(Duplicate(store.rows, contentHash, checkedAt, cfg.dedupWindowMs))
    ensures captured <==> forall row :: row in old(store.rows).Values && row.contentHash == contentHash ==>
                            1000 * row.epoch + cfg.dedupWindowMs <= checkedAt
    ensures captured ==> store.nextId == old(store.nextId) + 1
    ensures store.rows == if captured
                          then old(store.rows)[old(store.nextId) := Row(agentId, kind, contentHash, insertedAt / 1000,
                                                                        importance, None)]
                          else old(store.rows)
    ensures !captured ==> store.nextId == old(store.nextId)
  {
    var duplicate := store.IsDuplicate(contentHash, checkedAt, cfg.dedupWindowMs);
    if duplicate {
      return false;
    }
    var _ := store.Insert(agentId, kind, contentHash, importance, insertedAt);
    return true;
  }

  class CompactionTrigger {
    const enabled: bool
    const triggerEvery: int
    var counter: nat

    function Period(): (n: nat)
      ensures n >= 1
    {
      if triggerEvery > 1 then triggerEvery else 1
    }

    constructor (enabled: bool, triggerEvery: int)
      ensures counter == 0 && this.enabled == enabled && this.triggerEvery == triggerEvery
    {
      this.enabled, this.triggerEvery, counter := enabled, triggerEvery, 0;
    }

    /** Fires on every Period()-th tick, and never when disabled. */
    method Tick() returns (fire: bool)
      requires counter < Period()
      modifies this
      ensures counter < Period()
      ensures if enabled then counter == (old(counter) + 1) % Period() && (fire <==> counter == 0)
              else !fire && counter == old(counter)
    {
      if !enabled {
        return false;
      }
      counter := counter + 1;
      if counter >= Period() {
        counter := 0;
        return true;
      }
      return false;
    }

    method Reset()
      modifies this
      ensures counter == 0
    {
      counter := 0;
    }
  }
}
