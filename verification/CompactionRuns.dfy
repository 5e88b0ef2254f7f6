// Interleavings of captures and compaction passes, and what they keep.

module CompactionRuns {
  import opened Wrappers
  import opened ObservationTable
  import opened ChatCompactor

  /** A pass that has read its batch and waits for the summarizer. */
  datatype Pass = Pass(agentId: string, ids: seq<nat>)

  /** The table and the passes in flight; and, as history, every row as it was inserted, the
      ids that the hooks captured, and every deleted row as it was when it was deleted. */
  datatype State = State(
    rows: Rows,
    nextId: nat,
    passes: map<nat, Pass>,
    history: Rows,
    hooked: set<nat>,
    deleted: Rows)

  datatype Event =
    | Captured(agentId: string, kind: Kind, contentHash: string, importance: real, checkedAt: int, insertedAt: int)
    | Started(p: nat, agentId: string)
    | Summarized(p: nat, contentHash: string, now: int, pruneFails: bool)
    | RolledBack(p: nat)
    | Restarted

  const INIT := State(map[], 1, map[], map[], {}, map[])

  predicate Enabled(cfg: Config, s: State, ev: Event) {
    match ev
    case Captured(_, kind, _, importance, checkedAt, insertedAt) =>
      && checkedAt <= insertedAt && importance <= 1.0
      && (kind.Chat? ==> cfg.leastImportance <= importance)
    case Started(p, _) => p !in s.passes
    case Summarized(p, _, _, _) => p in s.passes
    case RolledBack(p) => p in s.passes
    case Restarted => true
  }

  function Inserted(s: State, row: Row): State {
    s.(rows := s.rows[s.nextId := row], history := s.history[s.nextId := row], nextId := s.nextId + 1)
  }

  function AfterCapture(cfg: Config, s: State, ev: Event): State
    requires ev.Captured?
  {
    if Duplicate(s.rows, ev.contentHash, ev.checkedAt, cfg.dedupWindowMs) then s
    else
      Inserted(s, Row(ev.agentId, ev.kind, ev.contentHash, ev.insertedAt / 1000, ev.importance, None))
      .(hooked := s.hooked + {s.nextId})
  }

  function AfterCommit(s: State, pass: Pass, contentHash: string, now: int): State {
    var row := Row(pass.agentId, ChatCompaction, contentHash, now / 1000, COMPACTION_IMPORTANCE, None);
    Inserted(s, row).(rows := Committed(s.rows, s.nextId, pass.agentId, pass.ids, contentHash, now))
  }

  function AfterPrune(cfg: Config, tie: TieBreak, s: State, agentId: string): State {
    var gone := LowValue(s.rows, tie, agentId, cfg.minImportanceToKeep, KeepRecent(cfg));
    s.(rows := Pruned(cfg, s.rows, tie, agentId),
       deleted := map id | id in s.deleted.Keys + gone :: if id in gone then s.rows[id] else s.deleted[id])
  }

  function Next(cfg: Config, tie: TieBreak, s: State, ev: Event): State
    requires Enabled(cfg, s, ev)
  {
    match ev
    case Captured(_, _, _, _, _, _) => AfterCapture(cfg, s, ev)
    case Started(p, agentId) =>
      var ids := Selection(cfg, s.rows, tie, agentId);
      if ids == [] then s else s.(passes := s.passes[p := Pass(agentId, ids)])
    case Summarized(p, contentHash, now, pruneFails) =>
      var pass := s.passes[p];
      var committed := AfterCommit(s.(passes := s.passes - {p}), pass, contentHash, now);
      if cfg.deleteCompactedLowValue && !pruneFails then AfterPrune(cfg, tie, committed, pass.agentId) else committed
    case RolledBack(p) => s.(passes := s.passes - {p})
    case Restarted => s.(passes := map[])
  }

  ghost predicate Runs(cfg: Config, tie: TieBreak, s: State, evs: seq<Event>)
    decreases |evs|
  {
    evs == [] || (Enabled(cfg, s, evs[0]) && Runs(cfg, tie, Next(cfg, tie, s, evs[0]), evs[1..]))
  }

  ghost function After(cfg: Config, tie: TieBreak, s: State, evs: seq<Event>): State
    requires Runs(cfg, tie, s, evs)
    decreases |evs|
  {
    if evs == [] then s else After(cfg, tie, Next(cfg, tie, s, evs[0]), evs[1..])
  }
}

module CompactionSafety {
  import opened Wrappers
  import opened ObservationTable
  import opened ChatCompactor
  import opened CompactionRuns
  import opened Arithmetic

  // ----- The newest rows, by counting -----

  ghost function NewerChat(rows: Rows, tie: TieBreak, id: nat): set<nat>
    requires id in rows
  {
    set x | x in ChatRows(rows, rows[id].agentId) && Newer(rows, tie, x, id)
  }

  /** At least k chat rows of the same agent are newer. */
  ghost predicate Settled(rows: Rows, tie: TieBreak, k: nat, id: nat)
    requires id in rows
  {
    |NewerChat(rows, tie, id)| >= k
  }

  ghost function Ids(q: seq<nat>): set<nat> {
    set x | x in q
  }

  lemma {:induction false} SetOfDistinct(q: seq<nat>)
    requires forall i, j :: 0 <= i < j < |q| ==> q[i] != q[j]
    ensures |Ids(q)| == |q|
  {
    if q == [] {
      assert Ids(q) == {};
    } else {
      var front, last := q[..|q| - 1], q[|q| - 1];
      SetOfDistinct(front);
      assert q == front + [last];
      assert Ids(q) == Ids(front) + {last};
    }
  }

  lemma SetOfTail(rows: Rows, tie: TieBreak, ids: set<nat>, q: seq<nat>, i: nat)
    requires ids <= rows.Keys && InOrder(rows, tie, ids, q) && i <= |q|
    ensures |Ids(q[i..])| == |q| - i
  {
    forall j, k | 0 <= j < k < |q[i..]| ensures q[i..][j] != q[i..][k] {
      assert Newer(rows, tie, q[i + k], q[i + j]);
    }
    SetOfDistinct(q[i..]);
  }

  /** In the ordered list, exactly the rows behind an id are newer. */
  lemma NewerIsBehind(rows: Rows, tie: TieBreak, agentId: string, q: seq<nat>, i: nat)
    requires InOrder(rows, tie, ChatRows(rows, agentId), q) && i < |q|
    ensures NewerChat(rows, tie, q[i]) == Ids(q[i + 1..])
    ensures |NewerChat(rows, tie, q[i])| == |q| - 1 - i
  {
    forall x | x in NewerChat(rows, tie, q[i]) ensures x in Ids(q[i + 1..]) {
      var j :| 0 <= j < |q| && q[j] == x;
      assert i < j;
      assert q[i + 1..][j - i - 1] == x;
    }
    forall x | x in Ids(q[i + 1..]) ensures x in NewerChat(rows, tie, q[i]) {
      var j :| 0 <= j < |q[i + 1..]| && q[i + 1..][j] == x;
      assert x == q[i + 1 + j] && Newer(rows, tie, q[i + 1 + j], q[i]);
    }
    SetOfTail(rows, tie, ChatRows(rows, agentId), q, i + 1);
  }

  /** The newest k chat rows of an agent are those with fewer than k newer ones. */
  lemma NewestIffFewNewer(rows: Rows, tie: TieBreak, agentId: string, k: nat, id: nat)
    requires id in ChatRows(rows, agentId)
    ensures id in NewestChat(rows, tie, agentId, k) <==> !Settled(rows, tie, k, id)
  {
    var q := Chronological(rows, tie, ChatRows(rows, agentId));
    var i :| 0 <= i < |q| && q[i] == id;
    NewerIsBehind(rows, tie, agentId, q, i);
  }

  /** If a row is settled, the newest k rows exist and are all newer. */
  lemma NewestAreNewer(rows: Rows, tie: TieBreak, agentId: string, k: nat, id: nat)
    requires id in ChatRows(rows, agentId) && Settled(rows, tie, k, id)
    ensures |Ids(NewestChat(rows, tie, agentId, k))| == k
    ensures Ids(NewestChat(rows, tie, agentId, k)) <= NewerChat(rows, tie, id)
  {
    var q := Chronological(rows, tie, ChatRows(rows, agentId));
    var i :| 0 <= i < |q| && q[i] == id;
    TailIsNewer(rows, tie, agentId, q, i, k);
    assert NewestChat(rows, tie, agentId, k) == q[|q| - k..];
  }

  lemma TailIsNewer(rows: Rows, tie: TieBreak, agentId: string, q: seq<nat>, i: nat, k: nat)
    requires InOrder(rows, tie, ChatRows(rows, agentId), q) && i < |q| && Settled(rows, tie, k, q[i])
    ensures i + k < |q| && |Ids(q[|q| - k..])| == k
    ensures Ids(q[|q| - k..]) <= NewerChat(rows, tie, q[i])
  {
    NewerIsBehind(rows, tie, agentId, q, i);
    SetOfTail(rows, tie, ChatRows(rows, agentId), q, |q| - k);
  }

  // ----- What settles a row, and what keeps it settled -----

  lemma SelectedAreSettled(cfg: Config, rows: Rows, tie: TieBreak, agentId: string, id: nat)
    requires id in Selection(cfg, rows, tie, agentId)
    ensures id in Uncompacted(rows, agentId) && Settled(rows, tie, KeepRecent(cfg), id)
  {
    var q := Chronological(rows, tie, Uncompacted(rows, agentId));
    var batch := Take(q, PullLimit(cfg));
    var k := KeepRecent(cfg);
    var i :| 0 <= i < |batch| - k && batch[i] == id;
    var kept := batch[|batch| - k..];
    forall a, b | 0 <= a < b < |kept| ensures kept[a] != kept[b] {
      assert Newer(rows, tie, q[|batch| - k + b], q[|batch| - k + a]);
    }
    SetOfDistinct(kept);
    forall x | x in Ids(kept) ensures x in NewerChat(rows, tie, id) {
      var j :| 0 <= j < |kept| && kept[j] == x;
      assert x == q[|batch| - k + j] && Newer(rows, tie, q[|batch| - k + j], q[i]);
    }
    SubsetSize(Ids(kept), NewerChat(rows, tie, id));
  }

  /** Every row of `a` is in `b` with the same place in the order. */
  ghost predicate Extends(a: Rows, b: Rows) {
    forall x :: x in a ==> x in b && b[x].(compactedInto := None) == a[x].(compactedInto := None)
  }

  lemma SettledSurvives(a: Rows, b: Rows, tie: TieBreak, k: nat, id: nat)
    requires Extends(a, b) && id in a && Settled(a, tie, k, id)
    ensures id in b && Settled(b, tie, k, id)
  {
    forall x | x in NewerChat(a, tie, id) ensures x in NewerChat(b, tie, id) {
      assert a[x].(compactedInto := None) == b[x].(compactedInto := None);
      assert a[id].(compactedInto := None) == b[id].(compactedInto := None);
    }
    SubsetSize(NewerChat(a, tie, id), NewerChat(b, tie, id));
  }

  /** A row keeps k newer ones if it had k that are not pruned. */
  lemma KeptRowsSettle(rows: Rows, gone: set<nat>, tie: TieBreak, k: nat, id: nat, kept: set<nat>)
    requires id in rows && id !in gone && kept <= NewerChat(rows, tie, id) && kept !! gone && |kept| >= k
    ensures Settled(rows - gone, tie, k, id)
  {
    forall x | x in kept ensures x in NewerChat(rows - gone, tie, id) {
      assert x in NewerChat(rows, tie, id);
    }
    SubsetSize(kept, NewerChat(rows - gone, tie, id));
  }

  /** Pruning removes no row among the newest, so what was settled stays settled. */
  lemma PruneKeepsSettled(cfg: Config, rows: Rows, tie: TieBreak, agentId: string, id: nat)
    requires id in Pruned(cfg, rows, tie, agentId) && rows[id].kind.Chat? && Settled(rows, tie, KeepRecent(cfg), id)
    ensures Settled(Pruned(cfg, rows, tie, agentId), tie, KeepRecent(cfg), id)
  {
    var k := KeepRecent(cfg);
    var gone := LowValue(rows, tie, agentId, cfg.minImportanceToKeep, k);
    if rows[id].agentId == agentId {
      NewestAreNewer(rows, tie, agentId, k, id);
      KeptRowsSettle(rows, gone, tie, k, id, Ids(NewestChat(rows, tie, agentId, k)));
    } else {
      KeptRowsSettle(rows, gone, tie, k, id, NewerChat(rows, tie, id));
    }
  }

  // ----- The invariant -----

  /** `r` was rolled up into a compaction row of its agent, which is still there. */
  ghost predicate RolledUp(rows: Rows, r: Row) {
    && r.kind.Chat? && r.compactedInto.Some?
    && var c := r.compactedInto.value;
       c in rows && rows[c].kind.ChatCompaction? && rows[c].agentId == r.agentId
  }

  ghost predicate LiveOk(cfg: Config, tie: TieBreak, s: State, id: nat)
    requires id in s.rows
  {
    && id in s.history && id !in s.deleted
    && s.rows[id].(compactedInto := None) == s.history[id]
    && (s.rows[id].compactedInto.Some? ==> RolledUp(s.rows, s.rows[id]) && Settled(s.rows, tie, KeepRecent(cfg), id))
  }

  ghost predicate DeletedOk(cfg: Config, s: State, id: nat)
    requires id in s.deleted
  {
    && id in s.history
    && s.deleted[id].(compactedInto := None) == s.history[id]
    && RolledUp(s.rows, s.deleted[id])
    && cfg.deleteCompactedLowValue && s.deleted[id].importance < cfg.minImportanceToKeep
  }

  /** A stale batch still names chat rows of its own agent, each settled if it still exists. */
  ghost predicate PassOk(cfg: Config, tie: TieBreak, s: State, pass: Pass) {
    forall id {:trigger id in pass.ids} :: id in pass.ids ==>
      && id in s.history && s.history[id].kind.Chat? && s.history[id].agentId == pass.agentId
      && (id in s.rows ==> Settled(s.rows, tie, KeepRecent(cfg), id))
  }

  ghost predicate Inv(cfg: Config, tie: TieBreak, s: State) {
    && (forall id :: id in s.history ==> id < s.nextId && (id in s.rows || id in s.deleted))
    && (forall id {:trigger LiveOk(cfg, tie, s, id)} :: id in s.rows ==> LiveOk(cfg, tie, s, id))
    && (forall id {:trigger DeletedOk(cfg, s, id)} :: id in s.deleted ==> DeletedOk(cfg, s, id))
    && (forall p {:trigger s.passes[p]} :: p in s.passes ==> PassOk(cfg, tie, s, s.passes[p]))
    && s.hooked <= s.history.Keys
  }

  /** How the parts of the invariant that do not move carry over to a larger table. */
  lemma CarryOver(cfg: Config, tie: TieBreak, s: State, t: State)
    requires Inv(cfg, tie, s) && Extends(s.rows, t.rows) && t.deleted == s.deleted
    requires forall id :: id in s.history ==>
      id in t.history && t.history[id] == s.history[id] && (id in t.rows ==> id in s.rows)
    requires forall id :: id in s.rows && s.rows[id].kind.ChatCompaction? ==> t.rows[id] == s.rows[id]
    ensures forall id :: id in s.rows ==>
      id in t.rows && id in t.history && t.rows[id].(compactedInto := None) == t.history[id]
    ensures forall id :: id in s.rows && t.rows[id] == s.rows[id] ==> LiveOk(cfg, tie, t, id)
    ensures forall id :: id in t.deleted ==> DeletedOk(cfg, t, id)
    ensures forall p :: p in s.passes ==> PassOk(cfg, tie, t, s.passes[p])
  {
    forall id | id in s.rows
      ensures id in t.rows && id in t.history && t.rows[id].(compactedInto := None) == t.history[id]
      ensures t.rows[id] == s.rows[id] ==> LiveOk(cfg, tie, t, id)
    {
      assert LiveOk(cfg, tie, s, id);
      if s.rows[id].compactedInto.Some? {
        SettledSurvives(s.rows, t.rows, tie, KeepRecent(cfg), id);
      }
    }
    forall id | id in t.deleted ensures DeletedOk(cfg, t, id) {
      assert DeletedOk(cfg, s, id);
    }
    forall p | p in s.passes ensures PassOk(cfg, tie, t, s.passes[p]) {
      PassSurvives(cfg, tie, s, t, s.passes[p]);
    }
  }

  lemma PassSurvives(cfg: Config, tie: TieBreak, s: State, t: State, pass: Pass)
    requires PassOk(cfg, tie, s, pass) && Extends(s.rows, t.rows)
    requires forall id :: id in s.history ==>
      id in t.history && t.history[id] == s.history[id] && (id in t.rows ==> id in s.rows)
    ensures PassOk(cfg, tie, t, pass)
  {
    forall id | id in pass.ids && id in t.rows ensures Settled(t.rows, tie, KeepRecent(cfg), id) {
      SettledSurvives(s.rows, t.rows, tie, KeepRecent(cfg), id);
    }
  }

  lemma IdsAreOld(cfg: Config, tie: TieBreak, s: State)
    requires Inv(cfg, tie, s)
    ensures forall id :: id in s.rows ==> id in s.history && id < s.nextId && id !in s.deleted
    ensures forall id :: id in s.rows && s.rows[id].compactedInto.Some? ==> s.rows[id].kind.Chat?
    ensures forall id :: id in s.rows ==> s.rows[id].(compactedInto := None) == s.history[id]
    ensures forall id :: id in s.deleted ==> id in s.history
  {
    forall id | id in s.rows
      ensures id in s.history && id !in s.deleted && s.rows[id].(compactedInto := None) == s.history[id]
      ensures s.rows[id].compactedInto.Some? ==> s.rows[id].kind.Chat?
    {
      assert LiveOk(cfg, tie, s, id);
    }
    forall id | id in s.deleted ensures id in s.history {
      assert DeletedOk(cfg, s, id);
    }
  }

  /** A fresh row disturbs nothing: its id was never used before. */
  lemma InsertKeepsInv(cfg: Config, tie: TieBreak, s: State, row: Row, hooked: set<nat>)
    requires Inv(cfg, tie, s) && row.compactedInto.None?
    requires hooked <= s.history.Keys + {s.nextId}
    ensures Inv(cfg, tie, Inserted(s, row).(hooked := hooked))
  {
    var t := Inserted(s, row).(hooked := hooked);
    IdsAreOld(cfg, tie, s);
    CarryOver(cfg, tie, s, t);
    forall id | id in t.rows ensures LiveOk(cfg, tie, t, id) {
      assert id != s.nextId ==> t.rows[id] == s.rows[id];
    }
  }

  lemma BatchIsChat(cfg: Config, tie: TieBreak, s: State, pass: Pass, id: nat)
    requires Inv(cfg, tie, s) && PassOk(cfg, tie, s, pass) && id in pass.ids && id in s.rows
    ensures s.rows[id].kind.Chat? && s.rows[id].agentId == pass.agentId && id < s.nextId
    ensures Settled(s.rows, tie, KeepRecent(cfg), id)
  {
    assert LiveOk(cfg, tie, s, id);
  }

  /** What a commit does to the rows that were there: it marks some chat rows of its agent. */
  lemma CommitMarks(cfg: Config, tie: TieBreak, s: State, pass: Pass, contentHash: string, now: int)
    requires Inv(cfg, tie, s) && PassOk(cfg, tie, s, pass)
    ensures var t := AfterCommit(s, pass, contentHash, now);
            && Extends(s.rows, t.rows)
            && (forall id :: id in s.rows && id !in pass.ids ==> t.rows[id] == s.rows[id])
            && (forall id :: id in s.rows && !s.rows[id].kind.Chat? ==> t.rows[id] == s.rows[id])
            && s.nextId !in pass.ids && s.nextId !in s.rows && s.nextId !in s.history && s.nextId !in s.deleted
  {
    IdsAreOld(cfg, tie, s);
    forall id | id in s.rows && id in pass.ids ensures s.rows[id].kind.Chat? {
      BatchIsChat(cfg, tie, s, pass, id);
    }
  }

  lemma MarkedRowIsOk(cfg: Config, tie: TieBreak, s: State, pass: Pass, contentHash: string, now: int, id: nat)
    requires Inv(cfg, tie, s) && PassOk(cfg, tie, s, pass) && id in pass.ids && id in s.rows
    ensures var t := AfterCommit(s, pass, contentHash, now);
            id in t.rows && LiveOk(cfg, tie, t, id)
  {
    var t := AfterCommit(s, pass, contentHash, now);
    BatchIsChat(cfg, tie, s, pass, id);
    CommitMarks(cfg, tie, s, pass, contentHash, now);
    SettledSurvives(s.rows, t.rows, tie, KeepRecent(cfg), id);
    assert LiveOk(cfg, tie, s, id);
  }

  lemma CommitKeepsInv(cfg: Config, tie: TieBreak, s: State, pass: Pass, contentHash: string, now: int)
    requires Inv(cfg, tie, s) && PassOk(cfg, tie, s, pass)
    ensures Inv(cfg, tie, AfterCommit(s, pass, contentHash, now))
  {
    var t := AfterCommit(s, pass, contentHash, now);
    CommitMarks(cfg, tie, s, pass, contentHash, now);
    CarryOver(cfg, tie, s, t);
    forall id | id in t.rows ensures LiveOk(cfg, tie, t, id) {
      if id in s.rows && id in pass.ids {
        MarkedRowIsOk(cfg, tie, s, pass, contentHash, now, id);
      }
    }
  }

  lemma PruneKeepsInv(cfg: Config, tie: TieBreak, s: State, agentId: string)
    requires Inv(cfg, tie, s) && cfg.deleteCompactedLowValue
    ensures Inv(cfg, tie, AfterPrune(cfg, tie, s, agentId))
  {
    var t := AfterPrune(cfg, tie, s, agentId);
    forall id | id in t.rows ensures LiveOk(cfg, tie, t, id) {
      assert LiveOk(cfg, tie, s, id);
      if t.rows[id].compactedInto.Some? {
        PruneKeepsSettled(cfg, s.rows, tie, agentId, id);
      }
    }
    forall id | id in t.deleted ensures DeletedOk(cfg, t, id) {
      if id in s.rows {
        assert LiveOk(cfg, tie, s, id);
      } else {
        assert DeletedOk(cfg, s, id);
      }
    }
    forall p | p in t.passes ensures PassOk(cfg, tie, t, t.passes[p]) {
      assert PassOk(cfg, tie, s, s.passes[p]);
      forall id | id in t.passes[p].ids && id in t.rows ensures Settled(t.rows, tie, KeepRecent(cfg), id) {
        assert LiveOk(cfg, tie, s, id);
        PruneKeepsSettled(cfg, s.rows, tie, agentId, id);
      }
    }
  }

  lemma StartKeepsInv(cfg: Config, tie: TieBreak, s: State, p: nat, agentId: string)
    requires Inv(cfg, tie, s) && p !in s.passes
    ensures Inv(cfg, tie, Next(cfg, tie, s, Started(p, agentId)))
  {
    var pass := Pass(agentId, Selection(cfg, s.rows, tie, agentId));
    forall id | id in pass.ids
      ensures id in s.history && s.history[id].kind.Chat? && s.history[id].agentId == agentId
      ensures id in s.rows ==> Settled(s.rows, tie, KeepRecent(cfg), id)
    {
      SelectedAreSettled(cfg, s.rows, tie, agentId, id);
      assert LiveOk(cfg, tie, s, id);
    }
    var t := Next(cfg, tie, s, Started(p, agentId));
    assert PassOk(cfg, tie, s, pass);
    SameTable(cfg, tie, s, t);
  }

  /** Changing only which passes are in flight, as long as each was read from this table. */
  lemma SameTable(cfg: Config, tie: TieBreak, s: State, t: State)
    requires Inv(cfg, tie, s) && t.(passes := s.passes) == s
    requires forall p :: p in t.passes ==> PassOk(cfg, tie, s, t.passes[p])
    ensures Inv(cfg, tie, t)
  {
    forall id | id in t.rows ensures LiveOk(cfg, tie, t, id) {
      assert LiveOk(cfg, tie, s, id);
    }
    forall id | id in t.deleted ensures DeletedOk(cfg, t, id) {
      assert DeletedOk(cfg, s, id);
    }
    forall p | p in t.passes ensures PassOk(cfg, tie, t, t.passes[p]) {
      PassSurvives(cfg, tie, s, t, t.passes[p]);
    }
  }

  lemma StepKeepsInv(cfg: Config, tie: TieBreak, s: State, ev: Event)
    requires Inv(cfg, tie, s) && Enabled(cfg, s, ev)
    ensures Inv(cfg, tie, Next(cfg, tie, s, ev))
  {
    match ev
    case Captured(agentId, kind, contentHash, importance, checkedAt, insertedAt) =>
      if !Duplicate(s.rows, contentHash, checkedAt, cfg.dedupWindowMs) {
        InsertKeepsInv(cfg, tie, s, Row(agentId, kind, contentHash, insertedAt / 1000, importance, None),
                       s.hooked + {s.nextId});
      }
    case Started(p, agentId) => StartKeepsInv(cfg, tie, s, p, agentId);
    case Summarized(p, contentHash, now, pruneFails) =>
      var u := s.(passes := s.passes - {p});
      SameTable(cfg, tie, s, u);
      PassSurvives(cfg, tie, s, u, s.passes[p]);
      CommitKeepsInv(cfg, tie, u, s.passes[p], contentHash, now);
      if cfg.deleteCompactedLowValue && !pruneFails {
        PruneKeepsInv(cfg, tie, AfterCommit(u, s.passes[p], contentHash, now), s.passes[p].agentId);
      }
    case RolledBack(p) => SameTable(cfg, tie, s, s.(passes := s.passes - {p}));
    case Restarted => SameTable(cfg, tie, s, s.(passes := map[]));
  }

  lemma {:induction false} RunKeepsInv(cfg: Config, tie: TieBreak, s: State, evs: seq<Event>)
    requires Inv(cfg, tie, s) && Runs(cfg, tie, s, evs)
    ensures Inv(cfg, tie, After(cfg, tie, s, evs))
    decreases |evs|
  {
    if evs != [] {
      StepKeepsInv(cfg, tie, s, evs[0]);
      RunKeepsInv(cfg, tie, Next(cfg, tie, s, evs[0]), evs[1..]);
    }
  }

  // ----- What a user relies on -----

  /** No newest row is compacted, and the next step leaves each of them as it is. */
  ghost predicate NewestAreUntouched(cfg: Config, tie: TieBreak, s: State, agentId: string, ev: Event)
    requires Enabled(cfg, s, ev)
  {
    forall id :: id in NewestChat(s.rows, tie, agentId, KeepRecent(cfg)) ==>
      && id in s.rows && s.rows[id].compactedInto.None?
      && id in Next(cfg, tie, s, ev).rows && Next(cfg, tie, s, ev).rows[id] == s.rows[id]
  }

  lemma NewestSurviveStep(cfg: Config, tie: TieBreak, s: State, agentId: string, ev: Event)
    requires Inv(cfg, tie, s) && Enabled(cfg, s, ev)
    ensures NewestAreUntouched(cfg, tie, s, agentId, ev)
  {
    var t := Next(cfg, tie, s, ev);
    forall id | id in NewestChat(s.rows, tie, agentId, KeepRecent(cfg))
      ensures id in s.rows && s.rows[id].compactedInto.None? && id in t.rows && t.rows[id] == s.rows[id]
    {
      assert id in ChatRows(s.rows, agentId);
      NewestIffFewNewer(s.rows, tie, agentId, KeepRecent(cfg), id);
      assert LiveOk(cfg, tie, s, id);
      if ev.Summarized? {
        assert PassOk(cfg, tie, s, s.passes[ev.p]);
        assert id !in s.passes[ev.p].ids;
      }
    }
  }

  /** Whatever the interleaving of captures, passes with stale batches, commits, rollbacks,
      prunes and restarts: the newest keepRecentRaw chat rows of every agent are raw, and no
      step compacts, changes or deletes one of them. */
  lemma NewestChatIsNeverCompacted(cfg: Config, tie: TieBreak, evs: seq<Event>, agentId: string, ev: Event)
    requires Runs(cfg, tie, INIT, evs) && Enabled(cfg, After(cfg, tie, INIT, evs), ev)
    ensures NewestAreUntouched(cfg, tie, After(cfg, tie, INIT, evs), agentId, ev)
  {
    RunKeepsInv(cfg, tie, INIT, evs);
    NewestSurviveStep(cfg, tie, After(cfg, tie, INIT, evs), agentId, ev);
  }

  /** What has become of a row that was inserted as `was`. */
  ghost predicate Accounted(cfg: Config, s: State, id: nat, was: Row) {
    if id in s.rows then
      || s.rows[id] == was
      || (RolledUp(s.rows, s.rows[id]) && s.rows[id].(compactedInto := None) == was)
    else
      && id in s.deleted && RolledUp(s.rows, s.deleted[id]) && s.deleted[id].(compactedInto := None) == was
      && cfg.deleteCompactedLowValue && was.importance < cfg.minImportanceToKeep
  }

  /** Conservation: every row ever inserted is still there raw, or is rolled up into a
      compaction row of its agent that is still there, or was deleted after that because of
      its importance.  In particular nothing but chat rows is ever rolled up or deleted. */
  lemma EveryRowIsAccountedFor(cfg: Config, tie: TieBreak, evs: seq<Event>)
    requires Runs(cfg, tie, INIT, evs)
    ensures var s := After(cfg, tie, INIT, evs);
            && (forall id :: id in s.rows ==> id in s.history)
            && (forall id :: id in s.history ==> Accounted(cfg, s, id, s.history[id]))
            && (forall id :: id in s.history && !s.history[id].kind.Chat? ==>
                  id in s.rows && s.rows[id] == s.history[id])
  {
    RunKeepsInv(cfg, tie, INIT, evs);
    var s := After(cfg, tie, INIT, evs);
    forall id ensures id in s.rows ==> id in s.history {
      assert id in s.rows ==> LiveOk(cfg, tie, s, id);
    }
    forall id | id in s.history
      ensures Accounted(cfg, s, id, s.history[id])
      ensures !s.history[id].kind.Chat? ==> id in s.rows && s.rows[id] == s.history[id]
    {
      if id in s.rows {
        assert LiveOk(cfg, tie, s, id);
      } else {
        assert DeletedOk(cfg, s, id);
      }
    }
  }

  /** A late commit touches only rows that its own batch was read from: every row of any
      other kind, agent or id, and every row captured since, comes out of it unchanged. */
  lemma StaleCommitHitsNoFreshRow(cfg: Config, tie: TieBreak, evs: seq<Event>, p: nat, contentHash: string, now: int,
                                  id: nat)
    requires Runs(cfg, tie, INIT, evs) && p in After(cfg, tie, INIT, evs).passes
    requires id in After(cfg, tie, INIT, evs).rows
    ensures var s := After(cfg, tie, INIT, evs);
            var t := Next(cfg, tie, s, Summarized(p, contentHash, now, true));
            && s.nextId in t.rows && t.rows[s.nextId].kind.ChatCompaction? && s.nextId !in s.history
            && id in t.rows
            && (t.rows[id] != s.rows[id] ==>
                  && id in s.passes[p].ids && s.rows[id].kind.Chat? && s.rows[id].agentId == s.passes[p].agentId
                  && t.rows[id].compactedInto == Some(s.nextId))
  {
    RunKeepsInv(cfg, tie, INIT, evs);
    var s := After(cfg, tie, INIT, evs);
    assert LiveOk(cfg, tie, s, id) && PassOk(cfg, tie, s, s.passes[p]);
  }
}
