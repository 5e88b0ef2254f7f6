// Chat memory: the observation table.

module ObservationTable {
  import opened Wrappers

  /** tool_name, as far as the compactor looks at it: message_received, message_sent and chat
      are chat rows. */
  datatype Kind = Chat | ChatCompaction | OtherTool

  /** A row is compacted when it says into which row. */
  datatype Row = Row(agentId: string, kind: Kind, contentHash: string, epoch: int, importance: real,
                     compactedInto: Option<nat>)

  type Rows = map<nat, Row>

  /** How the engine places row ids of equal epoch: in some way that does not change. */
  type TieBreak = nat -> int

  /** One total order that refines the epoch. */
  predicate Newer(rows: Rows, tie: TieBreak, a: nat, b: nat)
    requires a in rows && b in rows
  {
    || rows[a].epoch > rows[b].epoch
    || (rows[a].epoch == rows[b].epoch && (tie(a) > tie(b) || (tie(a) == tie(b) && a > b)))
  }

  predicate IsOldest(rows: Rows, tie: TieBreak, ids: set<nat>, m: nat)
    requires ids <= rows.Keys
  {
    m in ids && forall x :: x in ids && x != m ==> Newer(rows, tie, x, m)
  }

  lemma {:induction false} OldestExists(rows: Rows, tie: TieBreak, ids: set<nat>)
    requires ids <= rows.Keys && ids != {}
    ensures exists m :: IsOldest(rows, tie, ids, m)
  {
    var x :| x in ids;
    if ids == {x} {
      assert IsOldest(rows, tie, ids, x);
    } else {
      var rest := ids - {x};
      assert ids == rest + {x};
      OldestExists(rows, tie, rest);
      var m :| IsOldest(rows, tie, rest, m);
      if Newer(rows, tie, x, m) {
        assert IsOldest(rows, tie, ids, m);
      } else {
        forall y | y in ids && y != x ensures Newer(rows, tie, y, x) {
          assert y in rest;
          assert y == m || Newer(rows, tie, y, m);
        }
        assert IsOldest(rows, tie, ids, x);
      }
    }
  }

  /** `q` is `ids` in order, oldest first. */
  ghost predicate InOrder(rows: Rows, tie: TieBreak, ids: set<nat>, q: seq<nat>)
    requires ids <= rows.Keys
  {
    && |q| == |ids|
    && (forall i {:trigger q[i]} :: 0 <= i < |q| ==> q[i] in ids)
    && (forall x :: x in ids ==> x in q)
    && (forall i, j :: 0 <= i < j < |q| ==> Newer(rows, tie, q[j], q[i]))
  }

  /** ORDER BY created_at_epoch ASC */
  function Chronological(rows: Rows, tie: TieBreak, ids: set<nat>): (q: seq<nat>)
    requires ids <= rows.Keys
    ensures InOrder(rows, tie, ids, q)
    decreases |ids|
  {
    if ids == {} then []
    else
      OldestExists(rows, tie, ids);
      var m :| IsOldest(rows, tie, ids, m);
      var rest := Chronological(rows, tie, ids - {m});
      [m] + rest
  }

  function ChatRows(rows: Rows, agentId: string): (ids: set<nat>)
    ensures ids <= rows.Keys
  {
    set id | id in rows && rows[id].kind.Chat? && rows[id].agentId == agentId
  }

  function Uncompacted(rows: Rows, agentId: string): (ids: set<nat>)
    ensures ids <= rows.Keys
  {
    set id | id in rows && rows[id].kind.Chat? && rows[id].agentId == agentId && rows[id].compactedInto.None?
  }

  function Take(q: seq<nat>, limit: nat): seq<nat> {
    if |q| <= limit then q else q[..limit]
  }

  function UncompactedChat(rows: Rows, tie: TieBreak, agentId: string, limit: nat): seq<nat> {
    Take(Chronological(rows, tie, Uncompacted(rows, agentId)), limit)
  }

  /** ORDER BY created_at_epoch DESC LIMIT k: the end of the same order. */
  function NewestChat(rows: Rows, tie: TieBreak, agentId: string, k: nat): seq<nat> {
    var q := Chronological(rows, tie, ChatRows(rows, agentId));
    if |q| <= k then q else q[|q| - k..]
  }

  /** UPDATE ... WHERE id IN (...): ids without a row are skipped. */
  function Marked(rows: Rows, ids: seq<nat>, into: nat): Rows {
    map id | id in rows :: if id in ids then rows[id].(compactedInto := Some(into)) else rows[id]
  }

  function LowValue(rows: Rows, tie: TieBreak, agentId: string, minImportance: real, keepRecent: nat): (ids: set<nat>)
    ensures ids <= rows.Keys
  {
    var protected := NewestChat(rows, tie, agentId, keepRecent);
    set id | id in rows && rows[id].kind.Chat? && rows[id].agentId == agentId && rows[id].compactedInto.Some?
          && rows[id].importance < minImportance && id !in protected
  }

  /** Both divisions round down. */
  predicate Duplicate(rows: Rows, contentHash: string, now: int, windowMs: int) {
    exists id :: id in rows && rows[id].contentHash == contentHash && rows[id].epoch > (now - windowMs) / 1000
  }

  /** Whole seconds rounded down lose nothing here: a row is in the window exactly when the
      beginning of its second is less than `windowMs` ago. */
  lemma DuplicateExactly(rows: Rows, contentHash: string, now: int, windowMs: int)
    ensures Duplicate(rows, contentHash, now, windowMs)
       <==> exists id :: id in rows && rows[id].contentHash == contentHash && now < 1000 * rows[id].epoch + windowMs
  {
  }

  /** Ids come from AUTOINCREMENT: always above every id handed out before. */
  class ObservationStore {
    const tie: TieBreak
    var rows: Rows
    var nextId: nat

    ghost predicate Valid()
      reads this
    {
      forall id :: id in rows ==> id < nextId
    }

    constructor (tie: TieBreak)
      ensures Valid() && rows == map[] && nextId == 1 && this.tie == tie
    {
      this.tie := tie;
      rows, nextId := map[], 1;
    }

    method Insert(agentId: string, kind: Kind, contentHash: string, importance: real, now: int) returns (id: nat)
      requires Valid()
      modifies this
      ensures Valid() && id == old(nextId) && nextId == id + 1 && id !in old(rows)
      ensures rows == old(rows)[id := Row(agentId, kind, contentHash, now / 1000, importance, None)]
    {
      id := nextId;
      rows := rows[id := Row(agentId, kind, contentHash, now / 1000, importance, None)];
      nextId := nextId + 1;
    }

    method IsDuplicate(contentHash: string, now: int, windowMs: int) returns (found: bool)
      ensures found <==> Duplicate(rows, contentHash, now, windowMs)
      ensures found <==>
                exists id :: id in rows && rows[id].contentHash == contentHash && now < 1000 * rows[id].epoch + windowMs
    {
      DuplicateExactly(rows, contentHash, now, windowMs);
      var cutoff := (now - windowMs) / 1000;
      found := exists id :: id in rows && rows[id].contentHash == contentHash && rows[id].epoch > cutoff;
    }

    method GetUncompactedChat(agentId: string, limit: nat) returns (batch: seq<nat>)
      ensures batch == UncompactedChat(rows, tie, agentId, limit)
    {
      batch := UncompactedChat(rows, tie, agentId, limit);
    }

    method MarkCompacted(ids: seq<nat>, into: nat) returns (changes: nat)
      requires Valid()
      modifies this`rows
      ensures Valid() && rows == Marked(old(rows), ids, into)
      ensures changes == |set id | id in old(rows) && id in ids|
    {
      if |ids| == 0 {
        assert (set id | id in rows && id in ids) == {};
        assert Marked(rows, ids, into) == rows;
        return 0;
      }
      changes := |set id | id in rows && id in ids|;
      rows := Marked(rows, ids, into);
    }

    method PruneCompactedLowValue(agentId: string, minImportance: real, keepRecent: nat) returns (deleted: nat)
      requires Valid()
      modifies this`rows
      ensures Valid() && rows == old(rows) - LowValue(old(rows), tie, agentId, minImportance, keepRecent)
      ensures deleted == |LowValue(old(rows), tie, agentId, minImportance, keepRecent)|
    {
      var recent := NewestChat(rows, tie, agentId, keepRecent);
      var candidates := set id | id in rows && rows[id].agentId == agentId && rows[id].compactedInto.Some?
                               && rows[id].importance < minImportance && rows[id].kind.Chat?;
      var toDelete := set id | id in candidates && id !in recent;
      assert toDelete == LowValue(rows, tie, agentId, minImportance, keepRecent);
      if toDelete == {} {
        assert rows - toDelete == rows;
        return 0;
      }
      rows := rows - toDelete;
      deleted := |toDelete|;
    }
  }
}
