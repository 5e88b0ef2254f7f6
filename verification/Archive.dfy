// The local archive of past backups.

module Archive {
  import opened Wrappers
  import opened Arithmetic
  import opened SoulTypes

  import Chain
  import Walks

  datatype Row = Row(agentId: Text, incremental: bool, parentCid: Option<Cid>)

  type Table = map<Cid, Row>

  predicate Hit(rows: Table, agentId: Text, cursor: Option<Cid>) {
    Chain.Truthy(cursor) && cursor.value in rows && rows[cursor.value].agentId == agentId
  }

  predicate Continues(rows: Table, agentId: Text, cursor: Option<Cid>) {
    Hit(rows, agentId, cursor) && rows[cursor.value].incremental
  }

  /** countIncrementalChain leaves its loop within n rounds. */
  predicate Stops(rows: Table, agentId: Text, cursor: Option<Cid>, n: nat)
    decreases n
  {
    Continues(rows, agentId, cursor) ==> n > 0 && Stops(rows, agentId, rows[cursor.value].parentCid, n - 1)
  }

  /** Which CID the loop goes to from each CID. */
  ghost function Links(rows: Table, agentId: Text): map<Cid, Cid> {
    map c | c in rows && Continues(rows, agentId, Some(c)) && Chain.Truthy(rows[c].parentCid) :: rows[c].parentCid.value
  }

  /** Following parents from `c`, the loop comes back to a row. */
  ghost predicate Cyclic(rows: Table, agentId: Text, c: Cid) {
    Walks.Revisits(Links(rows, agentId), c)
  }

  lemma {:induction false} StopsLikeLinks(rows: Table, agentId: Text, c: Cid, n: nat)
    requires c != ""
    ensures Stops(rows, agentId, Some(c), n) ==> Walks.Stops(Links(rows, agentId), c, n)
    ensures Walks.Stops(Links(rows, agentId), c, n) ==> Stops(rows, agentId, Some(c), n + 1)
    decreases n
  {
    if c in Links(rows, agentId) && n > 0 {
      StopsLikeLinks(rows, agentId, rows[c].parentCid.value, n - 1);
    }
  }

  lemma CyclicNeverStops(rows: Table, agentId: Text, c: Cid, n: nat)
    requires c != "" && Cyclic(rows, agentId, c)
    ensures !Stops(rows, agentId, Some(c), n)
  {
    StopsLikeLinks(rows, agentId, c, n);
    Walks.RevisitingNeverStops(Links(rows, agentId), c, n);
  }

  lemma NotCyclicStops(rows: Table, agentId: Text, c: Cid)
    requires !Cyclic(rows, agentId, c)
    ensures Stops(rows, agentId, Some(c), |rows| + 1)
  {
    if c != "" {
      Walks.NotRevisitingStops(Links(rows, agentId), c);
      StopsLikeLinks(rows, agentId, c, |Links(rows, agentId)|);
      SubsetSize(Links(rows, agentId).Keys, rows.Keys);
      StopsLater(rows, agentId, Some(c), |Links(rows, agentId)| + 1, |rows| + 1);
    }
  }

  /** This loop has no guard against cycles either: it ends exactly when it meets none. */
  lemma CountEndsIffNotCyclic(rows: Table, agentId: Text, c: Cid)
    requires c != ""
    ensures (exists n: nat :: Stops(rows, agentId, Some(c), n)) <==> !Cyclic(rows, agentId, c)
    ensures !Cyclic(rows, agentId, c) ==> Stops(rows, agentId, Some(c), |rows| + 1)
  {
    if Cyclic(rows, agentId, c) {
      forall n: nat { CyclicNeverStops(rows, agentId, c, n); }
    } else {
      NotCyclicStops(rows, agentId, c);
      var n := |rows| + 1;
      assert Stops(rows, agentId, Some(c), n);
      assert exists k: nat :: Stops(rows, agentId, Some(c), k);
    }
  }

  function CountWithin(rows: Table, agentId: Text, cursor: Option<Cid>, n: nat): nat
    requires Stops(rows, agentId, cursor, n)
    decreases n
  {
    if !Hit(rows, agentId, cursor) then 0
    else if !rows[cursor.value].incremental then 1
    else 1 + CountWithin(rows, agentId, rows[cursor.value].parentCid, n - 1)
  }

  lemma {:induction false} CountNeedsNoMore(rows: Table, agentId: Text, cursor: Option<Cid>, n: nat, m: nat)
    requires Stops(rows, agentId, cursor, n) && Stops(rows, agentId, cursor, m)
    ensures CountWithin(rows, agentId, cursor, m) == CountWithin(rows, agentId, cursor, n)
    decreases n
  {
    if Continues(rows, agentId, cursor) {
      CountNeedsNoMore(rows, agentId, rows[cursor.value].parentCid, n - 1, m - 1);
    }
  }

  lemma {:induction false} StopsLater(rows: Table, agentId: Text, cursor: Option<Cid>, n: nat, m: nat)
    requires Stops(rows, agentId, cursor, n) && n <= m
    ensures Stops(rows, agentId, cursor, m)
    decreases n
  {
    if Continues(rows, agentId, cursor) {
      StopsLater(rows, agentId, rows[cursor.value].parentCid, n - 1, m - 1);
    }
  }

  ghost function Count(rows: Table, agentId: Text, c: Cid): nat
    requires !Cyclic(rows, agentId, c)
  {
    NotCyclicStops(rows, agentId, c);
    CountWithin(rows, agentId, Some(c), |rows| + 1)
  }

  lemma StopsSoCounted(rows: Table, agentId: Text, c: Cid, n: nat)
    requires c != "" && Stops(rows, agentId, Some(c), n)
    ensures !Cyclic(rows, agentId, c) && Count(rows, agentId, c) == CountWithin(rows, agentId, Some(c), n)
  {
    if Cyclic(rows, agentId, c) {
      CyclicNeverStops(rows, agentId, c, n);
    }
    NotCyclicStops(rows, agentId, c);
    CountNeedsNoMore(rows, agentId, Some(c), n, |rows| + 1);
  }

  class ArchiveStore {
    var rows: Table

    constructor ()
      ensures rows == map[]
    {
      rows := map[];
    }

    /** manifest_cid is UNIQUE; a second insert throws. */
    method Insert(cid: Cid, row: Row) returns (ok: bool)
      modifies this
      ensures ok <==> cid !in old(rows)
      ensures rows == if ok then old(rows)[cid := row] else old(rows)
    {
      ok := cid !in rows;
      if ok {
        rows := rows[cid := row];
      }
    }

    /** Deletes whichever rows the retention rule selected. */
    method Prune(selected: set<Cid>) returns (deleted: nat)
      modifies this
      ensures rows == old(rows) - selected
      ensures deleted == |old(rows.Keys) * selected|
    {
      deleted := |rows.Keys * selected|;
      rows := rows - selected;
    }

    /** The loop, where it ends. */
    method CountIncrementalChain(agentId: Text, fromCid: Cid) returns (count: nat)
      requires !Cyclic(rows, agentId, fromCid)
      ensures count == Count(rows, agentId, fromCid)
    {
      count := 0;
      var cursor: Option<Cid> := Some(fromCid);
      ghost var left: nat := |rows| + 1;
      NotCyclicStops(rows, agentId, fromCid);
      while Chain.Truthy(cursor)
        invariant Stops(rows, agentId, cursor, left)
        invariant Count(rows, agentId, fromCid) == count + CountWithin(rows, agentId, cursor, left)
        decreases left, Chain.Truthy(cursor)
      {
        if cursor.value !in rows || rows[cursor.value].agentId != agentId {
          break;
        }
        count := count + 1;
        if !rows[cursor.value].incremental {
          cursor := None;
          break;
        }
        cursor := rows[cursor.value].parentCid;
        left := left - 1;
      }
    }
  }
}
