// Reconstructing a backup chain from a manifest CID.

module Chain {
  import opened Wrappers
  import opened SoulTypes

  datatype ChainError = Circular(cid: Cid) | Unavailable(cid: Cid)

  /** A JavaScript string is falsy when null or empty. */
  predicate Truthy(c: Option<Cid>) {
    c.Some? && c.value != ""
  }

  // ----- resolveChainFromCid -----

  function ResolveChain(store: Store, current: Option<Cid>, visited: set<Cid>): Result<seq<Manifest>, ChainError>
    decreases |store.Keys - visited|
  {
    if !Truthy(current) then Ok([])
    else if current.value in visited then Err(Circular(current.value))
    else
      match CatManifest(store, current.value)
      case None => Err(Unavailable(current.value))
      case Some(m) =>
        OneFewer(store.Keys, visited, current.value);
        match ResolveChain(store, m.parentCid, visited + {current.value})
        case Ok(older) => Ok(older + [m])
        case Err(e) => Err(e)
  }

  lemma OneFewer(all: set<Cid>, visited: set<Cid>, c: Cid)
    requires c in all && c !in visited
    ensures |all - (visited + {c})| < |all - visited|
  {
    assert all - visited == (all - (visited + {c})) + {c};
  }

  /** `chain` read so far, newest last, in front of which the older manifests go. */
  function Prepend(older: Result<seq<Manifest>, ChainError>, chain: seq<Manifest>): Result<seq<Manifest>, ChainError> {
    match older
    case Ok(ms) => Ok(ms + chain)
    case Err(e) => Err(e)
  }

  method ResolveChainFromCid(manifestCid: Cid, store: Store) returns (r: Result<seq<Manifest>, ChainError>)
    ensures r == ResolveChain(store, Some(manifestCid), {})
  {
    var chain: seq<Manifest> := [];
    var visited: set<Cid> := {};
    var currentCid: Option<Cid> := Some(manifestCid);
    assert forall ms: seq<Manifest> :: ms + [] == ms;
    while Truthy(currentCid)
      invariant ResolveChain(store, Some(manifestCid), {}) == Prepend(ResolveChain(store, currentCid, visited), chain)
      decreases |store.Keys - visited|
    {
      if currentCid.value in visited {
        return Err(Circular(currentCid.value));
      }
      match CatManifest(store, currentCid.value)
      case None =>
        return Err(Unavailable(currentCid.value));
      case Some(manifest) =>
        OneFewer(store.Keys, visited, currentCid.value);
        assert forall older: seq<Manifest> :: (older + [manifest]) + chain == older + ([manifest] + chain);
        visited := visited + {currentCid.value};
        chain := [manifest] + chain;
        currentCid := manifest.parentCid;
    }
    assert [] + chain == chain;
    return Ok(chain);
  }

  // ----- The parent walk it follows -----

  function Parent(store: Store, c: Cid): Option<Cid> {
    match CatManifest(store, c)
    case Some(m) => if Truthy(m.parentCid) then m.parentCid else None
    case None => None
  }

  /** The CID reached after following n parent links, if the walk gets that far. */
  function Walk(store: Store, start: Cid, n: nat): Option<Cid> {
    if n == 0 then (if start != "" then Some(start) else None)
    else
      match Walk(store, start, n - 1)
      case Some(c) => Parent(store, c)
      case None => None
  }

  ghost predicate Visited(store: Store, start: Cid, n: nat, visited: set<Cid>) {
    && (forall c :: c in visited ==> exists i :: 0 <= i < n && Walk(store, start, i) == Some(c))
    && (forall i :: 0 <= i < n ==> Walk(store, start, i).Some? && Walk(store, start, i).value in visited)
    && (forall i, j :: 0 <= i < j < n ==> Walk(store, start, i) != Walk(store, start, j))
  }

  /** What each outcome says about the walk. */
  ghost predicate Outcome(store: Store, start: Cid, n: nat, r: Result<seq<Manifest>, ChainError>) {
    match r
    case Ok(chain) =>
      var total := n + |chain|;
      && Walk(store, start, total) == None
      && (forall i, j :: 0 <= i < j < total ==> Walk(store, start, i) != Walk(store, start, j))
      && (forall i :: n <= i < total ==>
            && Walk(store, start, i).Some?
            && CatManifest(store, Walk(store, start, i).value) == Some(chain[total - 1 - i]))
    case Err(Circular(c)) =>
      exists i, j :: 0 <= i < j && Walk(store, start, i) == Some(c) && Walk(store, start, j) == Some(c)
    case Err(Unavailable(c)) => exists i: nat :: Walk(store, start, i) == Some(c) && CatManifest(store, c) == None
  }

  lemma VisitedOneMore(store: Store, start: Cid, n: nat, c: Cid, visited: set<Cid>)
    requires Visited(store, start, n, visited) && Walk(store, start, n) == Some(c) && c !in visited
    ensures Visited(store, start, n + 1, visited + {c})
  {
    forall i, j | 0 <= i < j < n + 1 ensures Walk(store, start, i) != Walk(store, start, j) {
      if j == n {
        assert Walk(store, start, i).value in visited;
      }
    }
    forall v | v in visited + {c} ensures exists i :: 0 <= i < n + 1 && Walk(store, start, i) == Some(v) {
      if v in visited {
        var i :| 0 <= i < n && Walk(store, start, i) == Some(v);
      } else {
        assert Walk(store, start, n) == Some(v);
      }
    }
  }

  lemma OutcomeAtEnd(store: Store, start: Cid, n: nat, current: Option<Cid>, visited: set<Cid>)
    requires Visited(store, start, n, visited)
    requires Walk(store, start, n) == if Truthy(current) then current else None
    requires Truthy(current) ==> current.value in visited || CatManifest(store, current.value) == None
    ensures Outcome(store, start, n, ResolveChain(store, current, visited))
  {
  }

  lemma OutcomeOneEarlier(store: Store, start: Cid, n: nat, c: Cid, m: Manifest, r: Result<seq<Manifest>, ChainError>)
    requires Walk(store, start, n) == Some(c) && CatManifest(store, c) == Some(m)
    requires Outcome(store, start, n + 1, r)
    ensures Outcome(store, start, n, Prepend(r, [m]))
  {
  }

  lemma {:induction false} ResolveFollowsWalk(store: Store, start: Cid, n: nat, current: Option<Cid>, visited: set<Cid>)
    requires Visited(store, start, n, visited)
    requires Walk(store, start, n) == if Truthy(current) then current else None
    ensures Outcome(store, start, n, ResolveChain(store, current, visited))
    decreases |store.Keys - visited|
  {
    if !Truthy(current) || current.value in visited || CatManifest(store, current.value) == None {
      OutcomeAtEnd(store, start, n, current, visited);
    } else {
      var m := CatManifest(store, current.value).value;
      var visited' := visited + {current.value};
      OneFewer(store.Keys, visited, current.value);
      VisitedOneMore(store, start, n, current.value, visited);
      assert Walk(store, start, n + 1) == Parent(store, current.value);
      ResolveFollowsWalk(store, start, n + 1, m.parentCid, visited');
      OutcomeOneEarlier(store, start, n, current.value, m, ResolveChain(store, m.parentCid, visited'));
    }
  }

  lemma {:induction false} EndedWalkStaysEnded(store: Store, start: Cid, m: nat, n: nat)
    requires m <= n && Walk(store, start, m) == None
    ensures Walk(store, start, n) == None
    decreases n
  {
    if m < n {
      EndedWalkStaysEnded(store, start, m, n - 1);
    }
  }

  lemma {:induction false} WalkRepeats(store: Store, start: Cid, i: nat, j: nat, k: nat)
    requires Walk(store, start, i) == Walk(store, start, j)
    ensures Walk(store, start, i + k) == Walk(store, start, j + k)
  {
    if k > 0 {
      WalkRepeats(store, start, i, j, k - 1);
    }
  }

  lemma {:induction false} CircularWalkNeverEnds(store: Store, start: Cid, i: nat, j: nat, n: nat)
    requires i < j && Walk(store, start, i).Some? && Walk(store, start, i) == Walk(store, start, j)
    ensures Walk(store, start, n).Some?
    decreases n
  {
    if n < j {
      if Walk(store, start, n) == None {
        EndedWalkStaysEnded(store, start, n, j);
      }
    } else {
      CircularWalkNeverEnds(store, start, i, j, n - (j - i));
      WalkRepeats(store, start, i, j, n - j);
    }
  }

  ghost predicate Revisits(store: Store, start: Cid) {
    exists i, j :: 0 <= i < j && Walk(store, start, i).Some? && Walk(store, start, i) == Walk(store, start, j)
  }

  ghost predicate HitsUnavailable(store: Store, start: Cid) {
    exists i: nat :: Walk(store, start, i).Some? && CatManifest(store, Walk(store, start, i).value) == None
  }

  /** On every store the resolver stops; it reports a circle exactly when the parent walk
      revisits a CID, a missing manifest exactly when the walk meets one, and otherwise the
      whole walk, oldest manifest first. */
  lemma ResolveChainOutcome(store: Store, start: Cid)
    ensures var r := ResolveChain(store, Some(start), {});
            && Outcome(store, start, 0, r)
            && ((r.Err? && r.error.Circular?) <==> Revisits(store, start))
            && ((r.Err? && r.error.Unavailable?) <==> HitsUnavailable(store, start))
  {
    var r := ResolveChain(store, Some(start), {});
    ResolveFollowsWalk(store, start, 0, Some(start), {});
    if r.Ok? {
      var total := |r.value|;
      forall i: nat ensures Walk(store, start, i).Some? ==> i < total {
        if total <= i { EndedWalkStaysEnded(store, start, total, i); }
      }
    } else if r.error.Circular? {
      var c := r.error.cid;
      var i, j :| 0 <= i < j && Walk(store, start, i) == Some(c) && Walk(store, start, j) == Some(c);
      forall n: nat | Walk(store, start, n).Some? ensures CatManifest(store, Walk(store, start, n).value).Some? {
        CircularWalkNeverEnds(store, start, i, j, n + 1);
      }
    } else {
      var n: nat :| Walk(store, start, n) == Some(r.error.cid) && CatManifest(store, r.error.cid) == None;
      assert Walk(store, start, n + 1) == None;
      forall i, j | 0 <= i < j && Walk(store, start, i).Some? ensures Walk(store, start, i) != Walk(store, start, j) {
        if Walk(store, start, i) == Walk(store, start, j) {
          CircularWalkNeverEnds(store, start, i, j, n + 1);
        }
      }
    }
  }

  // ----- Stores in which every parent was written before its child -----

  /** `rank` numbers some manifests of the store in an order that puts parents first. */
  ghost predicate Ranked(store: Store, rank: map<Cid, nat>) {
    forall c {:trigger RankedAt(store, rank, c)} :: c in rank ==> RankedAt(store, rank, c)
  }

  ghost predicate RankedAt(store: Store, rank: map<Cid, nat>, c: Cid)
    requires c in rank
  {
    && ValidCid(c) && c in store && store[c].Json?
    && var p := store[c].manifest.parentCid;
       p.Some? ==> p.value in rank && rank[p.value] < rank[c]
  }

  /** The manifests from the root of the chain to `c`, oldest first. */
  ghost function Links(store: Store, rank: map<Cid, nat>, c: Cid): (chain: seq<Manifest>)
    requires Ranked(store, rank) && c in rank
    ensures c in store && store[c].Json? && chain != [] && chain[|chain| - 1] == store[c].manifest
    ensures chain[0].parentCid == None
    decreases rank[c]
  {
    assert RankedAt(store, rank, c);
    var m := store[c].manifest;
    (if m.parentCid.Some? then Links(store, rank, m.parentCid.value) else []) + [m]
  }

  /** No manifest of the chain exceeds the size the client agrees to read. */
  ghost predicate Fetchable(store: Store, rank: map<Cid, nat>, c: Cid)
    requires Ranked(store, rank) && c in rank
    decreases rank[c]
  {
    assert RankedAt(store, rank, c);
    && store[c].size <= MAX_MANIFEST_BYTES
    && (store[c].manifest.parentCid.Some? ==> Fetchable(store, rank, store[c].manifest.parentCid.value))
  }

  /** There, the circular error cannot occur, and the chain is found exactly when every
      manifest on it is small enough to be read back. */
  lemma {:induction false} RankedChainResolves(store: Store, rank: map<Cid, nat>, c: Cid, visited: set<Cid>)
    requires Ranked(store, rank) && c in rank
    requires forall v :: v in visited ==> v in rank && rank[c] < rank[v]
    ensures var r := ResolveChain(store, Some(c), visited);
            && (Fetchable(store, rank, c) ==> r == Ok(Links(store, rank, c)))
            && (!Fetchable(store, rank, c) ==> r.Err? && r.error.Unavailable?)
    decreases rank[c]
  {
    assert RankedAt(store, rank, c);
    var m := store[c].manifest;
    if store[c].size <= MAX_MANIFEST_BYTES && m.parentCid.Some? {
      RankedChainResolves(store, rank, m.parentCid.value, visited + {c});
    }
  }

  lemma {:induction false} LinksSurviveGrowth(s: Store, rank: map<Cid, nat>, s': Store, rank': map<Cid, nat>, c: Cid)
    requires Ranked(s, rank) && Ranked(s', rank') && c in rank && c in rank'
    requires Grows(s, s')
    ensures Links(s', rank', c) == Links(s, rank, c)
    decreases rank[c]
  {
    assert RankedAt(s, rank, c) && RankedAt(s', rank', c);
    var p := s[c].manifest.parentCid;
    if p.Some? {
      LinksSurviveGrowth(s, rank, s', rank', p.value);
    }
  }
}
