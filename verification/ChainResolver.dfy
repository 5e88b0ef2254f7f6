// The walk over on-chain records.

module ChainResolver {
  import opened Wrappers
  import opened SoulTypes
  import opened CidResolution
  import opened Arithmetic

  import Walks

  datatype BackupChainEntry = BackupChainEntry(record: OnChainBackup, manifest: Manifest)

  datatype BackupChainError =
    | HistoryVanished
    | BrokenChain(parent: Bytes32)
    | NoFullRoot
    | NoResolver
    | ResolverThrew(hash: Bytes32)
    | Unresolved(hash: Bytes32)
    | HashMismatch(hash: Bytes32)
    | ManifestUnavailable(hash: Bytes32)

  const PAGE_SIZE := 50

  /** byManifestCid: a later record with the same CID replaces an earlier one. */
  function Index(log: seq<OnChainBackup>): map<Bytes32, OnChainBackup> {
    if log == [] then map[]
    else Index(log[..|log| - 1])[log[|log| - 1].manifestCid := log[|log| - 1]]
  }

  lemma {:induction false} IndexFinds(log: seq<OnChainBackup>, h: Bytes32)
    ensures h in Index(log) ==> exists i :: 0 <= i < |log| && log[i] == Index(log)[h] && log[i].manifestCid == h
    ensures h !in Index(log) ==> forall i :: 0 <= i < |log| ==> log[i].manifestCid != h
  {
    if log != [] {
      var n := |log| - 1;
      IndexFinds(log[..n], h);
      if h == log[n].manifestCid {
        assert log[n] == Index(log)[h];
      } else if h in Index(log) {
        var i :| 0 <= i < n && log[..n][i] == Index(log[..n])[h] && log[..n][i].manifestCid == h;
        assert log[i] == Index(log)[h];
      } else {
        forall i | 0 <= i < |log| ensures log[i].manifestCid != h {
          assert i < n ==> log[..n][i] == log[i];
        }
      }
    }
  }

  predicate IsIncremental(r: OnChainBackup) {
    r.backupType == 1 && r.parentManifestCid != Zero32
  }

  /** The loop goes on from `r` to the record of its parent. */
  predicate Continues(index: map<Bytes32, OnChainBackup>, r: OnChainBackup) {
    IsIncremental(r) && r.parentManifestCid in index
  }

  /** The parent walk from `r` leaves its loop, normally or by an exception, within n rounds. */
  predicate Stops(index: map<Bytes32, OnChainBackup>, r: OnChainBackup, n: nat)
    decreases n
  {
    Continues(index, r) ==> n > 0 && Stops(index, index[r.parentManifestCid], n - 1)
  }

  /** Which record the walk goes to from each record. */
  ghost function Parents(index: map<Bytes32, OnChainBackup>): map<Bytes32, Bytes32> {
    map h | h in index && Continues(index, index[h]) :: index[h].parentManifestCid
  }

  /** Following parents from `r`, the walk comes back to a record. */
  ghost predicate Cyclic(index: map<Bytes32, OnChainBackup>, r: OnChainBackup) {
    Continues(index, r) && Walks.Revisits(Parents(index), r.parentManifestCid)
  }

  lemma {:induction false} StopsLikeParents(index: map<Bytes32, OnChainBackup>, h: Bytes32, n: nat)
    requires h in index
    ensures Stops(index, index[h], n) <==> Walks.Stops(Parents(index), h, n)
    decreases n
  {
    if Continues(index, index[h]) && n > 0 {
      StopsLikeParents(index, index[h].parentManifestCid, n - 1);
    }
  }

  lemma CyclicNeverStops(index: map<Bytes32, OnChainBackup>, r: OnChainBackup, n: nat)
    requires Cyclic(index, r)
    ensures !Stops(index, r, n)
  {
    if n > 0 {
      StopsLikeParents(index, r.parentManifestCid, n - 1);
      Walks.RevisitingNeverStops(Parents(index), r.parentManifestCid, n - 1);
    }
  }

  lemma NotCyclicStops(index: map<Bytes32, OnChainBackup>, r: OnChainBackup)
    requires !Cyclic(index, r)
    ensures Stops(index, r, |index| + 1)
  {
    if Continues(index, r) {
      Walks.NotRevisitingStops(Parents(index), r.parentManifestCid);
      StopsLikeParents(index, r.parentManifestCid, |Parents(index)|);
      SubsetSize(Parents(index).Keys, index.Keys);
      StopsLater(index, index[r.parentManifestCid], |Parents(index)|, |index|);
    }
  }

  /** The loop has no guard against cycles: it ends, after at most as many rounds as there are
      records, exactly when the parents of the latest record never lead back to a record. */
  lemma WalkEndsIffNotCyclic(index: map<Bytes32, OnChainBackup>, r: OnChainBackup)
    ensures (exists n: nat :: Stops(index, r, n)) <==> !Cyclic(index, r)
    ensures !Cyclic(index, r) ==> Stops(index, r, |index| + 1)
  {
    if Cyclic(index, r) {
      forall n: nat { CyclicNeverStops(index, r, n); }
    } else {
      NotCyclicStops(index, r);
      var n := |index| + 1;
      assert Stops(index, r, n);
      assert exists k: nat :: Stops(index, r, k);
    }
  }

  lemma StopsSoNotCyclic(index: map<Bytes32, OnChainBackup>, r: OnChainBackup, n: nat)
    requires Stops(index, r, n)
    ensures !Cyclic(index, r)
  {
    if Cyclic(index, r) {
      CyclicNeverStops(index, r, n);
    }
  }

  function WalkWithin(index: map<Bytes32, OnChainBackup>, r: OnChainBackup, n: nat)
    : Result<seq<OnChainBackup>, BackupChainError>
    requires Stops(index, r, n)
    decreases n
  {
    if !IsIncremental(r) then Ok([r])
    else if r.parentManifestCid !in index then Err(BrokenChain(r.parentManifestCid))
    else
      match WalkWithin(index, index[r.parentManifestCid], n - 1)
      case Ok(older) => Ok(older + [r])
      case Err(e) => Err(e)
  }

  lemma {:induction false} WalkNeedsNoMore(index: map<Bytes32, OnChainBackup>, r: OnChainBackup, n: nat, m: nat)
    requires Stops(index, r, n) && Stops(index, r, m)
    ensures WalkWithin(index, r, m) == WalkWithin(index, r, n)
    decreases n
  {
    if Continues(index, r) {
      WalkNeedsNoMore(index, index[r.parentManifestCid], n - 1, m - 1);
    }
  }

  lemma {:induction false} StopsLater(index: map<Bytes32, OnChainBackup>, r: OnChainBackup, n: nat, m: nat)
    requires Stops(index, r, n) && n <= m
    ensures Stops(index, r, m)
    decreases n
  {
    if Continues(index, r) {
      StopsLater(index, index[r.parentManifestCid], n - 1, m - 1);
    }
  }

  ghost function WalkBack(index: map<Bytes32, OnChainBackup>, r: OnChainBackup)
    : Result<seq<OnChainBackup>, BackupChainError>
    requires !Cyclic(index, r)
  {
    NotCyclicStops(index, r);
    WalkWithin(index, r, |index| + 1)
  }

  /** The CID behind an on-chain hash; `resolver` is absent when none was configured. */
  function FindCid(h: Bytes32, resolver: Option<Layers>): Result<Cid, BackupChainError> {
    match resolver
    case None => Err(NoResolver)
    case Some(v) =>
      match Lookup(v, h)
      case Threw => Err(ResolverThrew(h))
      case NotFound => Err(Unresolved(h))
      case Found(cid) =>
        if cid == "" then Err(Unresolved(h))
        else if Keccak(cid) != h then Err(HashMismatch(h))
        else Ok(cid)
  }

  function FindManifest(h: Bytes32, store: Store, resolver: Option<Layers>): Result<Manifest, BackupChainError> {
    match FindCid(h, resolver)
    case Err(e) => Err(e)
    case Ok(cid) =>
      match CatManifest(store, cid)
      case Some(m) => Ok(m)
      case None => Err(ManifestUnavailable(h))
  }

  function FindManifests(chain: seq<OnChainBackup>, store: Store, resolver: Option<Layers>)
    : Result<seq<BackupChainEntry>, BackupChainError>
  {
    if chain == [] then Ok([])
    else
      match FindManifests(chain[..|chain| - 1], store, resolver)
      case Err(e) => Err(e)
      case Ok(entries) =>
        var last := chain[|chain| - 1];
        match FindManifest(last.manifestCid, store, resolver)
        case Ok(m) => Ok(entries + [BackupChainEntry(last, m)])
        case Err(e) => Err(e)
  }

  /** What resolveBackupChain makes of the records it collected. */
  ghost function ChainFor(records: seq<OnChainBackup>, store: Store, resolver: Option<Layers>)
    : Result<seq<BackupChainEntry>, BackupChainError>
    requires records != [] ==> !Cyclic(Index(records), records[|records| - 1])
  {
    if records == [] then Err(HistoryVanished)
    else
      match WalkBack(Index(records), records[|records| - 1])
      case Err(e) => Err(e)
      case Ok(chain) =>
        NotCyclicStops(Index(records), records[|records| - 1]);
        WalkIsNonempty(Index(records), records[|records| - 1], |Index(records)| + 1);
        if chain[0].backupType != 0 then Err(NoFullRoot) else FindManifests(chain, store, resolver)
  }

  lemma WalkIsNonempty(index: map<Bytes32, OnChainBackup>, r: OnChainBackup, n: nat)
    requires Stops(index, r, n)
    ensures WalkWithin(index, r, n).Ok? ==> WalkWithin(index, r, n).value != []
  {
  }

  ghost predicate Walkable(records: seq<OnChainBackup>) {
    records != [] ==> !Cyclic(Index(records), records[|records| - 1])
  }

  // ----- The result, from a path of records -----

  /** Records of the index that lead from `r` back, oldest first: each names the one before it as
      the parent of an incremental backup. */
  predicate LeadsBack(index: map<Bytes32, OnChainBackup>, path: seq<OnChainBackup>, r: OnChainBackup) {
    && path != [] && path[|path| - 1] == r
    && forall i :: 0 < i < |path| ==> Follows(index, path[i - 1], path[i])
  }

  predicate Follows(index: map<Bytes32, OnChainBackup>, parent: OnChainBackup, r: OnChainBackup) {
    NamesParent(r) && r.parentManifestCid in index && index[r.parentManifestCid] == parent
  }

  predicate NamesParent(r: OnChainBackup) {
    r.backupType == 1 && r.parentManifestCid != Zero32
  }

  /** The parent it names is not among the records. */
  predicate IsStuck(index: map<Bytes32, OnChainBackup>, r: OnChainBackup) {
    NamesParent(r) && r.parentManifestCid !in index
  }

  lemma {:induction false} PathStops(index: map<Bytes32, OnChainBackup>, path: seq<OnChainBackup>, r: OnChainBackup)
    requires LeadsBack(index, path, r) && (!NamesParent(path[0]) || IsStuck(index, path[0]))
    ensures Stops(index, r, |path|)
    ensures WalkWithin(index, r, |path|)
         == if IsStuck(index, path[0]) then Err(BrokenChain(path[0].parentManifestCid)) else Ok(path)
  {
    if |path| > 1 {
      assert Follows(index, path[|path| - 2], path[|path| - 1]);
      PathStops(index, path[..|path| - 1], path[|path| - 2]);
      assert path == path[..|path| - 1] + [r];
    } else {
      assert path == [r];
    }
  }

  /** The walk back from a record ends in whatever ends the path of its parents: the path itself,
      or the parent that is missing. */
  lemma WalkFollowsPath(index: map<Bytes32, OnChainBackup>, path: seq<OnChainBackup>, r: OnChainBackup)
    requires LeadsBack(index, path, r) && (!NamesParent(path[0]) || IsStuck(index, path[0]))
    ensures !Cyclic(index, r)
    ensures WalkBack(index, r)
         == if IsStuck(index, path[0]) then Err(BrokenChain(path[0].parentManifestCid)) else Ok(path)
  {
    PathStops(index, path, r);
    StopsSoNotCyclic(index, r, |path|);
    NotCyclicStops(index, r);
    WalkNeedsNoMore(index, r, |path|, |index| + 1);
  }

  /** There is such a path whenever the walk ends. */
  lemma {:induction false} EndingWalkHasPath(index: map<Bytes32, OnChainBackup>, r: OnChainBackup, n: nat)
    returns (path: seq<OnChainBackup>)
    requires Stops(index, r, n)
    ensures LeadsBack(index, path, r) && (!NamesParent(path[0]) || IsStuck(index, path[0]))
    decreases n
  {
    if NamesParent(r) && r.parentManifestCid in index {
      var parent := index[r.parentManifestCid];
      var older := EndingWalkHasPath(index, parent, n - 1);
      path := older + [r];
      forall i | 0 < i < |path| ensures Follows(index, path[i - 1], path[i]) {
        assert i < |older| ==> Follows(index, older[i - 1], older[i]);
      }
    } else {
      path := [r];
    }
  }

  ghost predicate ManifestsOutcome(chain: seq<OnChainBackup>, store: Store, resolver: Option<Layers>,
                                   r: Result<seq<BackupChainEntry>, BackupChainError>) {
    match r
    case Ok(entries) =>
      |entries| == |chain| && forall i :: 0 <= i < |chain| ==> Answers(chain[i], store, resolver, entries[i])
    case Err(e) => exists i: nat :: FirstErrorAt(chain, store, resolver, e, i)
  }

  lemma ErrorStaysFirst(chain: seq<OnChainBackup>, store: Store, resolver: Option<Layers>, e: BackupChainError, i: nat)
    requires chain != [] && FirstErrorAt(chain[..|chain| - 1], store, resolver, e, i)
    ensures FirstErrorAt(chain, store, resolver, e, i)
  {
    assert forall j :: 0 <= j < |chain| - 1 ==> chain[..|chain| - 1][j] == chain[j];
  }

  lemma LastErrorIsFirst(chain: seq<OnChainBackup>, store: Store, resolver: Option<Layers>,
                         entries: seq<BackupChainEntry>, e: BackupChainError)
    requires chain != [] && ManifestsOutcome(chain[..|chain| - 1], store, resolver, Ok(entries))
    requires FindManifest(chain[|chain| - 1].manifestCid, store, resolver) == Err(e)
    ensures FirstErrorAt(chain, store, resolver, e, |chain| - 1)
  {
    forall j | 0 <= j < |chain| - 1 ensures FindManifest(chain[j].manifestCid, store, resolver).Ok? {
      assert Answers(chain[..|chain| - 1][j], store, resolver, entries[j]);
    }
  }

  lemma OneMoreOutcome(chain: seq<OnChainBackup>, store: Store, resolver: Option<Layers>,
                       before: Result<seq<BackupChainEntry>, BackupChainError>,
                       last: Result<Manifest, BackupChainError>)
    requires chain != [] && ManifestsOutcome(chain[..|chain| - 1], store, resolver, before)
    requires last == FindManifest(chain[|chain| - 1].manifestCid, store, resolver)
    ensures before.Err? ==> ManifestsOutcome(chain, store, resolver, before)
    ensures before.Ok? && last.Err? ==> ManifestsOutcome(chain, store, resolver, Err(last.error))
    ensures before.Ok? && last.Ok? ==>
              ManifestsOutcome(chain, store, resolver,
                               Ok(before.value + [BackupChainEntry(chain[|chain| - 1], last.value)]))
  {
    if before.Err? {
      var i: nat :| FirstErrorAt(chain[..|chain| - 1], store, resolver, before.error, i);
      ErrorStaysFirst(chain, store, resolver, before.error, i);
    } else if last.Err? {
      LastErrorIsFirst(chain, store, resolver, before.value, last.error);
    } else {
      forall j | 0 <= j < |chain| - 1 ensures Answers(chain[j], store, resolver, before.value[j]) {
        assert chain[..|chain| - 1][j] == chain[j];
      }
    }
  }

  /** The manifests of all the records, or the first error that one of them gives. */
  lemma {:induction false} ManifestsOrFirstError(chain: seq<OnChainBackup>, store: Store, resolver: Option<Layers>)
    ensures ManifestsOutcome(chain, store, resolver, FindManifests(chain, store, resolver))
  {
    if chain != [] {
      var earlier := chain[..|chain| - 1];
      ManifestsOrFirstError(earlier, store, resolver);
      OneMoreOutcome(chain, store, resolver, FindManifests(earlier, store, resolver),
                     FindManifest(chain[|chain| - 1].manifestCid, store, resolver));
    }
  }

  predicate Answers(r: OnChainBackup, store: Store, resolver: Option<Layers>, entry: BackupChainEntry) {
    entry.record == r && FindManifest(r.manifestCid, store, resolver) == Ok(entry.manifest)
  }

  ghost predicate FirstErrorAt(chain: seq<OnChainBackup>, store: Store, resolver: Option<Layers>, e: BackupChainError,
                               i: nat) {
    && i < |chain| && FindManifest(chain[i].manifestCid, store, resolver) == Err(e)
    && forall j :: 0 <= j < i ==> FindManifest(chain[j].manifestCid, store, resolver).Ok?
  }

  /** What recovery over the records answers, given the path of parents of the last one: an error
      if there are no records, if the path breaks off, or if it does not begin with a full backup;
      otherwise its manifests. */
  lemma RecoveryFollowsPath(records: seq<OnChainBackup>, path: seq<OnChainBackup>, store: Store,
                            resolver: Option<Layers>)
    requires records != [] ==> LeadsBack(Index(records), path, records[|records| - 1])
    requires records != [] ==> !NamesParent(path[0]) || IsStuck(Index(records), path[0])
    ensures Walkable(records)
    ensures ChainFor(records, store, resolver)
         == if records == [] then Err(HistoryVanished)
            else if IsStuck(Index(records), path[0]) then Err(BrokenChain(path[0].parentManifestCid))
            else if path[0].backupType != 0 then Err(NoFullRoot)
            else FindManifests(path, store, resolver)
  {
    if records != [] {
      WalkFollowsPath(Index(records), path, records[|records| - 1]);
    }
  }

  // ----- Paging through the history -----

  /** getBackupHistory(agentId, offset, limit) */
  function Page(log: seq<OnChainBackup>, offset: nat, limit: nat): seq<OnChainBackup> {
    if offset >= |log| then []
    else if offset + limit <= |log| then log[offset..offset + limit]
    else log[offset..]
  }

  /** The history as each call finds it: getBackupCount first, then one call per page. */
  type History = nat -> seq<OnChainBackup>

  function Collected(history: History, pages: nat): seq<OnChainBackup> {
    if pages == 0 then []
    else Collected(history, pages - 1) + Page(history(pages), (pages - 1) * PAGE_SIZE, PAGE_SIZE)
  }

  function AllPages(history: History): seq<OnChainBackup> {
    Collected(history, CeilDiv(|history(0)|, PAGE_SIZE))
  }

  ghost predicate OnlyGrows(history: History) {
    forall t: nat, u: nat :: t <= u ==> history(t) <= history(u)
  }

  lemma {:induction false} PagesAddUp(history: History, pages: nat)
    requires OnlyGrows(history) && (pages > 0 ==> (pages - 1) * PAGE_SIZE < |history(0)|)
    ensures var end := pages * PAGE_SIZE;
            Collected(history, pages) == if end <= |history(pages)| then history(pages)[..end] else history(pages)
  {
    if pages > 0 {
      PagesAddUp(history, pages - 1);
      assert history(pages - 1) <= history(pages) && history(0) <= history(pages);
    }
  }

  /** While the chain only grows, the pages add up to a beginning of the history as the last
      call found it, and miss nothing of what was counted. */
  lemma PagesArePrefix(history: History)
    requires OnlyGrows(history)
    ensures exists t: nat :: history(0) <= history(t) && AllPages(history) <= history(t)
    ensures history(0) <= AllPages(history)
  {
    var pages := CeilDiv(|history(0)|, PAGE_SIZE);
    PagesAddUp(history, pages);
    assert history(0) <= history(pages);
  }

  method BuildIndex(all: seq<OnChainBackup>) returns (index: map<Bytes32, OnChainBackup>)
    ensures index == Index(all)
  {
    index := map[];
    for i := 0 to |all|
      invariant index == Index(all[..i])
    {
      assert all[..i + 1][..i] == all[..i];
      index := index[all[i].manifestCid := all[i]];
    }
    assert all[..|all|] == all;
  }

  /** The pages of the history, for the count that was read before them. */
  method FetchHistory(history: History, backupCount: nat) returns (all: seq<OnChainBackup>)
    requires backupCount == |history(0)|
    ensures all == AllPages(history)
  {
    all := [];
    var offset := 0;
    ghost var pages := 0;
    while offset < backupCount
      invariant offset == pages * PAGE_SIZE && (pages > 0 ==> (pages - 1) * PAGE_SIZE < backupCount)
      invariant all == Collected(history, pages)
    {
      all := all + Page(history(offset / PAGE_SIZE + 1), offset, PAGE_SIZE);
      offset := offset + PAGE_SIZE;
      pages := pages + 1;
    }
  }

  // ----- The parent walk and the lookups -----

  function Extend(older: Result<seq<OnChainBackup>, BackupChainError>, chain: seq<OnChainBackup>)
    : Result<seq<OnChainBackup>, BackupChainError>
  {
    match older
    case Ok(rs) => Ok(rs + chain)
    case Err(e) => Err(e)
  }

  /** The loop of resolveBackupChain, where it ends. */
  method WalkRecords(index: map<Bytes32, OnChainBackup>, latest: OnChainBackup)
    returns (r: Result<seq<OnChainBackup>, BackupChainError>)
    requires !Cyclic(index, latest)
    ensures r == WalkBack(index, latest)
  {
    var chain := [latest];
    var current := latest;
    ghost var left: nat := |index| + 1;
    NotCyclicStops(index, latest);
    assert forall rs: seq<OnChainBackup> :: rs + [latest][1..] == rs;
    while IsIncremental(current)
      invariant |chain| > 0 && chain[0] == current
      invariant Stops(index, current, left)
      invariant WalkBack(index, latest) == Extend(WalkWithin(index, current, left), chain[1..])
      decreases left
    {
      if current.parentManifestCid !in index {
        return Err(BrokenChain(current.parentManifestCid));
      }
      var parent := index[current.parentManifestCid];
      assert forall rs: seq<OnChainBackup> :: rs + [current] + chain[1..] == rs + chain;
      assert ([parent] + chain)[1..] == chain;
      chain := [parent] + chain;
      current := parent;
      left := left - 1;
    }
    assert [current] + chain[1..] == chain;
    return Ok(chain);
  }

  ghost function ViewOf(resolver: CidResolver?): Option<Layers>
    reads resolver
  {
    if resolver == null then None else Some(resolver.View())
  }

  /** One turn of findManifestByCidHash; it may fill the resolver's cache, which changes no other
      answer unless the index can be read first and not a second time. */
  method FindManifestByCidHash(h: Bytes32, store: Store, resolver: CidResolver?, rereadable: bool)
    returns (r: Result<Manifest, BackupChainError>)
    modifies resolver
    ensures r == FindManifest(h, store, old(ViewOf(resolver)))
    ensures rereadable || (resolver != null && !old(resolver.indexReadable)) ==>
              forall k :: FindCid(k, ViewOf(resolver)) == FindCid(k, old(ViewOf(resolver)))
    ensures resolver != null ==> resolver.indexReadable == old(resolver.indexReadable)
  {
    if resolver == null {
      return Err(NoResolver);
    }
    var a := resolver.Resolve(h, rereadable);
    forall k
      ensures rereadable || !old(resolver.indexReadable) ==>
                Lookup(resolver.View(), k) == old(Lookup(resolver.View(), k))
    {
      ResolvingChangesNoAnswer(old(resolver.View()), h, rereadable, k);
    }
    if a.Threw? {
      return Err(ResolverThrew(h));
    }
    if a.NotFound? || a.cid == "" {
      return Err(Unresolved(h));
    }
    if Keccak(a.cid) != h {
      return Err(HashMismatch(h));
    }
    var m := CatManifest(store, a.cid);
    return if m.Some? then Ok(m.value) else Err(ManifestUnavailable(h));
  }

  lemma {:induction false} SameAnswersSameManifests(chain: seq<OnChainBackup>, store: Store, a: Option<Layers>,
                                                    b: Option<Layers>)
    requires forall k :: FindCid(k, a) == FindCid(k, b)
    ensures FindManifests(chain, store, a) == FindManifests(chain, store, b)
  {
    if chain != [] {
      SameAnswersSameManifests(chain[..|chain| - 1], store, a, b);
    }
  }

  /** While this runs, the index can be read every time or not at all. */
  method FindAllManifests(chain: seq<OnChainBackup>, store: Store, resolver: CidResolver?)
    returns (r: Result<seq<BackupChainEntry>, BackupChainError>)
    modifies resolver
    ensures r == FindManifests(chain, store, old(ViewOf(resolver)))
  {
    var result: seq<BackupChainEntry> := [];
    ghost var before := ViewOf(resolver);
    for i := 0 to |chain|
      invariant FindManifests(chain[..i], store, before) == Ok(result)
      invariant forall k :: FindCid(k, ViewOf(resolver)) == FindCid(k, before)
    {
      assert chain[..i + 1][..i] == chain[..i];
      var rereadable := resolver == null || resolver.indexReadable;
      var found := FindManifestByCidHash(chain[i].manifestCid, store, resolver, rereadable);
      if found.Err? {
        FirstErrorWins(chain, i + 1, store, before);
        return Err(found.error);
      }
      result := result + [BackupChainEntry(chain[i], found.value)];
    }
    assert chain[..|chain|] == chain;
    return Ok(result);
  }

  ghost function BackupChain(history: History, store: Store, resolver: Option<Layers>)
    : Result<seq<BackupChainEntry>, BackupChainError>
    requires Walkable(AllPages(history))
  {
    if history(0) == [] then Ok([]) else ChainFor(AllPages(history), store, resolver)
  }

  method ResolveBackupChain(history: History, store: Store, resolver: CidResolver?)
    returns (r: Result<seq<BackupChainEntry>, BackupChainError>)
    requires Walkable(AllPages(history))
    modifies resolver
    ensures r == BackupChain(history, store, old(ViewOf(resolver)))
  {
    var backupCount := |history(0)|;
    if backupCount == 0 {
      return Ok([]);
    }
    var all := FetchHistory(history, backupCount);
    if |all| == 0 {
      return Err(HistoryVanished);
    }
    var index := BuildIndex(all);
    var walked := WalkRecords(index, all[|all| - 1]);
    if walked.Err? {
      return Err(walked.error);
    }
    NotCyclicStops(index, all[|all| - 1]);
    WalkIsNonempty(index, all[|all| - 1], |index| + 1);
    if walked.value[0].backupType != 0 {
      return Err(NoFullRoot);
    }
    r := FindAllManifests(walked.value, store, resolver);
  }

  lemma {:induction false} FirstErrorWins(chain: seq<OnChainBackup>, k: nat, store: Store, resolver: Option<Layers>)
    requires k <= |chain| && FindManifests(chain[..k], store, resolver).Err?
    ensures FindManifests(chain, store, resolver) == FindManifests(chain[..k], store, resolver)
  {
    if k < |chain| {
      assert chain[..|chain| - 1][..k] == chain[..k];
      FirstErrorWins(chain[..|chain| - 1], k, store, resolver);
    } else {
      assert chain[..k] == chain;
    }
  }

  /** The shortest cycle: a record that names itself as parent. */
  lemma SelfParentNeverStops(index: map<Bytes32, OnChainBackup>, r: OnChainBackup, n: nat)
    requires IsIncremental(r) && r.parentManifestCid == r.manifestCid
    requires r.manifestCid in index && index[r.manifestCid] == r
    ensures Cyclic(index, r) && !Stops(index, r, n)
  {
    var h := r.manifestCid;
    assert Walks.Reach(Parents(index), h, 0) == Some(h);
    assert Walks.Reach(Parents(index), h, 1) == Some(h);
    CyclicNeverStops(index, r, n);
  }
}
