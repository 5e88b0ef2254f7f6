// Recovery of a soul from nothing but its agent id.

module ChainRecovery {
  import opened Wrappers
  import opened SoulTypes
  import opened FileSystem
  import opened Downloader
  import opened CidResolution
  import opened StateRestorer

  import ChainResolver

  datatype SoulInfo = SoulInfo(active: bool, backupCount: nat)

  datatype RecoveryError =
    | SoulUnavailable
    | NotActive
    | NoBackups
    | LatestUnavailable
    | CidNotFound(error: ChainResolver.BackupChainError)
    | RestoreFailed(cause: RestoreError)

  /** The manifest CID that an agent's chain state leads to.  `info` and `latest` are the
      answers of the chain client, absent when the call failed. */
  function Target(info: Option<SoulInfo>, latest: Option<OnChainBackup>, resolver: Option<Layers>)
    : Result<Cid, RecoveryError>
  {
    match info
    case None => Err(SoulUnavailable)
    case Some(soul) =>
      if !soul.active then Err(NotActive)
      else if soul.backupCount == 0 then Err(NoBackups)
      else
        match latest
        case None => Err(LatestUnavailable)
        case Some(record) =>
          match ChainResolver.FindCid(record.manifestCid, resolver)
          case Ok(cid) => Ok(cid)
          case Err(e) => Err(CidNotFound(e))
  }

  ghost function RestoredFromChain(info: Option<SoulInfo>, latest: Option<OnChainBackup>, resolver: Option<Layers>,
                                   site: Site, again: ChainView, ord: KeyOrder, d: Disk)
    : (Result<RecoveryResult, RecoveryError>, Disk)
    requires forall m :: Listed(m, ord)
  {
    match Target(info, latest, resolver)
    case Err(e) => (Err(e), d)
    case Ok(cid) =>
      var (r, e) := Restored(cid, site, again, ord, d);
      (if r.Ok? then Ok(r.value) else Err(RestoreFailed(r.error)), e)
  }

  /** The resolver leads from the hash to this CID. */
  predicate LeadsTo(resolver: Option<Layers>, h: Bytes32, c: Cid) {
    resolver.Some? && Lookup(resolver.value, h) == Found(c) && c != ""
  }

  lemma FoundCidLeads(resolver: Option<Layers>, h: Bytes32, c: Cid)
    ensures ChainResolver.FindCid(h, resolver) == Ok(c) <==> LeadsTo(resolver, h, c)
    ensures ChainResolver.FindCid(h, resolver).Err? <==> forall x :: !LeadsTo(resolver, h, x)
  {
    if resolver.Some? {
      AnswersAreCoherent(resolver.value, resolver.value, h, true);
      var a := Lookup(resolver.value, h);
      assert a.Found? && a.cid != "" ==> LeadsTo(resolver, h, a.cid);
    }
  }

  predicate HasBackups(info: Option<SoulInfo>) {
    info.Some? && info.value.active && info.value.backupCount > 0
  }

  lemma TargetIsExact(info: Option<SoulInfo>, latest: Option<OnChainBackup>, resolver: Option<Layers>, c: Cid)
    ensures var r := Target(info, latest, resolver);
            && (r == Err(SoulUnavailable) <==> info == None)
            && (r == Err(NotActive) <==> info.Some? && !info.value.active)
            && (r == Err(NoBackups) <==> info.Some? && info.value.active && info.value.backupCount == 0)
            && (r == Err(LatestUnavailable) <==> HasBackups(info) && latest == None)
            && (r.Err? && r.error.CidNotFound? <==>
                  HasBackups(info) && latest.Some? && forall x :: !LeadsTo(resolver, latest.value.manifestCid, x))
            && (r == Ok(c) <==> HasBackups(info) && latest.Some? && LeadsTo(resolver, latest.value.manifestCid, c))
            && (r.Err? ==> !r.error.RestoreFailed?)
  {
    if latest.Some? {
      FoundCidLeads(resolver, latest.value.manifestCid, c);
    }
  }

  /** Which error recovery by agent id throws, exactly; and any error leaves the disk as it was. */
  lemma RecoveryErrorsAreExact(info: Option<SoulInfo>, latest: Option<OnChainBackup>, resolver: Option<Layers>,
                               site: Site, again: ChainView, ord: KeyOrder, d: Disk, c: Cid)
    requires forall m :: Listed(m, ord)
    ensures var (r, after) := RestoredFromChain(info, latest, resolver, site, again, ord, d);
            && (r.Err? ==> after == d)
            && (r == Err(SoulUnavailable) <==> info == None)
            && (r == Err(NotActive) <==> info.Some? && !info.value.active)
            && (r == Err(NoBackups) <==> info.Some? && info.value.active && info.value.backupCount == 0)
            && (r == Err(LatestUnavailable) <==> HasBackups(info) && latest == None)
            && (r.Err? && r.error.CidNotFound? <==>
                  HasBackups(info) && latest.Some? && forall x :: !LeadsTo(resolver, latest.value.manifestCid, x))
            && (HasBackups(info) && latest.Some? && LeadsTo(resolver, latest.value.manifestCid, c) ==>
                  var (restored, disk) := Restored(c, site, again, ord, d);
                  after == disk && r == if restored.Ok? then Ok(restored.value) else Err(RestoreFailed(restored.error)))
  {
    TargetIsExact(info, latest, resolver, c);
    var target := Target(info, latest, resolver);
    if target.Ok? {
      RestoreErrorLeavesDisk(target.value, site, again, ord, d);
    }
  }

  lemma RestoreErrorLeavesDisk(c: Cid, site: Site, soul: ChainView, ord: KeyOrder, d: Disk)
    requires forall m :: Listed(m, ord)
    ensures Restored(c, site, soul, ord, d).0.Err? ==> Restored(c, site, soul, ord, d).1 == d
  {
    RefusedUntouched(c, site, soul, ord, d, EmptyChain);
  }

  /** `again` is what getLatestBackup answers the second time, during the anchor check, and
      `rereadable` whether the resolver can read its index a second time. */
  method RestoreFromChain(info: Option<SoulInfo>, latest: Option<OnChainBackup>, resolver: CidResolver?,
                          rereadable: bool, site: Site, again: ChainView, ord: KeyOrder, fs: FileStore)
    returns (r: Result<RecoveryResult, RecoveryError>)
    requires forall m :: Listed(m, ord)
    modifies fs, resolver
    ensures (r, fs.View()) == RestoredFromChain(info, latest, old(ChainResolver.ViewOf(resolver)), site, again, ord,
                                                old(fs.View()))
  {
    if info.None? {
      return Err(SoulUnavailable);
    }
    if !info.value.active {
      return Err(NotActive);
    }
    if info.value.backupCount == 0 {
      return Err(NoBackups);
    }
    if latest.None? {
      return Err(LatestUnavailable);
    }
    var cidHash := latest.value.manifestCid;
    if resolver == null {
      return Err(CidNotFound(ChainResolver.NoResolver));
    }
    var a := resolver.Resolve(cidHash, rereadable);
    if a.Threw? {
      return Err(CidNotFound(ChainResolver.ResolverThrew(cidHash)));
    }
    if a.NotFound? || a.cid == "" {
      return Err(CidNotFound(ChainResolver.Unresolved(cidHash)));
    }
    if Keccak(a.cid) != cidHash {
      return Err(CidNotFound(ChainResolver.HashMismatch(cidHash)));
    }
    var restored := RestoreFromManifestCid(a.cid, site, again, ord, fs);
    r := match restored
         case Ok(v) => Ok(v)
         case Err(e) => Err(RestoreFailed(e));
  }
}

/** What the two on-chain recovery paths give for the histories the scheduler writes. */
module ChainRecoveryProofs {
  import opened Wrappers
  import opened SoulTypes
  import opened FileSystem
  import opened Downloader
  import opened Chain
  import opened CidResolution
  import opened ChainResolver
  import opened StateRestorer
  import opened ChainRecovery
  import opened SchedulerModel
  import opened SchedulerSafety
  import opened ChainBound
  import opened RoundTrip

  predicate Findable(v: Layers, c: Cid) {
    Lookup(v, Keccak(c)) == Found(c)
  }

  /** Every stored manifest CID can be found again from its hash. */
  ghost predicate Registered(w: World, v: Layers) {
    forall c {:trigger Findable(v, c)} :: c in w.origins ==> Findable(v, c)
  }

  /** What registering one CID after the other leaves behind; `readable` says before which
      of them the index could be read. */
  function AfterRegistering(v: Layers, cids: seq<Cid>, readable: seq<bool>): Layers
    requires |cids| == |readable|
  {
    if cids == [] then v
    else
      var n := |cids| - 1;
      var u := AfterRegistering(v, cids[..n], readable[..n]);
      AfterRegister(u.(indexReadable := readable[n]), Keccak(cids[n]), cids[n])
  }

  /** `c` was registered, or known before, and no failed read has come after. */
  ghost predicate Kept(v: Layers, cids: seq<Cid>, readable: seq<bool>, c: Cid)
    requires |cids| == |readable|
  {
    || (Matches(v.local, Keccak(c)) && forall j :: 0 <= j < |readable| ==> readable[j])
    || (exists i :: 0 <= i < |cids| && cids[i] == c && forall j :: i < j < |readable| ==> readable[j])
  }

  lemma KeptOneMore(v: Layers, cids: seq<Cid>, readable: seq<bool>, c: Cid)
    requires |cids| == |readable| > 0
    ensures var n := |cids| - 1;
            Kept(v, cids, readable, c) <==> cids[n] == c || (readable[n] && Kept(v, cids[..n], readable[..n], c))
  {
    var n := |cids| - 1;
    if readable[n] && Kept(v, cids[..n], readable[..n], c) {
      if i :| 0 <= i < n && cids[..n][i] == c && forall j :: i < j < n ==> readable[..n][j] {
        assert cids[i] == c && forall j :: i < j < n ==> readable[j] by {
          forall j | i < j < n ensures readable[j] { assert readable[..n][j]; }
        }
      } else {
        forall j | 0 <= j < n ensures readable[j] { assert readable[..n][j]; }
      }
    }
    if Kept(v, cids, readable, c) && cids[n] != c {
      if i :| 0 <= i < |cids| && cids[i] == c && forall j :: i < j < |readable| ==> readable[j] {
        assert cids[..n][i] == c;
      }
    }
  }

  /** The index holds a CID after a series of registrations exactly when it was registered, or
      known before, and the index could be read before every one that followed. */
  lemma {:induction false} RegisteringKeepsExactly(v: Layers, cids: seq<Cid>, readable: seq<bool>, c: Cid)
    requires v.indexWritable && |cids| == |readable|
    ensures AfterRegistering(v, cids, readable).indexWritable
    ensures Matches(AfterRegistering(v, cids, readable).local, Keccak(c)) <==> Kept(v, cids, readable, c)
  {
    if cids != [] {
      var n := |cids| - 1;
      RegisteringKeepsExactly(v, cids[..n], readable[..n], c);
      KeptOneMore(v, cids, readable, c);
    }
  }

  /** So registering CIDs in any order over any index makes each of them findable, as long as
      no read of the index fails on the way. */
  lemma RegisteringMakesFindable(v: Layers, cids: seq<Cid>, readable: seq<bool>, c: Cid)
    requires v.indexWritable && |cids| == |readable| && c in cids
    requires forall j :: 0 <= j < |readable| ==> readable[j]
    ensures Findable(AfterRegistering(v, cids, readable).(indexReadable := true), c)
  {
    RegisteringKeepsExactly(v, cids, readable, c);
    var i :| 0 <= i < |cids| && cids[i] == c;
    assert Kept(v, cids, readable, c);
  }

  /** The record of a stored manifest. */
  ghost function Record(w: World, c: Cid): OnChainBackup
    requires c in w.store && w.store[c].Json?
  {
    RecordOf(c, w.store[c].manifest)
  }

  /** The index holds, under each anchored CID, the record of its manifest. */
  lemma IndexedRecord(cfg: Config, w: World, c: Cid)
    requires WorldOk(cfg, w) && c in w.origins && OnChain(w.log, c)
    ensures c in w.store && w.store[c].Json?
    ensures Keccak(c) in Index(w.log) && Index(w.log)[Keccak(c)] == Record(w, c)
    ensures w.store[c].manifest.parentCid.Some? ==> OnChain(w.log, w.store[c].manifest.parentCid.value)
  {
    IndexFinds(w.log, Keccak(c));
    var i :| 0 <= i < |w.log| && w.log[i] == Index(w.log)[Keccak(c)] && w.log[i].manifestCid == Keccak(c);
    assert RecordOk(w, i);
    assert StoredManifest(cfg, w, c);
    var p := w.store[c].manifest.parentCid;
    if p.Some? {
      assert StoredManifest(cfg, w, p.value);
      assert OnChain(w.log[..i], p.value);
      var j :| 0 <= j < i && w.log[..i][j].manifestCid == Keccak(p.value);
      assert w.log[j].manifestCid == Keccak(p.value);
    }
  }

  /** The records of the chain that ends at `c`, oldest first. */
  ghost function Records(w: World, c: Cid): (rs: seq<OnChainBackup>)
    requires RankedWorld(w) && c in w.origins
    ensures rs != []
    decreases Ranks(w.origins)[c]
  {
    assert RankedAt(w.store, Ranks(w.origins), c);
    var p := w.store[c].manifest.parentCid;
    (if p.Some? then Records(w, p.value) else []) + [Record(w, c)]
  }

  /** The walk from an incremental record, given the walk from its parent. */
  lemma OneMoreRound(index: map<Bytes32, OnChainBackup>, r: OnChainBackup, n: nat, m: nat)
    requires Continues(index, r) && m < n
    requires ChainResolver.Stops(index, index[r.parentManifestCid], m)
    ensures ChainResolver.Stops(index, r, n)
    ensures WalkWithin(index, r, n) == Extend(WalkWithin(index, index[r.parentManifestCid], m), [r])
  {
    StopsLater(index, index[r.parentManifestCid], m, n - 1);
    WalkNeedsNoMore(index, index[r.parentManifestCid], m, n - 1);
  }

  lemma {:induction false} RecordsAreWalkedWithin(cfg: Config, w: World, c: Cid)
    requires WorldOk(cfg, w) && RankedWorld(w) && c in w.origins && OnChain(w.log, c)
    ensures c in w.store && w.store[c].Json?
    ensures ChainResolver.Stops(Index(w.log), Record(w, c), Ranks(w.origins)[c])
    ensures WalkWithin(Index(w.log), Record(w, c), Ranks(w.origins)[c]) == Ok(Records(w, c))
    decreases Ranks(w.origins)[c]
  {
    IndexedRecord(cfg, w, c);
    assert StoredManifest(cfg, w, c) && RankedAt(w.store, Ranks(w.origins), c);
    var p := w.store[c].manifest.parentCid;
    if p.Some? {
      RecordsAreWalkedWithin(cfg, w, p.value);
      ParentIsIndexed(cfg, w, c);
      OneMoreRound(Index(w.log), Record(w, c), Ranks(w.origins)[c], Ranks(w.origins)[p.value]);
    } else {
      assert Records(w, c) == [Record(w, c)];
    }
  }

  lemma RecordsAreWalked(cfg: Config, w: World, c: Cid)
    requires WorldOk(cfg, w) && RankedWorld(w) && c in w.origins && OnChain(w.log, c)
    ensures c in w.store && w.store[c].Json?
    ensures !Cyclic(Index(w.log), Record(w, c))
    ensures WalkBack(Index(w.log), Record(w, c)) == Ok(Records(w, c))
  {
    RecordsAreWalkedWithin(cfg, w, c);
    var index, r, n := Index(w.log), Record(w, c), Ranks(w.origins)[c];
    StopsSoNotCyclic(index, r, n);
    NotCyclicStops(index, r);
    WalkNeedsNoMore(index, r, |index| + 1, n);
  }

  lemma ParentIsIndexed(cfg: Config, w: World, c: Cid)
    requires WorldOk(cfg, w) && c in w.origins && OnChain(w.log, c)
    requires c in w.store && w.store[c].Json? && w.store[c].manifest.parentCid.Some?
    ensures var p := w.store[c].manifest.parentCid.value;
            && p in w.store && w.store[p].Json? && p in w.origins && Ranks(w.origins)[p] < Ranks(w.origins)[c]
            && IsIncremental(Record(w, c)) && Record(w, c).parentManifestCid in Index(w.log)
            && Index(w.log)[Record(w, c).parentManifestCid] == Record(w, p)
  {
    IndexedRecord(cfg, w, c);
    assert StoredManifest(cfg, w, c);
    var p := w.store[c].manifest.parentCid.value;
    assert StoredManifest(cfg, w, p);
    IndexedRecord(cfg, w, p);
  }

  /** Oldest first: a full backup, then incrementals that each name the one before. */
  ghost predicate Linked(rs: seq<OnChainBackup>) {
    && rs != [] && rs[0].backupType == 0 && rs[0].parentManifestCid == Zero32
    && forall i :: 0 < i < |rs| ==> rs[i].backupType == 1 && rs[i].parentManifestCid == rs[i - 1].manifestCid
  }

  lemma {:induction false} RecordsAreLinked(cfg: Config, w: World, c: Cid)
    requires WorldOk(cfg, w) && RankedWorld(w) && c in w.origins
    ensures c in w.store && w.store[c].Json?
    ensures Linked(Records(w, c)) && Records(w, c)[|Records(w, c)| - 1] == Record(w, c)
    decreases Ranks(w.origins)[c]
  {
    assert StoredManifest(cfg, w, c) && RankedAt(w.store, Ranks(w.origins), c);
    var p := w.store[c].manifest.parentCid;
    if p.Some? {
      assert StoredManifest(cfg, w, p.value);
      RecordsAreLinked(cfg, w, p.value);
    }
  }

  function ManifestsIn(entries: seq<BackupChainEntry>): seq<Manifest> {
    seq(|entries|, i requires 0 <= i < |entries| => entries[i].manifest)
  }

  function RecordsIn(entries: seq<BackupChainEntry>): seq<OnChainBackup> {
    seq(|entries|, i requires 0 <= i < |entries| => entries[i].record)
  }

  /** Looking the manifests up, one record after the other. */
  lemma OneMoreManifest(front: seq<OnChainBackup>, r: OnChainBackup, store: Store, resolver: Option<Layers>)
    ensures var before := FindManifests(front, store, resolver);
            var found := FindManifest(r.manifestCid, store, resolver);
            var after := FindManifests(front + [r], store, resolver);
            && (before.Err? ==> after == before)
            && (before.Ok? && found.Err? ==> after == Err(found.error))
            && (before.Ok? && found.Ok? ==> after == Ok(before.value + [BackupChainEntry(r, found.value)]))
  {
  }

  /** Both projections of a chain with one more entry. */
  lemma OneMoreEntry(front: seq<BackupChainEntry>, r: OnChainBackup, m: Manifest)
    ensures ManifestsIn(front + [BackupChainEntry(r, m)]) == ManifestsIn(front) + [m]
    ensures RecordsIn(front + [BackupChainEntry(r, m)]) == RecordsIn(front) + [r]
  {
  }

  ghost predicate Lists(r: Result<seq<BackupChainEntry>, BackupChainError>, ok: bool, records: seq<OnChainBackup>,
                        manifests: seq<Manifest>) {
    && (r.Ok? <==> ok)
    && (r.Ok? ==> ManifestsIn(r.value) == manifests && RecordsIn(r.value) == records)
    && (r.Err? ==> r.error.ManifestUnavailable?)
  }

  lemma RecordLeadsToManifest(cfg: Config, w: World, c: Cid, store: Store, v: Layers)
    requires WorldOk(cfg, w) && c in w.origins && Grows(w.store, store) && Registered(w, v)
    ensures c in w.store && w.store[c].Json? && c in store && store[c] == w.store[c]
    ensures var r := FindManifest(Keccak(c), store, Some(v));
            if store[c].size <= MAX_MANIFEST_BYTES then r == Ok(w.store[c].manifest)
            else r == Err(ManifestUnavailable(Keccak(c)))
  {
    assert StoredManifest(cfg, w, c) && Findable(v, c);
  }

  lemma {:induction false} RecordsGiveManifests(cfg: Config, w: World, c: Cid, store: Store, v: Layers)
    requires WorldOk(cfg, w) && RankedWorld(w) && c in w.origins
    requires Grows(w.store, store) && Ranked(store, Ranks(w.origins)) && Registered(w, v)
    ensures Lists(FindManifests(Records(w, c), store, Some(v)), Fetchable(store, Ranks(w.origins), c), Records(w, c),
                  ChainOf(w, c))
    decreases Ranks(w.origins)[c]
  {
    RecordLeadsToManifest(cfg, w, c, store, v);
    assert RankedAt(w.store, Ranks(w.origins), c) && RankedAt(store, Ranks(w.origins), c);
    var p := w.store[c].manifest.parentCid;
    var front := if p.Some? then Records(w, p.value) else [];
    if p.Some? {
      RecordsGiveManifests(cfg, w, p.value, store, v);
    }
    OneMoreManifest(front, Record(w, c), store, Some(v));
    var before := FindManifests(front, store, Some(v));
    if before.Ok? {
      OneMoreEntry(before.value, Record(w, c), w.store[c].manifest);
    }
  }

  ghost function LastAnchored(w: World): Cid
    requires w.log != [] && w.log[|w.log| - 1].manifestCid.Keccak?
  {
    w.log[|w.log| - 1].manifestCid.cid
  }

  lemma LastRecord(cfg: Config, w: World)
    requires WorldOk(cfg, w) && w.log != []
    ensures w.log[|w.log| - 1].manifestCid.Keccak? && LastAnchored(w) in w.origins && OnChain(w.log, LastAnchored(w))
    ensures LastAnchored(w) in w.store && w.store[LastAnchored(w)].Json?
    ensures w.log[|w.log| - 1] == Record(w, LastAnchored(w))
  {
    assert RecordOk(w, |w.log| - 1);
  }

  /** The walk over the on-chain records, next to the walk over CIDs from `c`. */
  ghost predicate WalksAgree(records: seq<OnChainBackup>, store: Store, v: Layers, c: Cid)
    requires Walkable(records)
  {
    var onChain := ChainFor(records, store, Some(v));
    var fromCid := ResolveChain(store, Some(c), {});
    && (onChain.Ok? <==> fromCid.Ok?)
    && (onChain.Ok? ==> ManifestsIn(onChain.value) == fromCid.value && Linked(RecordsIn(onChain.value)))
    && (onChain.Err? ==> onChain.error.ManifestUnavailable? && fromCid.error.Unavailable?)
  }

  /** From the last record, what is left to do is to look up the manifests of its chain. */
  lemma HistoryIsTheChain(cfg: Config, w: World, store: Store, v: Layers)
    requires WorldOk(cfg, w) && RankedWorld(w) && w.log != []
    ensures w.log[|w.log| - 1].manifestCid.Keccak? && LastAnchored(w) in w.origins
    ensures Walkable(w.log)
    ensures ChainFor(w.log, store, Some(v)) == FindManifests(Records(w, LastAnchored(w)), store, Some(v))
  {
    LastRecord(cfg, w);
    RecordsAreWalked(cfg, w, LastAnchored(w));
    RecordsAreLinked(cfg, w, LastAnchored(w));
  }

  lemma RecordsAgreeWithCids(cfg: Config, w: World, c: Cid, store: Store, v: Layers)
    requires WorldOk(cfg, w) && RankedWorld(w) && c in w.origins
    requires Grows(w.store, store) && Registered(w, v)
    ensures Ranked(store, Ranks(w.origins))
    ensures Lists(FindManifests(Records(w, c), store, Some(v)), Fetchable(store, Ranks(w.origins), c), Records(w, c),
                  ChainOf(w, c))
    ensures var fromCid := ResolveChain(store, Some(c), {});
            if Fetchable(store, Ranks(w.origins), c) then fromCid == Ok(ChainOf(w, c))
            else fromCid.Err? && fromCid.error.Unavailable?
    ensures Linked(Records(w, c))
  {
    ChainElsewhere(cfg, w, c, store);
    RecordsAreLinked(cfg, w, c);
    RecordsGiveManifests(cfg, w, c, store, v);
    RankedChainResolves(store, Ranks(w.origins), c, {});
  }

  lemma AnchoredWalksAgree(cfg: Config, w: World, store: Store, v: Layers)
    requires WorldOk(cfg, w) && RankedWorld(w) && w.log != []
    requires Grows(w.store, store) && Registered(w, v)
    ensures w.log[|w.log| - 1].manifestCid.Keccak? && Walkable(w.log)
    ensures WalksAgree(w.log, store, v, LastAnchored(w))
  {
    HistoryIsTheChain(cfg, w, store, v);
    RecordsAgreeWithCids(cfg, w, LastAnchored(w), store, v);
  }

  /** The world as someone sees it who knows only the beginning of the log. */
  lemma EarlierLogIsOk(cfg: Config, w: World, seen: seq<OnChainBackup>)
    requires WorldOk(cfg, w) && seen <= w.log
    ensures WorldOk(cfg, w.(log := seen))
  {
    var v := w.(log := seen);
    forall c | c in v.origins ensures StoredManifest(cfg, v, c) {
      assert StoredManifest(cfg, w, c);
    }
    forall i | 0 <= i < |v.log| ensures RecordOk(v, i) {
      assert RecordOk(w, i) && v.log[..i] == w.log[..i];
    }
  }

  lemma SeenWalksAgree(cfg: Config, w: World, history: History, elsewhere: Store, v: Layers)
    requires WorldOk(cfg, w) && forall t: nat :: history(t) <= w.log
    requires OnlyGrows(history) && history(0) != []
    requires Grows(w.store, elsewhere) && Registered(w, v)
    ensures var seen := AllPages(history);
            && history(0) <= seen && Walkable(seen) && seen[|seen| - 1].manifestCid.Keccak?
            && BackupChain(history, elsewhere, Some(v)) == ChainFor(seen, elsewhere, Some(v))
            && WalksAgree(seen, elsewhere, v, seen[|seen| - 1].manifestCid.cid)
  {
    PagesArePrefix(history);
    EarlierLogIsOk(cfg, w, AllPages(history));
    var seenWorld := w.(log := AllPages(history));
    WorldIsRanked(cfg, seenWorld);
    AnchoredWalksAgree(cfg, seenWorld, elsewhere, v);
  }

  /** For any history the scheduler anchored, read page by page while it may still grow: the
      walk over the records read ends, and succeeds exactly when the walk over manifest CIDs
      from the last of them does, with the same manifests in the same order, from a full
      backup on, each record naming the one before it. */
  lemma OnChainWalkAgrees(cfg: Config, store: Store, evs: seq<Event>, serial: bool, history: History,
                          elsewhere: Store, v: Layers)
    requires Runs(cfg, Init(store), evs, serial)
    requires forall t: nat :: history(t) <= After(cfg, Init(store), evs, serial).world.log
    requires OnlyGrows(history) && history(0) != []
    requires Grows(After(cfg, Init(store), evs, serial).world.store, elsewhere)
    requires Registered(After(cfg, Init(store), evs, serial).world, v)
    ensures var seen := AllPages(history);
            && history(0) <= seen && Walkable(seen) && seen[|seen| - 1].manifestCid.Keccak?
            && BackupChain(history, elsewhere, Some(v)) == ChainFor(seen, elsewhere, Some(v))
            && WalksAgree(seen, elsewhere, v, seen[|seen| - 1].manifestCid.cid)
  {
    EveryRunIsSafe(cfg, store, evs, serial);
    SeenWalksAgree(cfg, After(cfg, Init(store), evs, serial).world, history, elsewhere, v);
  }

  /** Recovery by agent id alone, from the world `w`, asks for the manifest anchored last. */
  ghost predicate TargetsLast(w: World, v: Layers, info: SoulInfo)
    requires w.log != []
  {
    var last := w.log[|w.log| - 1];
    && last.manifestCid.Keccak?
    && Target(Some(info), Some(last), Some(v)) == Ok(LastAnchored(w))
  }

  /** What is then restored is what restoring that manifest CID restores. */
  ghost predicate DelegatesToLast(w: World, v: Layers, info: SoulInfo, site: Site, ord: KeyOrder, d: Disk)
    requires w.log != [] && TargetsLast(w, v, info) && forall m :: Listed(m, ord)
  {
    var last := w.log[|w.log| - 1];
    var (r, e) := Restored(LastAnchored(w), site, Latest(last), ord, d);
    RestoredFromChain(Some(info), Some(last), Some(v), site, Latest(last), ord, d)
    == (if r.Ok? then Ok(r.value) else Err(RestoreFailed(r.error)), e)
  }

  /** That restore goes as RoundTrips says, and finds the anchor verified. */
  ghost predicate RestoresLast(w: World, site: Site, ord: KeyOrder, d: Disk)
    requires w.log != [] && w.log[|w.log| - 1].manifestCid.Keccak? && forall m :: Listed(m, ord)
  {
    var last := w.log[|w.log| - 1];
    && RankedWorld(w) && Ranked(site.store, Ranks(w.origins))
    && LastAnchored(w) in w.origins
    && RoundTrips(w, LastAnchored(w), site, Latest(last), ord, d)
    && AnchorVerified(w, site, ord, d)
  }

  ghost predicate AnchorVerified(w: World, site: Site, ord: KeyOrder, d: Disk)
    requires w.log != [] && w.log[|w.log| - 1].manifestCid.Keccak? && forall m :: Listed(m, ord)
  {
    && LastAnchored(w) in w.store && w.store[LastAnchored(w)].Json?
    && var r := Restored(LastAnchored(w), site, Latest(w.log[|w.log| - 1]), ord, d).0;
       var agentId := w.store[LastAnchored(w)].manifest.agentId;
       r.Ok? && agentId != "" && !ZeroAgentId(agentId) ==> r.value.anchorCheckPassed
  }

  lemma LastAnchorIsVerified(cfg: Config, w: World, site: Site, ord: KeyOrder, d: Disk)
    requires WorldOk(cfg, w) && RankedWorld(w) && w.log != []
    requires Grows(w.store, site.store) && site.key == cfg.key && forall m :: Listed(m, ord)
    ensures w.log[|w.log| - 1].manifestCid.Keccak? && AnchorVerified(w, site, ord, d)
  {
    LastRecord(cfg, w);
    var c := LastAnchored(w);
    var soul := Latest(w.log[|w.log| - 1]);
    assert w.log[|w.log| - 1] == soul.record;
    BackupIsAccepted(cfg, w, c, site, soul);
    ReportedAnchor(c, site, soul, ord, d);
  }

  lemma LastIsTargeted(cfg: Config, w: World, v: Layers, info: SoulInfo)
    requires WorldOk(cfg, w) && w.log != [] && Registered(w, v)
    requires info.active && info.backupCount == |w.log|
    ensures TargetsLast(w, v, info)
  {
    LastRecord(cfg, w);
    assert StoredManifest(cfg, w, LastAnchored(w));
    assert Findable(v, LastAnchored(w));
  }

  lemma LastIsRestored(cfg: Config, w: World, site: Site, ord: KeyOrder, d: Disk)
    requires WorldOk(cfg, w) && RankedWorld(w) && w.log != []
    requires Grows(w.store, site.store) && site.key == cfg.key
    requires FreshTarget(site.target, d) && forall m :: Listed(m, ord)
    ensures w.log[|w.log| - 1].manifestCid.Keccak? && RestoresLast(w, site, ord, d)
  {
    LastRecord(cfg, w);
    LastAnchorIsVerified(cfg, w, site, ord, d);
    var soul := Latest(w.log[|w.log| - 1]);
    assert w.log[|w.log| - 1] == soul.record;
    StoredBackupRestores(cfg, w, LastAnchored(w), site, soul, ord, d);
  }

  lemma TargetedIsDelegated(w: World, v: Layers, info: SoulInfo, site: Site, ord: KeyOrder, d: Disk)
    requires w.log != [] && TargetsLast(w, v, info) && forall m :: Listed(m, ord)
    ensures DelegatesToLast(w, v, info, site, ord, d)
  {
  }

  /** Knowing only the agent id: after any run that anchored something, recovery asks for the
      manifest anchored last, restores it as RoundTrips says, and reports the anchor verified. */
  lemma LastAnchoredBackupIsRecovered(cfg: Config, store: Store, evs: seq<Event>, serial: bool, v: Layers,
                                      info: SoulInfo, site: Site, ord: KeyOrder, d: Disk)
    requires Runs(cfg, Init(store), evs, serial)
    requires After(cfg, Init(store), evs, serial).world.log != []
    requires Grows(After(cfg, Init(store), evs, serial).world.store, site.store) && site.key == cfg.key
    requires Registered(After(cfg, Init(store), evs, serial).world, v)
    requires info.active && info.backupCount == |After(cfg, Init(store), evs, serial).world.log|
    requires FreshTarget(site.target, d) && forall m :: Listed(m, ord)
    ensures var w := After(cfg, Init(store), evs, serial).world;
            TargetsLast(w, v, info) && DelegatesToLast(w, v, info, site, ord, d) && RestoresLast(w, site, ord, d)
  {
    EveryRunIsSafe(cfg, store, evs, serial);
    var w := After(cfg, Init(store), evs, serial).world;
    WorldIsRanked(cfg, w);
    LastIsTargeted(cfg, w, v, info);
    TargetedIsDelegated(w, v, info, site, ord, d);
    LastIsRestored(cfg, w, site, ord, d);
  }
}
