// Backup followed by restore, and two ways to lose files.

module RoundTrip {
  import opened Wrappers
  import opened SoulTypes
  import opened Ordering
  import opened Paths
  import opened FileSystem
  import opened Downloader
  import opened Landing
  import opened IntegrityChecker
  import opened StateRestorer
  import opened Uploader
  import opened ManifestBuilder
  import opened Chain
  import opened SchedulerModel
  import opened SchedulerSafety
  import opened ChainBound

  ghost predicate AllComplete(store: Store, key: Key, chain: seq<Manifest>) {
    forall m :: m in chain ==> Complete(store, key, m)
  }

  lemma {:induction false} ChainIsComplete(cfg: Config, w: World, c: Cid)
    requires WorldOk(cfg, w) && RankedWorld(w) && c in w.origins
    ensures AllComplete(w.store, cfg.key, ChainOf(w, c))
    decreases Ranks(w.origins)[c]
  {
    assert StoredManifest(cfg, w, c) && RankedAt(w.store, Ranks(w.origins), c);
    var p := w.store[c].manifest.parentCid;
    if p.Some? {
      ChainIsComplete(cfg, w, p.value);
    }
  }

  /** The chain as another party sees it in a store that lost nothing. */
  lemma ChainElsewhere(cfg: Config, w: World, c: Cid, store: Store)
    requires WorldOk(cfg, w) && RankedWorld(w) && c in w.origins && Grows(w.store, store)
    ensures Ranked(store, Ranks(w.origins))
    ensures Links(store, Ranks(w.origins), c) == ChainOf(w, c)
    ensures AllComplete(store, cfg.key, ChainOf(w, c))
  {
    forall b | b in Ranks(w.origins) ensures RankedAt(store, Ranks(w.origins), b) {
      assert RankedAt(w.store, Ranks(w.origins), b);
    }
    LinksSurviveGrowth(w.store, Ranks(w.origins), store, Ranks(w.origins), c);
    ChainIsComplete(cfg, w, c);
    forall m | m in ChainOf(w, c) ensures Complete(store, cfg.key, m) {
      CompleteSurvives(w.store, store, cfg.key, m);
    }
  }

  /** After an exact restore, every file is the content its entry was made from. */
  lemma ExactRestoreVerifies(site: Site, chain: seq<Manifest>, d: Disk, e: Disk)
    requires chain != [] && AllComplete(site.store, site.key, chain) && site.target != []
    requires Exact(site, chain, d, e)
    ensures AllRestored(site.target, e, chain[|chain| - 1])
    ensures forall p :: p in chain[|chain| - 1].files ==>
              && FullPath(site.target, p) in e.files
              && Sha256(e.files[FullPath(site.target, p)]) == chain[|chain| - 1].files[p].hash
  {
    var latest := chain[|chain| - 1];
    assert latest in chain;
    forall p | p in latest.files ensures FileRestored(site.target, e, p, latest.files[p]) {
      assert Sound(site.store, site.key, latest.files[p]);
      CanonicalPathsDoNotAlias(site.target, p, p);
    }
  }

  /** `e` is `d` with exactly the files of `seen` added under the target. */
  ghost predicate Adds(target: Abs, d: Disk, e: Disk, seen: map<Text, Blob>) {
    && e.files.Keys == d.files.Keys + FullPaths(target, seen.Keys)
    && (forall a :: a in d.files ==> e.files[a] == d.files[a])
    && (forall p :: p in seen ==> FullPath(target, p) in e.files && e.files[FullPath(target, p)] == seen[p])
  }

  lemma FreshTargetHoldsNoChainPath(site: Site, chain: seq<Manifest>, d: Disk)
    requires FreshTarget(site.target, d) && forall p :: p in AllPaths(chain) ==> Canonical(p)
    ensures d.files.Keys !! FullPaths(site.target, AllPaths(chain))
  {
    forall p | p in AllPaths(chain) ensures FullPath(site.target, p) !in d.files {
      NestedSegmentsNestPaths(site.target, p, p);
    }
  }

  /** The answer of an honest chain client cannot contradict a stored manifest. */
  ghost predicate HonestClient(w: World, soul: ChainView) {
    soul.Latest? ==> exists i :: 0 <= i < |w.log| && w.log[i] == soul.record
  }

  lemma HonestClientNeverMismatches(cfg: Config, w: World, c: Cid, soul: ChainView)
    requires WorldOk(cfg, w) && c in w.origins && c in w.store && w.store[c].Json? && HonestClient(w, soul)
    ensures AnchorCheck(c, w.store[c].manifest, soul).2 != MerkleRootMismatch
  {
    if soul.Latest? {
      var i :| 0 <= i < |w.log| && w.log[i] == soul.record;
      assert RecordOk(w, i);
    }
  }

  /** When the checks before writing let a scheduler-written chain through. */
  lemma BackupIsAccepted(cfg: Config, w: World, c: Cid, site: Site, soul: ChainView)
    requires WorldOk(cfg, w) && RankedWorld(w) && c in w.origins
    requires Grows(w.store, site.store) && site.key == cfg.key
    requires HonestClient(w, soul)
    ensures Ranked(site.store, Ranks(w.origins))
    ensures Refusal(c, site, soul) == None
       <==> Fetchable(site.store, Ranks(w.origins), c) && KeyUsable(site, ChainOf(w, c)[|ChainOf(w, c)| - 1])
    ensures Refusal(c, site, soul) == None ==> Fetched(site.store, c) == ChainOf(w, c)
  {
    ChainElsewhere(cfg, w, c, site.store);
    RankedChainResolves(site.store, Ranks(w.origins), c, {});
    if Fetchable(site.store, Ranks(w.origins), c) {
      var chain := ChainOf(w, c);
      forall i | 0 <= i < |chain| ensures RootFlags(chain)[i] {
        assert chain[i] in chain;
      }
      HonestClientNeverMismatches(cfg, w, c, soul);
    }
  }

  /** An exact restore into a fresh target, when the entries hold the bytes of `seen`. */
  lemma ExactRestoreAdds(site: Site, chain: seq<Manifest>, d: Disk, e: Disk, seen: map<Text, Blob>)
    requires chain != [] && AllComplete(site.store, site.key, chain)
    requires FreshTarget(site.target, d) && Exact(site, chain, d, e)
    requires LatestFiles(chain).Keys == seen.Keys
    requires forall p :: p in seen ==> LatestFiles(chain)[p].hash == Sha256(seen[p])
    ensures Adds(site.target, d, e, seen)
  {
    ExactRestoreVerifies(site, chain, d, e);
    FreshTargetHoldsNoChainPath(site, chain, d);
  }

  /** The bytes the backup captured are the bytes its entries' hashes name. */
  lemma RestoredIsCaptured(cfg: Config, w: World, c: Cid, site: Site, d: Disk, e: Disk)
    requires WorldOk(cfg, w) && RankedWorld(w) && c in w.origins
    requires AllComplete(site.store, site.key, ChainOf(w, c))
    requires FreshTarget(site.target, d) && Exact(site, ChainOf(w, c), d, e)
    ensures Adds(site.target, d, e, w.origins[c].seen)
    ensures AllRestored(site.target, e, w.store[c].manifest)
  {
    var chain := ChainOf(w, c);
    assert StoredManifest(cfg, w, c);
    assert LatestFiles(chain) == w.store[c].manifest.files;
    ExactRestoreVerifies(site, chain, d, e);
    ExactRestoreAdds(site, chain, d, e, w.origins[c].seen);
  }

  // ----- How many bytes a restore writes -----

  /** The same files, with the sizes of their plain contents. */
  ghost function Plain(files: map<Text, Entry>): map<Text, Entry>
    requires forall p :: p in files ==> files[p].hash.Sha256?
  {
    map p | p in files :: files[p].(sizeBytes := Size(files[p].hash.content))
  }

  ghost function PlainBytes(chain: seq<Manifest>): nat
    requires forall m, p :: m in chain && p in m.files ==> m.files[p].hash.Sha256?
  {
    if chain == [] then 0
    else
      assert chain[|chain| - 1] in chain;
      PlainBytes(chain[..|chain| - 1]) + TotalBytes(Plain(chain[|chain| - 1].files))
  }

  lemma OneMorePlain(files: map<Text, Entry>, keys: seq<Text>)
    requires keys != [] && Distinct(keys) && forall p :: p in keys ==> p in files
    requires forall p :: p in files ==> files[p].hash.Sha256?
    ensures var last := keys[|keys| - 1];
            TotalBytes(Restrict(Plain(files), keys))
            == Size(files[last].hash.content) + TotalBytes(Restrict(Plain(files), keys[..|keys| - 1]))
  {
    var last := keys[|keys| - 1];
    assert keys == keys[..|keys| - 1] + [last];
    TotalBytesWithout(Restrict(Plain(files), keys), last);
    assert Restrict(Plain(files), keys) - {last} == Restrict(Plain(files), keys[..|keys| - 1]);
  }

  lemma {:induction false} FilesWriteBytes(site: Site, keys: seq<Text>, files: map<Text, Entry>, d: Disk)
    requires Distinct(keys) && (forall p :: p in keys ==> p in files) && AllSound(site.store, site.key, files)
    requires AfterFiles(site, keys, files, d).result.errors == []
    ensures AfterFiles(site, keys, files, d).result.totalBytes == TotalBytes(Restrict(Plain(files), keys))
  {
    if keys != [] {
      var last := keys[|keys| - 1];
      var g := AfterFiles(site, keys[..|keys| - 1], files, d);
      FilesWriteBytes(site, keys[..|keys| - 1], files, d);
      OneMorePlain(files, keys);
    } else {
      assert Restrict(Plain(files), keys) == map[];
    }
  }

  lemma ManifestWritesBytes(site: Site, m: Manifest, ord: KeyOrder, d: Disk)
    requires Listed(m, ord) && AllSound(site.store, site.key, m.files)
    requires AfterFiles(site, ord(m), m.files, d).result.errors == []
    ensures AfterFiles(site, ord(m), m.files, d).result.totalBytes == TotalBytes(Plain(m.files))
  {
    FilesWriteBytes(site, ord(m), m.files, d);
    assert Restrict(Plain(m.files), ord(m)) == Plain(m.files);
  }

  /** Without errors, the bytes written are the plain sizes of all the files of the chain. */
  lemma {:induction false} ChainWritesBytes(site: Site, chain: seq<Manifest>, ord: KeyOrder, d: Disk)
    requires AllListed(chain, ord) && AllComplete(site.store, site.key, chain)
    requires AfterManifests(site, chain, ord, d).result.errors == []
    ensures forall m, p :: m in chain && p in m.files ==> m.files[p].hash.Sha256?
    ensures AfterManifests(site, chain, ord, d).result.totalBytes == PlainBytes(chain)
  {
    if chain != [] {
      var m := chain[|chain| - 1];
      assert m in chain && Listed(m, ord) && Complete(site.store, site.key, m);
      ChainWritesBytes(site, chain[..|chain| - 1], ord, d);
      ManifestWritesBytes(site, m, ord, AfterManifests(site, chain[..|chain| - 1], ord, d).disk);
    }
  }

  function EncryptedPaths(files: map<Text, Entry>): set<Text> {
    set p | p in files && files[p].encrypted
  }

  lemma PlainWithout(files: map<Text, Entry>, p: Text)
    requires p in files && forall q :: q in files ==> files[q].hash.Sha256?
    ensures p in Plain(files) && Plain(files)[p].sizeBytes == Size(files[p].hash.content)
    ensures Plain(files) - {p} == Plain(files - {p})
  {
  }

  lemma EncryptedWithout(files: map<Text, Entry>, p: Text)
    requires p in files
    ensures |EncryptedPaths(files)| == |EncryptedPaths(files - {p})| + if files[p].encrypted then 1 else 0
  {
    assert EncryptedPaths(files) == EncryptedPaths(files - {p}) + if files[p].encrypted then {p} else {};
  }

  ghost predicate Framed(files: map<Text, Entry>) {
    forall p :: p in files ==>
      && files[p].hash.Sha256?
      && files[p].sizeBytes == Size(files[p].hash.content) + if files[p].encrypted then FRAME_HEADER else 0
  }

  lemma {:induction false} FramesAddUp(files: map<Text, Entry>)
    requires Framed(files)
    ensures TotalBytes(files) == TotalBytes(Plain(files)) + FRAME_HEADER * |EncryptedPaths(files)|
    decreases |files|
  {
    if files != map[] {
      var p :| p in files;
      FramesAddUp(files - {p});
      PlainWithout(files, p);
      EncryptedWithout(files, p);
      TotalBytesWithout(files, p);
      TotalBytesWithout(Plain(files), p);
    }
  }

  /** What is stored exceeds what was read by one frame header per encrypted file. */
  lemma StoredBytes(store: Store, key: Key, files: map<Text, Entry>)
    requires AllSound(store, key, files)
    ensures Framed(files)
    ensures TotalBytes(files) == TotalBytes(Plain(files)) + FRAME_HEADER * |EncryptedPaths(files)|
  {
    forall p | p in files ensures Sound(store, key, files[p]) {
    }
    FramesAddUp(files);
  }

  /** A key a restore would accept for this manifest. */
  ghost predicate KeyUsable(site: Site, m: Manifest) {
    HasEncryptedFiles(m) ==> !Blank(site.key.secret)
  }

  // ----- When the restored files are the captured ones -----

  /** A latest file that did not land is missing, and verification notices. */
  lemma UnlandedIsNotRestored(site: Site, chain: seq<Manifest>, ord: KeyOrder, d: Disk, p: Text)
    requires chain != [] && Applicable(site, chain, ord, d) && p in LatestFiles(chain) && p !in Landed(chain)
    ensures FullPath(site.target, p) !in AfterChain(site, chain, ord, d).disk.files
    ensures !AllRestored(site.target, AfterChain(site, chain, ord, d).disk, chain[|chain| - 1])
  {
    MissingUnlessLanded(site, chain, ord, d, p);
    assert !FileRestored(site.target, AfterChain(site, chain, ord, d).disk, p, chain[|chain| - 1].files[p]);
  }

  /** The target receives the captured path -> bytes and nothing else, and verification says
      so, if and only if every file of the latest manifest lands. */
  lemma RestoredIffRestorable(cfg: Config, w: World, c: Cid, site: Site, ord: KeyOrder, d: Disk)
    requires WorldOk(cfg, w) && RankedWorld(w) && c in w.origins
    requires AllComplete(site.store, site.key, ChainOf(w, c))
    requires FreshTarget(site.target, d) && AllListed(ChainOf(w, c), ord)
    ensures var chain := ChainOf(w, c);
            var e := AfterChain(site, chain, ord, d).disk;
            && (Adds(site.target, d, e, w.origins[c].seen) <==> Restorable(chain))
            && (AllRestored(site.target, e, chain[|chain| - 1]) <==> Restorable(chain))
  {
    var chain := ChainOf(w, c);
    ExactIffRestorable(site, chain, ord, d);
    if Restorable(chain) {
      RestoredIsCaptured(cfg, w, c, site, d, AfterChain(site, chain, ord, d).disk);
    } else {
      var p :| p in LatestFiles(chain) && p !in Landed(chain);
      UnlandedIsNotRestored(site, chain, ord, d, p);
      assert StoredManifest(cfg, w, c);
    }
  }

  ghost predicate RoundTrips(w: World, c: Cid, site: Site, soul: ChainView, ord: KeyOrder, d: Disk)
    requires RankedWorld(w) && Ranked(site.store, Ranks(w.origins)) && c in w.origins && forall m :: Listed(m, ord)
  {
    var chain := ChainOf(w, c);
    var (r, e) := Restored(c, site, soul, ord, d);
    && (forall m, p :: m in chain && p in m.files ==> m.files[p].hash.Sha256?)
    && (r.Ok? <==> Fetchable(site.store, Ranks(w.origins), c) && KeyUsable(site, chain[|chain| - 1]))
    && (r.Ok? ==>
          && r.value.backupsApplied == |chain|
          && (r.value.merkleVerified <==> Restorable(chain))
          && (Adds(site.target, d, e, w.origins[c].seen) <==> Restorable(chain))
          && (AfterChain(site, chain, ord, d).result.errors == [] <==> PrefixFree(AllPaths(chain))))
    && (PrefixFree(AllPaths(chain)) ==> Restorable(chain))
    && (r.Ok? && PrefixFree(AllPaths(chain)) ==>
          && r.value.totalBytes == PlainBytes(chain)
          && r.value.filesRestored == FileCount(chain))
  }

  /** The round trip.  After any run of the scheduler - edits between and during scans, full
      and incremental backups, failures, crashes, restarts, overlapping calls - take any
      manifest it stored, a store that lost nothing, the key of the backups and a fresh
      target.  The restore is accepted exactly when every manifest of the chain is small
      enough to be fetched and the key is not blank where one is needed.  The target then
      receives the captured path -> bytes and nothing else, and the result says so, exactly
      when every file of the latest manifest lands, which the paths of the chain decide; it
      meets no error exactly when none of them is a directory above another. */
  lemma BackupsRestoreExactly(cfg: Config, store: Store, evs: seq<Event>, serial: bool, c: Cid,
                              site: Site, soul: ChainView, ord: KeyOrder, d: Disk)
    requires Runs(cfg, Init(store), evs, serial)
    requires c in After(cfg, Init(store), evs, serial).world.origins
    requires Grows(After(cfg, Init(store), evs, serial).world.store, site.store)
    requires site.key == cfg.key
    requires HonestClient(After(cfg, Init(store), evs, serial).world, soul)
    requires FreshTarget(site.target, d) && forall m :: Listed(m, ord)
    ensures var w := After(cfg, Init(store), evs, serial).world;
            RankedWorld(w) && Ranked(site.store, Ranks(w.origins)) && RoundTrips(w, c, site, soul, ord, d)
  {
    EveryRunIsSafe(cfg, store, evs, serial);
    var w := After(cfg, Init(store), evs, serial).world;
    WorldIsRanked(cfg, w);
    StoredBackupRestores(cfg, w, c, site, soul, ord, d);
  }

  lemma StoredBackupRestores(cfg: Config, w: World, c: Cid, site: Site, soul: ChainView, ord: KeyOrder, d: Disk)
    requires WorldOk(cfg, w) && RankedWorld(w) && c in w.origins
    requires Grows(w.store, site.store) && site.key == cfg.key
    requires HonestClient(w, soul)
    requires FreshTarget(site.target, d) && forall m :: Listed(m, ord)
    ensures Ranked(site.store, Ranks(w.origins)) && RoundTrips(w, c, site, soul, ord, d)
  {
    BackupIsAccepted(cfg, w, c, site, soul);
    ChainElsewhere(cfg, w, c, site.store);
    var chain := ChainOf(w, c);
    ErrorFreeIffPrefixFree(site, chain, ord, d);
    RestoredIffRestorable(cfg, w, c, site, ord, d);
    if PrefixFree(AllPaths(chain)) {
      PrefixFreeLands(chain);
      CanonicalChainIsExact(site, chain, ord, d);
      ChainWritesBytes(site, chain, ord, d);
    }
  }

  // ----- A file that became a directory, or the other way round -----

  /** If a file of the full backup stands where a file of the latest one needs a directory, or
      below where it needs a file, the restore of that chain cannot bring the latter back. */
  lemma FileTurnedDirectoryIsNotRestored(site: Site, chain: seq<Manifest>, ord: KeyOrder, d: Disk, a: Text, b: Text)
    requires chain != [] && AllListed(chain, ord) && AllComplete(site.store, site.key, chain)
    requires FreshTarget(site.target, d)
    requires a in chain[0].files && b in chain[|chain| - 1].files && Nested(a, b)
    ensures !Restorable(chain)
    ensures FullPath(site.target, b) !in AfterChain(site, chain, ord, d).disk.files
    ensures !AllRestored(site.target, AfterChain(site, chain, ord, d).disk, chain[|chain| - 1])
  {
    RootBlocksNested(chain, a, b);
    UnlandedIsNotRestored(site, chain, ord, d, b);
  }

  /** Nested paths alone do no harm: here "a" never lands, because "a/c" stands in its way, and
      so "a/b" does.  The restore reports an error and is exact. */
  lemma NestedYetRestorable(chain: seq<Manifest>)
    requires |chain| == 3
    requires chain[0].files.Keys == {"a/c"} && chain[1].files.Keys == {"a"} && chain[2].files.Keys == {"a/b"}
    ensures !PrefixFree(AllPaths(chain)) && Restorable(chain)
  {
    SplitSamples();
    assert ProperPrefix(Split("a"), Split("a/c"));
    assert chain[0] in chain && chain[1] in chain;
    assert chain[..2][..1] == chain[..1] && chain[..1][..0] == [];
    assert Landed(chain[..1]) == {"a/c"};
    assert Nested("a", "a/c") && !Clear("a", {"a/c"});
    assert Landed(chain[..2]) == {"a/c"};
    assert !Nested("a/b", "a/c") && Clear("a/b", {"a/c"});
  }

  lemma SplitSamples()
    ensures Split("a") == ["a"] && Split("a/b") == ["a", "b"] && Split("a/c") == ["a", "c"]
  {
    assert Split("") == [""];
    assert "b"[1..] == "" && Split("b") == ["b"] by { assert ['b'] + "" == "b"; }
    assert "c"[1..] == "" && Split("c") == ["c"] by { assert ['c'] + "" == "c"; }
    assert "a"[1..] == "" && Split("a") == ["a"] by { assert ['a'] + "" == "a"; }
    assert "/b"[1..] == "b" && Split("/b") == ["", "b"];
    assert "/c"[1..] == "c" && Split("/c") == ["", "c"];
    assert "a/b"[1..] == "/b" && Split("a/b") == ["a", "b"];
    assert "a/c"[1..] == "/c" && Split("a/c") == ["a", "c"];
  }
}

module Shortfalls {
  import opened Wrappers
  import opened SoulTypes
  import opened Ordering
  import opened Paths
  import opened FileSystem
  import opened Downloader
  import opened StateRestorer
  import opened SchedulerModel

  import Chain

  /** The publication of a manifest, from its upload to the write of the state file. */
  ghost function Publication(t: nat, cid: Cid, size: nat): seq<Event> {
    [ManifestAdded(t, cid, size), Anchored(t), PackageWritten(t), StateWritten(t)]
  }

  lemma PublicationRuns(cfg: Config, s: State, t: nat, cid: Cid, size: nat)
    requires Enabled(cfg, s, ManifestAdded(t, cid, size))
    ensures var evs := Publication(t, cid, size);
            && Runs(cfg, s, evs, true)
            && var s' := After(cfg, s, evs, true);
               && s'.saved.lastManifestCid == Some(cid)
               && s'.world.log == s.world.log + [RecordOf(cid, s.tasks[t].manifest)]
               && s'.world.store == s.world.store[cid := Json(s.tasks[t].manifest, size)]
  {
    var evs := Publication(t, cid, size);
    var added := Next(cfg, s, evs[0]);
    var anchored := Next(cfg, added, evs[1]);
    var packaged := Next(cfg, anchored, evs[2]);
    assert evs[1..][0] == evs[1] && evs[2..][0] == evs[2] && evs[3..] == [evs[3]];
    assert evs[1..][1..] == evs[2..] && evs[2..][1..] == evs[3..] && evs[3..][1..] == [];
    var last := Next(cfg, packaged, evs[3]);
    assert Runs(cfg, last, [], true) && After(cfg, last, [], true) == last;
    assert evs[3..][0] == evs[3];
    assert Runs(cfg, packaged, evs[3..], true) && After(cfg, packaged, evs[3..], true) == last;
    assert Runs(cfg, anchored, evs[2..], true) && After(cfg, anchored, evs[2..], true) == last;
    assert Runs(cfg, added, evs[1..], true) && After(cfg, added, evs[1..], true) == last;
  }

  /** Any manifest that serializes to more than the client reads back, wherever the scheduler
      stands: its backup is anchored and saved as the head like any other, and every restore of
      it is refused, from any store that holds it. */
  lemma OversizeBackupIsLost(cfg: Config, s: State, t: nat, cid: Cid, size: nat)
    requires Enabled(cfg, s, ManifestAdded(t, cid, size)) && size > MAX_MANIFEST_BYTES
    ensures Runs(cfg, s, Publication(t, cid, size), true)
    ensures var s' := After(cfg, s, Publication(t, cid, size), true);
            && s'.saved.lastManifestCid == Some(cid)
            && s'.world.log == s.world.log + [RecordOf(cid, s.tasks[t].manifest)]
            && forall site: Site, soul :: Grows(s'.world.store, site.store) ==>
                 Refusal(cid, site, soul) == Some(ChainFailed(Chain.Unavailable(cid)))
  {
    PublicationRuns(cfg, s, t, cid, size);
    var s' := After(cfg, s, Publication(t, cid, size), true);
    forall site: Site, soul | Grows(s'.world.store, site.store)
      ensures Refusal(cid, site, soul) == Some(ChainFailed(Chain.Unavailable(cid)))
    {
      assert site.store[cid] == Json(s.tasks[t].manifest, size);
    }
  }

  lemma DotPathResolvesAlike(target: Abs)
    ensures FullPath(target, "a") == target + ["a"] && FullPath(target, "./a") == target + ["a"]
  {
    assert Split("") == [""] && "a"[1..] == "" && ['a'] + "" == "a";
    assert Split("a") == ["a"];
    assert "/a"[1..] == "a" && Split("/a") == ["", "a"];
    assert "./a"[1..] == "/a" && ['.'] + "" == "." && Split("./a") == [".", "a"];
    assert [".", "a"][1..] == ["a"] && ["a"][1..] == [];
    assert Resolve(target + ["a"], []) == target + ["a"];
    assert Resolve(target, ["a"]) == target + ["a"];
  }

  lemma FreshFileIsWritten(site: Site, d: Disk, content: Blob)
    requires FreshTarget(site.target, d)
    ensures var a := site.target + ["a"];
            && Allowed(site.target, a) && CanWrite(d, a)
            && CanWrite(AfterWrite(d, a, content), a) && a in AfterWrite(d, a, content).files
  {
    var a := site.target + ["a"];
    assert a[..|site.target|] == site.target;
    forall k | 0 <= k < |a| ensures a[..k] !in d.files && a[..k] != a {
      assert a[..k] == site.target[..k];
    }
    assert a !in Ancestors(a);
  }

  lemma OnlyListing(ord: KeyOrder, m: Manifest, p: Text)
    requires Listed(m, ord) && m.files.Keys == {p}
    ensures ord(m) == [p]
  {
    EnumerationSize(ord(m), {p});
    assert ord(m)[0] in ord(m);
  }

  /** A full backup with "./a", an incremental with "a": both are written to the same file
      without an error, and then the obsolete path takes it away. */
  lemma AliasedPathIsDeleted(site: Site, chain: seq<Manifest>, ord: KeyOrder, d: Disk)
    requires |chain| == 2 && chain[0].files.Keys == {"./a"} && chain[1].files.Keys == {"a"}
    requires AllListed(chain, ord) && Readable(site, chain) && FreshTarget(site.target, d)
    ensures AfterChain(site, chain, ord, d).result.errors == []
    ensures "a" in LatestFiles(chain) && FullPath(site.target, "a") !in AfterChain(site, chain, ord, d).disk.files
  {
    var a := site.target + ["a"];
    DotPathResolvesAlike(site.target);
    assert chain[0] in chain && chain[1] in chain;
    var first, second := Content(site, chain[0].files["./a"]).value, Content(site, chain[1].files["a"]).value;
    FreshFileIsWritten(site, d, first);
    OneFileManifest(site, chain[0], "./a", ord, d, first);
    OneFileManifest(site, chain[1], "a", ord, AfterWrite(d, a, first), second);
    TwoManifests(site, chain, ord, d);
    assert "./a" in AllPaths(chain) && "./a" in Obsolete(chain);
    assert a in Removable(site, Obsolete(chain), AfterManifests(site, chain, ord, d).disk);
  }

  lemma TwoManifests(site: Site, chain: seq<Manifest>, ord: KeyOrder, d: Disk)
    requires |chain| == 2 && AllListed(chain, ord)
    ensures Listed(chain[0], ord) && Listed(chain[1], ord)
    ensures var first := AfterFiles(site, ord(chain[0]), chain[0].files, d);
            var second := AfterFiles(site, ord(chain[1]), chain[1].files, first.disk);
            && AfterManifests(site, chain, ord, d).disk == second.disk
            && AfterManifests(site, chain, ord, d).result.errors == first.result.errors + second.result.errors
  {
    assert chain[0] in chain && chain[1] in chain;
    assert chain[..1] == [chain[0]] && chain[..1][..0] == [];
    assert AfterManifests(site, [], ord, d) == Progress(d, NOTHING_YET);
    var first := AfterFiles(site, ord(chain[0]), chain[0].files, d);
    assert AfterManifests(site, chain[..1], ord, d).disk == first.disk;
    assert [] + first.result.errors == first.result.errors;
  }

  lemma OneFileManifest(site: Site, m: Manifest, p: Text, ord: KeyOrder, d: Disk, content: Blob)
    requires Listed(m, ord) && m.files.Keys == {p} && Content(site, m.files[p]) == Some(content)
    requires Allowed(site.target, FullPath(site.target, p)) && CanWrite(d, FullPath(site.target, p))
    ensures AfterFiles(site, ord(m), m.files, d)
         == Progress(AfterWrite(d, FullPath(site.target, p), content), DownloadResult(1, Size(content), []))
  {
    OnlyListing(ord, m, p);
    assert [p][..0] == [];
    assert AfterFiles(site, [p][..0], m.files, d) == Progress(d, NOTHING_YET);
  }
}
