// What every interleaving of the scheduler keeps, and how long its chain can get.

module SchedulerSafety {
  import opened Wrappers
  import opened SoulTypes
  import opened Merkle
  import opened ChangeDetector
  import opened Uploader
  import opened ManifestBuilder
  import opened SchedulerModel

  import Paths
  import Downloader

  ghost function Ranks(origins: map<Cid, Origin>): map<Cid, nat> {
    map c | c in origins :: origins[c].rank
  }

  /** The paths and bytes of `entries` are those of `seen`, and the store can give them back. */
  ghost predicate Holds(store: Store, key: Key, entries: map<Text, Entry>, seen: map<Text, Blob>) {
    && entries.Keys == seen.Keys
    && forall p :: p in entries ==> Sound(store, key, entries[p]) && entries[p].hash == Sha256(seen[p])
  }

  /** A manifest worth diffing against or restoring from. */
  ghost predicate Complete(store: Store, key: Key, m: Manifest) {
    && AllSound(store, key, m.files)
    && m.merkleRoot == DataMerkleRoot(m.files)
    && (forall p :: p in m.files ==> Paths.Canonical(p))
    && Downloader.PrefixFree(m.files.Keys)
  }

  ghost predicate Tallied(m: Manifest) {
    m.fileCount == |m.files| && m.totalBytes == TotalBytes(m.files)
  }

  ghost predicate OnChain(log: seq<OnChainBackup>, c: Cid) {
    exists i :: 0 <= i < |log| && log[i].manifestCid == Keccak(c)
  }

  /** A CID the scheduler may treat as its head: stored by it, and anchored. */
  ghost predicate Head(w: World, c: Option<Cid>) {
    c.Some? ==> c.value in w.origins && OnChain(w.log, c.value)
  }

  ghost predicate StoredManifest(cfg: Config, w: World, c: Cid)
    requires c in w.origins
  {
    && ValidCid(c) && c in w.store && w.store[c].Json?
    && var m := w.store[c].manifest;
       && Complete(w.store, cfg.key, m) && Tallied(m)
       && Holds(w.store, cfg.key, m.files, w.origins[c].seen)
       && w.origins[c].seen.Keys == PathsOf(w.origins[c].scan)
       && w.origins[c].rank < w.clock
       && (m.parentCid.Some? ==>
             m.parentCid.value in w.origins && w.origins[m.parentCid.value].rank < w.origins[c].rank)
  }

  /** Every record names a stored manifest, repeats its root and counts, and has its parent earlier on chain. */
  ghost predicate RecordOk(w: World, i: nat)
    requires i < |w.log|
  {
    var r := w.log[i];
    && r.manifestCid.Keccak? && r.manifestCid.cid in w.origins
    && r.manifestCid.cid in w.store && w.store[r.manifestCid.cid].Json?
    && r == RecordOf(r.manifestCid.cid, w.store[r.manifestCid.cid].manifest)
    && (r.parentManifestCid.Keccak? ==> OnChain(w.log[..i], r.parentManifestCid.cid))
  }

  ghost predicate WorldOk(cfg: Config, w: World) {
    && (forall c {:trigger StoredManifest(cfg, w, c)} :: c in w.origins ==> StoredManifest(cfg, w, c))
    && (forall i {:trigger RecordOk(w, i)} :: 0 <= i < |w.log| ==> RecordOk(w, i))
  }

  ghost predicate WorldGrows(a: World, b: World) {
    && Grows(a.store, b.store)
    && a.clock <= b.clock
    && (forall c :: c in a.origins ==> c in b.origins && b.origins[c] == a.origins[c])
    && |a.log| <= |b.log| && b.log[..|a.log|] == a.log
  }

  ghost predicate TaskOk(cfg: Config, w: World, task: Task) {
    match task
    case Hydrating(_, cid) => Head(w, Some(cid))
    case Scanning(_, previous) => previous.Some? ==> Complete(w.store, cfg.key, previous.value)
    case Uploading(_, scan, todo, entries, seen, _) =>
      && ScanOk(scan) && Holds(w.store, cfg.key, entries, seen)
      && entries.Keys + PathsOf(todo) == PathsOf(scan)
    case Digesting(_, parentCid, scan, entries, seen, _) =>
      && ScanOk(scan) && Holds(w.store, cfg.key, entries, seen) && entries.Keys == PathsOf(scan)
      && Head(w, parentCid)
    case Adding(_, m, scan, seen, _) =>
      && Complete(w.store, cfg.key, m) && Holds(w.store, cfg.key, m.files, seen) && m.files.Keys == PathsOf(scan)
      && Tallied(m) && Head(w, m.parentCid)
    case Anchoring(_, m, cid) =>
      && cid in w.origins && cid in w.store && w.store[cid].Json? && w.store[cid].manifest == m
      && Complete(w.store, cfg.key, m) && Head(w, m.parentCid)
    case WritingPackage(cid) => Head(w, Some(cid))
    case WritingState(saved) => Head(w, saved.lastManifestCid)
    case _ => true
  }

  ghost predicate FieldsOk(cfg: Config, w: World, m: Fields) {
    && (m.lastManifest.Some? ==> Complete(w.store, cfg.key, m.lastManifest.value))
    && Head(w, m.lastManifestCid)
  }

  /** At most one call is inside _executeBackup, and `running` says whether there is one. */
  ghost predicate Exclusive(s: State) {
    && (forall t, u :: Inside(s, t) && Inside(s, u) ==> t == u)
    && (s.mem.running <==> exists t :: Inside(s, t))
  }

  ghost predicate Inv(cfg: Config, s: State) {
    && WorldOk(cfg, s.world)
    && FieldsOk(cfg, s.world, s.mem)
    && Head(s.world, s.saved.lastManifestCid)
    && (forall p :: p in s.patches ==> Head(s.world, s.patches[p].lastManifestCid))
    && (forall t :: t in s.tasks ==> TaskOk(cfg, s.world, s.tasks[t]))
    && Exclusive(s)
  }

  // ----- Facts about the past stay true as the world grows -----

  lemma HoldsSurvives(a: Store, b: Store, key: Key, entries: map<Text, Entry>, seen: map<Text, Blob>)
    requires Grows(a, b) && Holds(a, key, entries, seen)
    ensures Holds(b, key, entries, seen)
  {
  }

  lemma CompleteSurvives(a: Store, b: Store, key: Key, m: Manifest)
    requires Grows(a, b) && Complete(a, key, m)
    ensures Complete(b, key, m)
  {
  }

  lemma HeadSurvives(a: World, b: World, c: Option<Cid>)
    requires WorldGrows(a, b) && Head(a, c)
    ensures Head(b, c)
  {
  }

  lemma TaskOkSurvives(cfg: Config, a: World, b: World, task: Task)
    requires WorldGrows(a, b) && TaskOk(cfg, a, task)
    ensures TaskOk(cfg, b, task)
  {
    match task
    case Hydrating(_, cid) => HeadSurvives(a, b, Some(cid));
    case Scanning(_, previous) => if previous.Some? { CompleteSurvives(a.store, b.store, cfg.key, previous.value); }
    case Uploading(_, _, _, entries, seen, _) => HoldsSurvives(a.store, b.store, cfg.key, entries, seen);
    case Digesting(_, parentCid, _, entries, seen, _) =>
      HoldsSurvives(a.store, b.store, cfg.key, entries, seen);
      HeadSurvives(a, b, parentCid);
    case Adding(_, m, _, seen, _) =>
      HoldsSurvives(a.store, b.store, cfg.key, m.files, seen);
      CompleteSurvives(a.store, b.store, cfg.key, m);
      HeadSurvives(a, b, m.parentCid);
    case Anchoring(_, m, cid) =>
      CompleteSurvives(a.store, b.store, cfg.key, m);
      HeadSurvives(a, b, m.parentCid);
    case WritingPackage(cid) => HeadSurvives(a, b, Some(cid));
    case WritingState(saved) => HeadSurvives(a, b, saved.lastManifestCid);
    case _ =>
  }

  lemma FieldsOkSurvive(cfg: Config, a: World, b: World, m: Fields)
    requires WorldGrows(a, b) && FieldsOk(cfg, a, m)
    ensures FieldsOk(cfg, b, m)
  {
  }

  lemma StoredManifestSurvives(cfg: Config, a: World, b: World, c: Cid)
    requires WorldGrows(a, b) && c in a.origins && StoredManifest(cfg, a, c)
    ensures c in b.origins && StoredManifest(cfg, b, c)
  {
  }

  lemma RecordSurvives(a: World, b: World, i: nat)
    requires WorldGrows(a, b) && i < |a.log| && RecordOk(a, i)
    ensures RecordOk(b, i)
  {
  }

  // ----- The three ways the world changes -----

  lemma AddBlobKeepsWorld(cfg: Config, w: World, cid: Cid, b: Blob)
    requires WorldOk(cfg, w) && CanAdd(w.store, cid, b)
    ensures var v := w.(store := w.store[cid := b]); WorldGrows(w, v) && WorldOk(cfg, v)
  {
    var v := w.(store := w.store[cid := b]);
    assert v.log[..|w.log|] == w.log;
    WorldOkSurvives(cfg, w, v);
  }

  lemma NewManifestIsStored(cfg: Config, w: World, v: World, cid: Cid, m: Manifest, scan: seq<FileState>)
    requires WorldOk(cfg, w) && WorldGrows(w, v)
    requires ValidCid(cid) && cid in v.store && v.store[cid].Json? && v.store[cid].manifest == m
    requires cid in v.origins && v.origins[cid].scan == scan && v.origins[cid].rank == w.clock < v.clock
    requires Complete(w.store, cfg.key, m) && Holds(w.store, cfg.key, m.files, v.origins[cid].seen)
    requires m.files.Keys == PathsOf(scan)
    requires Tallied(m) && Head(w, m.parentCid)
    ensures StoredManifest(cfg, v, cid)
  {
    CompleteSurvives(w.store, v.store, cfg.key, m);
    HoldsSurvives(w.store, v.store, cfg.key, m.files, v.origins[cid].seen);
    if m.parentCid.Some? {
      assert StoredManifest(cfg, w, m.parentCid.value);
    }
  }

  /** As long as the log stays and every CID that is new has its manifest. */
  lemma WorldOkSurvives(cfg: Config, w: World, v: World)
    requires WorldOk(cfg, w) && WorldGrows(w, v) && v.log == w.log
    requires forall c {:trigger StoredManifest(cfg, v, c)} :: c in v.origins && c !in w.origins ==>
      StoredManifest(cfg, v, c)
    ensures WorldOk(cfg, v)
  {
    forall c | c in v.origins ensures StoredManifest(cfg, v, c) {
      if c in w.origins {
        assert StoredManifest(cfg, w, c);
        StoredManifestSurvives(cfg, w, v, c);
      }
    }
    forall i | 0 <= i < |v.log| ensures RecordOk(v, i) {
      assert RecordOk(w, i);
      RecordSurvives(w, v, i);
    }
  }

  lemma AddManifestGrows(w: World, cid: Cid, m: Manifest, size: nat, origin: Origin)
    requires CanAdd(w.store, cid, Json(m, size))
    ensures var v := AddManifest(w, cid, m, size, origin);
            && WorldGrows(w, v) && v.log == w.log && v.origins.Keys == w.origins.Keys + {cid}
            && (cid !in w.origins ==> v.origins[cid] == origin) && v.store[cid] == Json(m, size)
  {
    assert AddManifest(w, cid, m, size, origin).log[..|w.log|] == w.log;
  }

  lemma AddManifestKeepsWorld(cfg: Config, w: World, cid: Cid, m: Manifest, size: nat, origin: Origin)
    requires WorldOk(cfg, w) && CanAdd(w.store, cid, Json(m, size)) && origin.rank == w.clock
    requires Complete(w.store, cfg.key, m) && Holds(w.store, cfg.key, m.files, origin.seen)
    requires m.files.Keys == PathsOf(origin.scan)
    requires Tallied(m) && Head(w, m.parentCid)
    ensures var v := AddManifest(w, cid, m, size, origin);
            WorldGrows(w, v) && WorldOk(cfg, v) && cid in v.origins && v.store[cid] == Json(m, size)
  {
    var v := AddManifest(w, cid, m, size, origin);
    AddManifestGrows(w, cid, m, size, origin);
    if cid !in w.origins {
      NewManifestIsStored(cfg, w, v, cid, m, origin.scan);
    }
    WorldOkSurvives(cfg, w, v);
  }

  lemma AnchorKeepsWorld(cfg: Config, w: World, cid: Cid, m: Manifest)
    requires WorldOk(cfg, w)
    requires cid in w.origins && cid in w.store && w.store[cid].Json? && w.store[cid].manifest == m
    requires Head(w, m.parentCid)
    ensures var v := Anchor(w, cid, m); WorldGrows(w, v) && WorldOk(cfg, v) && Head(v, Some(cid))
  {
    var v := Anchor(w, cid, m);
    assert v.log[..|w.log|] == w.log;
    forall c | c in v.origins ensures StoredManifest(cfg, v, c) {
      assert StoredManifest(cfg, w, c);
      StoredManifestSurvives(cfg, w, v, c);
    }
    forall i | 0 <= i < |v.log| ensures RecordOk(v, i) {
      if i < |w.log| {
        assert RecordOk(w, i);
        RecordSurvives(w, v, i);
      }
    }
    assert v.log[|w.log|].manifestCid == Keccak(cid);
  }

  // ----- Steps that change one task -----

  ghost predicate OnlyMoves(s: State, s': State, t: nat) {
    forall u :: u != t ==> (u in s'.tasks <==> u in s.tasks) && (u in s.tasks ==> s'.tasks[u] == s.tasks[u])
  }

  ghost predicate Inside(s: State, t: nat) {
    t in s.tasks && s.tasks[t].Executing()
  }

  /** `running` is set by a call that enters, cleared by one that leaves, and else untouched. */
  ghost predicate GuardFollows(s: State, s': State, t: nat) {
    if Inside(s, t) == Inside(s', t) then s'.mem.running == s.mem.running
    else if Inside(s', t) then !s.mem.running && s'.mem.running
    else !s'.mem.running
  }

  /** Everything but the moving task, and what mutual exclusion asks of it. */
  lemma OneTaskMoves(cfg: Config, s: State, s': State, t: nat)
    requires Inv(cfg, s)
    requires WorldGrows(s.world, s'.world) && WorldOk(cfg, s'.world)
    requires FieldsOk(cfg, s'.world, s'.mem)
    requires Head(s'.world, s'.saved.lastManifestCid) && s'.patches == s.patches
    requires t in s'.tasks ==> TaskOk(cfg, s'.world, s'.tasks[t])
    requires OnlyMoves(s, s', t) && GuardFollows(s, s', t)
    ensures Inv(cfg, s')
  {
    forall u | u in s'.tasks ensures TaskOk(cfg, s'.world, s'.tasks[u]) {
      if u != t {
        TaskOkSurvives(cfg, s.world, s'.world, s.tasks[u]);
      }
    }
    forall p | p in s'.patches ensures Head(s'.world, s'.patches[p].lastManifestCid) {
      HeadSurvives(s.world, s'.world, s.patches[p].lastManifestCid);
    }
    MovingTaskKeepsExclusive(s, s', t);
  }

  lemma MovingTaskKeepsExclusive(s: State, s': State, t: nat)
    requires Exclusive(s)
    requires OnlyMoves(s, s', t) && GuardFollows(s, s', t)
    ensures Exclusive(s')
  {
    forall u ensures u != t ==> (Inside(s, u) <==> Inside(s', u)) {
    }
  }

  lemma WorldStays(w: World)
    ensures WorldGrows(w, w)
  {
  }

  /** What is carried over holds, with the bytes that the scan read. */
  lemma CarriedHolds(store: Store, key: Key, scan: seq<FileState>, m: Manifest)
    requires ScanOk(scan) && AllSound(store, key, m.files)
    ensures var carried := CarryOver(Changes(scan, Some(m)).untouched, m.files);
            Holds(store, key, carried, ScannedBytes(scan, carried.Keys))
  {
    CarriedEntriesDescribeTheScan(store, key, scan, m);
    var untouched := Changes(scan, Some(m)).untouched;
    var carried := CarryOver(untouched, m.files);
    var seen := ScannedBytes(scan, carried.Keys);
    forall p | p in carried ensures p in seen && carried[p].hash == Sha256(seen[p]) {
      var f :| f in untouched && f.relativePath == p;
      var i :| 0 <= i < |scan| && scan[i] == f;
    }
    assert seen.Keys == carried.Keys;
  }

  lemma BeginUploadsOk(cfg: Config, w: World, task: Task, scan: seq<FileState>)
    requires task.Scanning? && TaskOk(cfg, w, task) && ScanOk(scan)
    ensures TaskOk(cfg, w, BeginUploads(task, scan))
  {
    ChangesPartitionTheScan(scan, task.previous);
    if task.previous.Some? {
      CarriedHolds(w.store, cfg.key, scan, task.previous.value);
      CarriedEntriesDescribeTheScan(w.store, cfg.key, scan, task.previous.value);
    } else {
      var c := Changes(scan, task.previous);
      assert PathsOf(c.added + c.modified) == PathsOf(scan);
    }
  }

  lemma UploadOk(cfg: Config, w: World, task: Task, u: Upload)
    requires task.Uploading? && TaskOk(cfg, w, task) && task.todo != []
    requires CanAdd(w.store, u.cid, Payload(task.todo[0], u, cfg.key))
    ensures var f := task.todo[0];
            TaskOk(cfg, w.(store := w.store[u.cid := Payload(f, u, cfg.key)]),
                   task.(todo := task.todo[1..],
                         entries := task.entries[f.relativePath := EntryFor(f, u, cfg.key)],
                         seen := task.seen[f.relativePath := u.content]))
  {
    var f := task.todo[0];
    UploadedEntryIsSound(w.store, cfg.key, f, u);
    HoldsSurvives(w.store, w.store[u.cid := Payload(f, u, cfg.key)], cfg.key, task.entries, task.seen);
    assert task.todo == [f] + task.todo[1..];
    assert PathsOf(task.todo) == {f.relativePath} + PathsOf(task.todo[1..]);
  }

  lemma BuiltManifestIsComplete(cfg: Config, w: World, task: Task, timestamp: nat)
    requires task.Digesting? && TaskOk(cfg, w, task)
    ensures TaskOk(cfg, w, Adding(task.isFull, ManifestFor(cfg.agentId, task.entries, task.parentCid, timestamp),
                                  task.scan, task.seen, task.base))
  {
  }

  /** Every event keeps the invariant. */
  lemma StepKeepsInv(cfg: Config, s: State, ev: Event)
    requires Inv(cfg, s) && Enabled(cfg, s, ev)
    ensures Inv(cfg, Next(cfg, s, ev))
  {
    match ev
    case Uploaded(t, u) => UploadKeepsInv(cfg, s, t, u);
    case ManifestAdded(t, cid, size) => AddKeepsInv(cfg, s, t, cid, size);
    case Anchored(t) => AnchorKeepsInv(cfg, s, t);
    case AnchoredThenFailed(t) => LostAnchorKeepsInv(cfg, s, t);
    case Scanned(t, scan) => ScanKeepsInv(cfg, s, t, scan);
    case Digested(t, timestamp) => DigestKeepsInv(cfg, s, t, timestamp);
    case Hydrated(t) => HydrationKeepsInv(cfg, s, t);
    case Enter(t) => EnterKeepsInv(cfg, s, t);
    case _ => QuietStepKeepsInv(cfg, s, ev);
  }

  /** The steps that leave store and chain alone and need no further argument. */
  lemma QuietStepKeepsInv(cfg: Config, s: State, ev: Event)
    requires Inv(cfg, s) && Enabled(cfg, s, ev)
    requires !ev.Uploaded? && !ev.ManifestAdded? && !ev.Anchored? && !ev.AnchoredThenFailed?
    requires !ev.Scanned? && !ev.Digested? && !ev.Hydrated? && !ev.Enter?
    ensures Inv(cfg, Next(cfg, s, ev))
  {
    if ev.Crashed? || ev.StateFileLost? || ev.PatchRead? || ev.PatchWritten? {
      FileEventKeepsInv(cfg, s, ev);
    } else if ev.NotRegistered? || ev.StateWritten? || ev.HeartbeatDone? || ev.Failed? {
      LastStepKeepsInv(cfg, s, ev);
    } else {
      LocalStepKeepsInv(cfg, s, ev);
    }
  }

  lemma FileEventKeepsInv(cfg: Config, s: State, ev: Event)
    requires Inv(cfg, s) && Enabled(cfg, s, ev)
    requires ev.Crashed? || ev.StateFileLost? || ev.PatchRead? || ev.PatchWritten?
    ensures Inv(cfg, Next(cfg, s, ev))
  {
    var s' := Next(cfg, s, ev);
    forall u ensures Inside(s', u) <==> Inside(s, u) && !ev.Crashed? {
    }
  }

  /** Steps that touch only the fields, the state file and the moving task. */
  lemma LocalStepKeepsInv(cfg: Config, s: State, ev: Event)
    requires Inv(cfg, s) && Enabled(cfg, s, ev)
    requires ev.Call? || ev.StateRead? || ev.HydrationFailed? || ev.Resolved? || ev.UploadsDone? || ev.PackageWritten?
    ensures Inv(cfg, Next(cfg, s, ev))
  {
    WorldStays(s.world);
    OneTaskMoves(cfg, s, Next(cfg, s, ev), ev.t);
  }

  lemma LastStepKeepsInv(cfg: Config, s: State, ev: Event)
    requires Inv(cfg, s) && Enabled(cfg, s, ev)
    requires ev.NotRegistered? || ev.StateWritten? || ev.HeartbeatDone? || ev.Failed?
    ensures Inv(cfg, Next(cfg, s, ev))
  {
    WorldStays(s.world);
    OneTaskMoves(cfg, s, Next(cfg, s, ev), ev.t);
  }

  lemma ScanKeepsInv(cfg: Config, s: State, t: nat, scan: seq<FileState>)
    requires Inv(cfg, s) && Enabled(cfg, s, Scanned(t, scan))
    ensures Inv(cfg, Next(cfg, s, Scanned(t, scan)))
  {
    WorldStays(s.world);
    BeginUploadsOk(cfg, s.world, s.tasks[t], scan);
    OneTaskMoves(cfg, s, Next(cfg, s, Scanned(t, scan)), t);
  }

  lemma DigestKeepsInv(cfg: Config, s: State, t: nat, timestamp: nat)
    requires Inv(cfg, s) && Enabled(cfg, s, Digested(t, timestamp))
    ensures Inv(cfg, Next(cfg, s, Digested(t, timestamp)))
  {
    WorldStays(s.world);
    BuiltManifestIsComplete(cfg, s.world, s.tasks[t], timestamp);
    OneTaskMoves(cfg, s, Next(cfg, s, Digested(t, timestamp)), t);
  }

  lemma EnterKeepsInv(cfg: Config, s: State, t: nat)
    requires Inv(cfg, s) && Enabled(cfg, s, Enter(t))
    ensures Inv(cfg, Next(cfg, s, Enter(t)))
  {
    WorldStays(s.world);
    OneTaskMoves(cfg, s, Next(cfg, s, Enter(t)), t);
  }

  lemma HydrationKeepsInv(cfg: Config, s: State, t: nat)
    requires Inv(cfg, s) && Enabled(cfg, s, Hydrated(t))
    ensures Inv(cfg, Next(cfg, s, Hydrated(t)))
  {
    WorldStays(s.world);
    assert StoredManifest(cfg, s.world, s.tasks[t].cid);
    OneTaskMoves(cfg, s, Next(cfg, s, Hydrated(t)), t);
  }

  lemma UploadKeepsInv(cfg: Config, s: State, t: nat, u: Upload)
    requires Inv(cfg, s) && Enabled(cfg, s, Uploaded(t, u))
    ensures Inv(cfg, Next(cfg, s, Uploaded(t, u)))
  {
    var s' := Next(cfg, s, Uploaded(t, u));
    AddBlobKeepsWorld(cfg, s.world, u.cid, Payload(s.tasks[t].todo[0], u, cfg.key));
    UploadOk(cfg, s.world, s.tasks[t], u);
    FieldsOkSurvive(cfg, s.world, s'.world, s.mem);
    HeadSurvives(s.world, s'.world, s.saved.lastManifestCid);
    OneTaskMoves(cfg, s, s', t);
  }

  lemma AddKeepsInv(cfg: Config, s: State, t: nat, cid: Cid, size: nat)
    requires Inv(cfg, s) && Enabled(cfg, s, ManifestAdded(t, cid, size))
    ensures Inv(cfg, Next(cfg, s, ManifestAdded(t, cid, size)))
  {
    var s' := Next(cfg, s, ManifestAdded(t, cid, size));
    var task := s.tasks[t];
    AddManifestKeepsWorld(cfg, s.world, cid, task.manifest, size, OriginOf(s.world, task));
    CompleteSurvives(s.world.store, s'.world.store, cfg.key, task.manifest);
    HeadSurvives(s.world, s'.world, task.manifest.parentCid);
    FieldsOkSurvive(cfg, s.world, s'.world, s.mem);
    HeadSurvives(s.world, s'.world, s.saved.lastManifestCid);
    OneTaskMoves(cfg, s, s', t);
  }

  lemma AnchorKeepsInv(cfg: Config, s: State, t: nat)
    requires Inv(cfg, s) && Enabled(cfg, s, Anchored(t))
    ensures Inv(cfg, Next(cfg, s, Anchored(t)))
  {
    var s' := Next(cfg, s, Anchored(t));
    AnchorKeepsWorld(cfg, s.world, s.tasks[t].cid, s.tasks[t].manifest);
    CompleteSurvives(s.world.store, s'.world.store, cfg.key, s.tasks[t].manifest);
    HeadSurvives(s.world, s'.world, s.saved.lastManifestCid);
    OneTaskMoves(cfg, s, s', t);
  }

  lemma LostAnchorKeepsInv(cfg: Config, s: State, t: nat)
    requires Inv(cfg, s) && Enabled(cfg, s, AnchoredThenFailed(t))
    ensures Inv(cfg, Next(cfg, s, AnchoredThenFailed(t)))
  {
    var s' := Next(cfg, s, AnchoredThenFailed(t));
    AnchorKeepsWorld(cfg, s.world, s.tasks[t].cid, s.tasks[t].manifest);
    FieldsOkSurvive(cfg, s.world, s'.world, s.mem);
    HeadSurvives(s.world, s'.world, s.saved.lastManifestCid);
    OneTaskMoves(cfg, s, s', t);
  }

  lemma {:induction false} RunKeepsInv(cfg: Config, s: State, evs: seq<Event>, serial: bool)
    requires Inv(cfg, s) && Runs(cfg, s, evs, serial)
    ensures Inv(cfg, After(cfg, s, evs, serial))
    decreases |evs|
  {
    if evs != [] {
      StepKeepsInv(cfg, s, evs[0]);
      RunKeepsInv(cfg, Next(cfg, s, evs[0]), evs[1..], serial);
    }
  }

  /** What the chain says about the manifest stored under `c`. */
  ghost predicate Describes(r: OnChainBackup, c: Cid, m: Manifest) {
    && r.manifestCid == Keccak(c)
    && r.dataMerkleRoot == DataMerkleRoot(m.files)
    && r.fileCount == |m.files| && r.totalBytes == TotalBytes(m.files)
    && (m.parentCid.None? ==> r.backupType == 0 && r.parentManifestCid == Zero32)
    && (m.parentCid.Some? ==> r.backupType == 1 && r.parentManifestCid == Keccak(m.parentCid.value))
  }

  lemma RecordsDescribeBackups(cfg: Config, w: World, i: nat)
    requires WorldOk(cfg, w) && i < |w.log|
    ensures w.log[i].manifestCid.Keccak?
    ensures var c := w.log[i].manifestCid.cid;
            c in w.store && w.store[c].Json? && Describes(w.log[i], c, w.store[c].manifest)
  {
    assert RecordOk(w, i);
    var c := w.log[i].manifestCid.cid;
    assert StoredManifest(cfg, w, c);
    var p := w.store[c].manifest.parentCid;
    assert p.Some? ==> StoredManifest(cfg, w, p.value);
  }

  /** Whatever the interleaving, the failures, the crashes and the lost or stale state
      files: one backup runs at a time; every stored manifest covers exactly the paths of
      its scan with contents the store gives back; its parent was stored before it; and
      every on-chain record repeats a stored manifest and follows its parent's record. */
  lemma EveryRunIsSafe(cfg: Config, store: Store, evs: seq<Event>, serial: bool)
    requires Runs(cfg, Init(store), evs, serial)
    ensures Inv(cfg, After(cfg, Init(store), evs, serial))
  {
    RunKeepsInv(cfg, Init(store), evs, serial);
  }
}

module ChainBound {
  import opened Wrappers
  import opened SoulTypes
  import opened ChangeDetector
  import opened Uploader
  import opened ManifestBuilder
  import opened Chain
  import opened SchedulerModel
  import opened SchedulerSafety

  lemma WorldIsRanked(cfg: Config, w: World)
    requires WorldOk(cfg, w)
    ensures Ranked(w.store, Ranks(w.origins))
  {
    var rank := Ranks(w.origins);
    forall c | c in rank ensures RankedAt(w.store, rank, c) {
      assert StoredManifest(cfg, w, c);
    }
  }

  /** The manifests of the chain that ends at `c`, oldest first. */
  ghost function ChainOf(w: World, c: Cid): seq<Manifest>
    requires Ranked(w.store, Ranks(w.origins)) && c in w.origins
  {
    Links(w.store, Ranks(w.origins), c)
  }

  ghost predicate RankedWorld(w: World) {
    Ranked(w.store, Ranks(w.origins))
  }

  /** A head and a counter that agree: the chain is one full backup and `incrementalCount` more. */
  ghost predicate Counted(cfg: Config, w: World, p: Saved) {
    match p.lastManifestCid
    case None => p.incrementalCount == 0
    case Some(c) =>
      && RankedWorld(w) && c in w.origins
      && |ChainOf(w, c)| == p.incrementalCount + 1
      && p.incrementalCount <= cfg.maxIncrementalChain
  }

  ghost function HeadOf(m: Fields): Saved {
    Saved(m.lastManifestCid, m.incrementalCount)
  }

  /** What a suspended call relies on, besides TaskOk. */
  ghost predicate TaskAgrees(cfg: Config, w: World, initialized: bool, head: Saved, task: Task) {
    && (task.Initializing() <==> !initialized)
    && match task
       case Hydrating(_, cid) => head.lastManifestCid == Some(cid)
       case Scanning(isFull, _) => isFull || Extendable(cfg, head)
       case Uploading(isFull, _, _, _, _, _) => isFull || Extendable(cfg, head)
       case Digesting(isFull, parentCid, _, _, _, _) => ParentAgrees(cfg, head, isFull, parentCid)
       case Adding(isFull, m, _, _, _) => ParentAgrees(cfg, head, isFull, m.parentCid)
       case Anchoring(isFull, m, _) => ParentAgrees(cfg, head, isFull, m.parentCid)
       case WritingPackage(cid) => head.lastManifestCid == Some(cid)
       case WritingState(saved) => Counted(cfg, w, saved)
       case _ => true
  }

  ghost predicate Extendable(cfg: Config, head: Saved) {
    head.lastManifestCid.Some? && head.incrementalCount < cfg.maxIncrementalChain
  }

  ghost predicate ParentAgrees(cfg: Config, head: Saved, isFull: bool, parentCid: Option<Cid>) {
    if isFull then parentCid == None else Extendable(cfg, head) && parentCid == head.lastManifestCid
  }

  ghost predicate Agrees(cfg: Config, s: State, t: nat) {
    t in s.tasks ==> TaskAgrees(cfg, s.world, s.mem.initialized, HeadOf(s.mem), s.tasks[t])
  }

  ghost predicate FieldsAgree(cfg: Config, s: State) {
    && Counted(cfg, s.world, HeadOf(s.mem))
    && (s.mem.lastManifest.Some? ==> s.mem.lastManifestCid.Some? && s.mem.initialized)
    && (!s.mem.initialized ==> forall t, u :: t in s.tasks && u in s.tasks ==> t == u)
  }

  ghost predicate Bounded(cfg: Config, s: State) {
    && RankedWorld(s.world)
    && FieldsAgree(cfg, s)
    && Counted(cfg, s.world, s.saved)
    && (forall p :: p in s.patches ==> Counted(cfg, s.world, s.patches[p]))
    && (forall t {:trigger Agrees(cfg, s, t)} :: Agrees(cfg, s, t))
  }

  lemma CountedSurvives(cfg: Config, a: World, b: World, p: Saved)
    requires WorldGrows(a, b)
    requires RankedWorld(a) && RankedWorld(b)
    requires Counted(cfg, a, p)
    ensures Counted(cfg, b, p)
  {
    if p.lastManifestCid.Some? {
      LinksSurviveGrowth(a.store, Ranks(a.origins), b.store, Ranks(b.origins), p.lastManifestCid.value);
    }
  }

  /** What a suspended call relies on stays true as the world grows. */
  lemma TaskAgreesSurvives(cfg: Config, a: World, b: World, initialized: bool, head: Saved, task: Task)
    requires WorldGrows(a, b) && RankedWorld(a) && RankedWorld(b)
    requires TaskAgrees(cfg, a, initialized, head, task)
    ensures TaskAgrees(cfg, b, initialized, head, task)
  {
    if task.WritingState? {
      CountedSurvives(cfg, a, b, task.saved);
    }
  }

  lemma PatchesSurvive(cfg: Config, a: World, b: World, patches: map<nat, Saved>)
    requires WorldGrows(a, b) && RankedWorld(a) && RankedWorld(b)
    requires forall p :: p in patches ==> Counted(cfg, a, patches[p])
    ensures forall p :: p in patches ==> Counted(cfg, b, patches[p])
  {
    forall p | p in patches ensures Counted(cfg, b, patches[p]) {
      CountedSurvives(cfg, a, b, patches[p]);
    }
  }

  /** The world grows under calls that stay where they are. */
  lemma WorldMoves(cfg: Config, s: State, w: World)
    requires Bounded(cfg, s) && WorldGrows(s.world, w) && RankedWorld(w)
    ensures Bounded(cfg, s.(world := w))
  {
    var s' := s.(world := w);
    CountedSurvives(cfg, s.world, w, HeadOf(s.mem));
    CountedSurvives(cfg, s.world, w, s.saved);
    PatchesSurvive(cfg, s.world, w, s.patches);
    forall u ensures Agrees(cfg, s', u) {
      assert Agrees(cfg, s, u);
      if u in s.tasks {
        TaskAgreesSurvives(cfg, s.world, w, s.mem.initialized, HeadOf(s.mem), s.tasks[u]);
      }
    }
  }

  /** A step that leaves head, counter, `initialized`, the state file and the world alone
      disturbs no other call. */
  lemma LocalMove(cfg: Config, s: State, s': State, t: nat)
    requires Bounded(cfg, s) && s'.world == s.world && s'.mem.(running := s.mem.running) == s.mem
    requires OnlyMoves(s, s', t) && s'.patches == s.patches
    requires t in s.tasks || s.mem.initialized || s.tasks == map[]
    requires Agrees(cfg, s', t)
    requires s'.saved == s.saved
    ensures Bounded(cfg, s')
  {
    forall u ensures Agrees(cfg, s', u) {
      assert Agrees(cfg, s, u);
    }
  }

  lemma SavedMoves(cfg: Config, s: State, saved: Saved)
    requires Bounded(cfg, s) && Counted(cfg, s.world, saved)
    ensures Bounded(cfg, s.(saved := saved))
  {
    forall u ensures Agrees(cfg, s.(saved := saved), u) {
      assert Agrees(cfg, s, u);
    }
  }

  /** A call goes on to a task that agrees with head, counter and `initialized`. */
  lemma GotoKeepsBound(cfg: Config, s: State, t: nat, task: Task, running: bool)
    requires Bounded(cfg, s)
    requires t in s.tasks || s.mem.initialized || s.tasks == map[]
    requires TaskAgrees(cfg, s.world, s.mem.initialized, HeadOf(s.mem), task)
    ensures Bounded(cfg, Goto(s.(mem := s.mem.(running := running)), t, task))
  {
    LocalMove(cfg, s, Goto(s.(mem := s.mem.(running := running)), t, task), t);
  }

  lemma LeaveKeepsBound(cfg: Config, s: State, t: nat)
    requires Bounded(cfg, s) && t in s.tasks
    ensures Bounded(cfg, Leave(s, t))
  {
    LocalMove(cfg, s, Leave(s, t), t);
  }

  lemma OthersAreReady(cfg: Config, s: State, t: nat)
    requires Bounded(cfg, s) && Exclusive(s) && t in s.tasks && !s.tasks[t].Ready?
    ensures forall u :: u in s.tasks && u != t ==> s.tasks[u].Ready? && s.mem.initialized
  {
    assert Agrees(cfg, s, t);
    forall u | u in s.tasks && u != t ensures s.tasks[u].Ready? && s.mem.initialized {
      assert Agrees(cfg, s, u);
      assert Inside(s, t) && Inside(s, u) ==> t == u;
    }
  }

  /** The world after any event: grown, and ranked. */
  lemma StepGrowsWorld(cfg: Config, s: State, ev: Event)
    requires Inv(cfg, s) && Enabled(cfg, s, ev)
    ensures WorldGrows(s.world, Next(cfg, s, ev).world) && RankedWorld(Next(cfg, s, ev).world)
  {
    var s' := Next(cfg, s, ev);
    WorldIsRanked(cfg, s.world);
    if ev.Uploaded? {
      AddBlobKeepsWorld(cfg, s.world, ev.u.cid, Payload(s.tasks[ev.t].todo[0], ev.u, cfg.key));
      WorldIsRanked(cfg, s'.world);
    } else if ev.ManifestAdded? {
      var task := s.tasks[ev.t];
      assert TaskOk(cfg, s.world, task);
      AddManifestKeepsWorld(cfg, s.world, ev.cid, task.manifest, ev.size, OriginOf(s.world, task));
      WorldIsRanked(cfg, s'.world);
    } else if ev.Anchored? || ev.AnchoredThenFailed? {
      assert TaskOk(cfg, s.world, s.tasks[ev.t]);
      AnchorKeepsWorld(cfg, s.world, s.tasks[ev.t].cid, s.tasks[ev.t].manifest);
      WorldIsRanked(cfg, s'.world);
    }
  }

  lemma InitializationKeepsBound(cfg: Config, s: State, ev: Event)
    requires Bounded(cfg, s) && Exclusive(s) && Enabled(cfg, s, ev)
    requires ev.StateRead? || ev.Hydrated? || ev.HydrationFailed?
    ensures Bounded(cfg, Next(cfg, s, ev))
  {
    OthersAreReady(cfg, s, ev.t);
    assert Agrees(cfg, s, ev.t);
    var s' := Next(cfg, s, ev);
    assert forall u :: u in s.tasks ==> u == ev.t;
    assert FieldsAgree(cfg, s');
  }

  /** The fields take over an anchored manifest as the new head. */
  lemma NewHeadKeepsBound(cfg: Config, s: State, t: nat)
    requires Bounded(cfg, s) && Exclusive(s) && At(s, t) && s.tasks[t].Anchoring? && TaskOk(cfg, s.world, s.tasks[t])
    ensures var task := s.tasks[t];
            Bounded(cfg, Goto(s.(mem := RecordHead(s.mem, task.manifest, task.cid, task.isFull)), t,
                              WritingPackage(task.cid)))
  {
    var task := s.tasks[t];
    OthersAreReady(cfg, s, t);
    assert Agrees(cfg, s, t);
    AnchoredHeadIsCounted(cfg, s.world, s.mem, task);
  }

  lemma AnchorKeepsBound(cfg: Config, s: State, t: nat)
    requires Bounded(cfg, s) && Exclusive(s) && Enabled(cfg, s, Anchored(t))
    requires TaskOk(cfg, s.world, s.tasks[t])
    requires WorldGrows(s.world, Next(cfg, s, Anchored(t)).world) && RankedWorld(Next(cfg, s, Anchored(t)).world)
    ensures Bounded(cfg, Next(cfg, s, Anchored(t)))
  {
    NewHeadKeepsBound(cfg, s, t);
    var task := s.tasks[t];
    WorldMoves(cfg,
               Goto(s.(mem := RecordHead(s.mem, task.manifest, task.cid, task.isFull)), t, WritingPackage(task.cid)),
               Anchor(s.world, task.cid, task.manifest));
  }

  lemma AnchoredHeadIsCounted(cfg: Config, w: World, m: Fields, task: Task)
    requires RankedWorld(w) && task.Anchoring? && TaskOk(cfg, w, task)
    requires Counted(cfg, w, HeadOf(m)) && ParentAgrees(cfg, HeadOf(m), task.isFull, task.manifest.parentCid)
    ensures Counted(cfg, w, HeadOf(RecordHead(m, task.manifest, task.cid, task.isFull)))
  {
  }

  lemma UploadedTaskMoves(cfg: Config, s: State, t: nat, task: Task)
    requires Bounded(cfg, s) && At(s, t) && s.tasks[t].Uploading? && task.Uploading? && task.isFull == s.tasks[t].isFull
    ensures Bounded(cfg, Goto(s, t, task))
  {
    assert Agrees(cfg, s, t);
    GotoKeepsBound(cfg, s, t, task, s.mem.running);
  }

  lemma UploadKeepsBound(cfg: Config, s: State, t: nat, u: Upload)
    requires Bounded(cfg, s) && Enabled(cfg, s, Uploaded(t, u))
    requires WorldGrows(s.world, Next(cfg, s, Uploaded(t, u)).world) && RankedWorld(Next(cfg, s, Uploaded(t, u)).world)
    ensures Bounded(cfg, Next(cfg, s, Uploaded(t, u)))
  {
    UploadedTaskMoves(cfg, s, t, Next(cfg, s, Uploaded(t, u)).tasks[t]);
    WorldMoves(cfg, Goto(s, t, Next(cfg, s, Uploaded(t, u)).tasks[t]), Next(cfg, s, Uploaded(t, u)).world);
  }

  lemma AddedTaskMoves(cfg: Config, s: State, t: nat, cid: Cid)
    requires Bounded(cfg, s) && At(s, t) && s.tasks[t].Adding?
    ensures Bounded(cfg, Goto(s, t, Anchoring(s.tasks[t].isFull, s.tasks[t].manifest, cid)))
  {
    assert Agrees(cfg, s, t);
    GotoKeepsBound(cfg, s, t, Anchoring(s.tasks[t].isFull, s.tasks[t].manifest, cid), s.mem.running);
  }

  lemma AddKeepsBound(cfg: Config, s: State, t: nat, cid: Cid, size: nat)
    requires Bounded(cfg, s) && Enabled(cfg, s, ManifestAdded(t, cid, size))
    requires WorldGrows(s.world, Next(cfg, s, ManifestAdded(t, cid, size)).world)
    requires RankedWorld(Next(cfg, s, ManifestAdded(t, cid, size)).world)
    ensures Bounded(cfg, Next(cfg, s, ManifestAdded(t, cid, size)))
  {
    AddedTaskMoves(cfg, s, t, cid);
    WorldMoves(cfg, Goto(s, t, Anchoring(s.tasks[t].isFull, s.tasks[t].manifest, cid)),
               Next(cfg, s, ManifestAdded(t, cid, size)).world);
  }

  lemma LostAnchorKeepsBound(cfg: Config, s: State, t: nat)
    requires Bounded(cfg, s) && Enabled(cfg, s, AnchoredThenFailed(t))
    requires WorldGrows(s.world, Next(cfg, s, AnchoredThenFailed(t)).world)
    requires RankedWorld(Next(cfg, s, AnchoredThenFailed(t)).world)
    ensures Bounded(cfg, Next(cfg, s, AnchoredThenFailed(t)))
  {
    WorldMoves(cfg, s, Next(cfg, s, AnchoredThenFailed(t)).world);
    LeaveKeepsBound(cfg, s.(world := Next(cfg, s, AnchoredThenFailed(t)).world), t);
  }

  lemma CallKeepsBound(cfg: Config, s: State, t: nat, force: bool)
    requires Bounded(cfg, s) && Enabled(cfg, s, Call(t, force))
    requires s.mem.initialized || s.tasks == map[]
    ensures Bounded(cfg, Next(cfg, s, Call(t, force)))
  {
    GotoKeepsBound(cfg, s, t, if s.mem.initialized then Ready(force) else ReadingState(force), s.mem.running);
  }

  lemma EnterKeepsBound(cfg: Config, s: State, t: nat)
    requires Bounded(cfg, s) && Enabled(cfg, s, Enter(t))
    ensures Bounded(cfg, Next(cfg, s, Enter(t)))
  {
    assert Agrees(cfg, s, t);
    if s.mem.running {
      var s' := s.(tasks := s.tasks - {t});
      LocalMove(cfg, s, s', t);
    } else {
      GotoKeepsBound(cfg, s, t, Resolving(s.tasks[t].force), true);
    }
  }

  lemma ResolveKeepsBound(cfg: Config, s: State, t: nat)
    requires Bounded(cfg, s) && Enabled(cfg, s, Resolved(t))
    ensures Bounded(cfg, Next(cfg, s, Resolved(t)))
  {
    assert Agrees(cfg, s, t);
    var isFull := WantsFull(s.mem, s.tasks[t].force, cfg.maxIncrementalChain);
    GotoKeepsBound(cfg, s, t, Scanning(isFull, if isFull then None else s.mem.lastManifest), s.mem.running);
  }

  lemma ScanKeepsBound(cfg: Config, s: State, t: nat, scan: seq<FileState>)
    requires Bounded(cfg, s) && Enabled(cfg, s, Scanned(t, scan))
    ensures Bounded(cfg, Next(cfg, s, Scanned(t, scan)))
  {
    assert Agrees(cfg, s, t);
    GotoKeepsBound(cfg, s, t, BeginUploads(s.tasks[t], scan), s.mem.running);
  }

  lemma ParentChoiceKeepsBound(cfg: Config, s: State, t: nat)
    requires Bounded(cfg, s) && Enabled(cfg, s, UploadsDone(t))
    ensures Bounded(cfg, Next(cfg, s, UploadsDone(t)))
  {
    assert Agrees(cfg, s, t);
    var task := s.tasks[t];
    var parentCid := if task.isFull then None else s.mem.lastManifestCid;
    GotoKeepsBound(cfg, s, t, Digesting(task.isFull, parentCid, task.scan, task.entries, task.seen, task.base),
                   s.mem.running);
  }

  lemma DigestKeepsBound(cfg: Config, s: State, t: nat, timestamp: nat)
    requires Bounded(cfg, s) && Enabled(cfg, s, Digested(t, timestamp))
    ensures Bounded(cfg, Next(cfg, s, Digested(t, timestamp)))
  {
    assert Agrees(cfg, s, t);
    var task := s.tasks[t];
    var m := ManifestFor(cfg.agentId, task.entries, task.parentCid, timestamp);
    GotoKeepsBound(cfg, s, t, Adding(task.isFull, m, task.scan, task.seen, task.base), s.mem.running);
  }

  lemma PackageKeepsBound(cfg: Config, s: State, t: nat)
    requires Bounded(cfg, s) && Enabled(cfg, s, PackageWritten(t))
    ensures Bounded(cfg, Next(cfg, s, PackageWritten(t)))
  {
    assert Agrees(cfg, s, t);
    GotoKeepsBound(cfg, s, t, WritingState(Saved(Some(s.tasks[t].cid), s.mem.incrementalCount)), s.mem.running);
  }

  lemma StateWriteKeepsBound(cfg: Config, s: State, t: nat)
    requires Bounded(cfg, s) && Enabled(cfg, s, StateWritten(t))
    ensures Bounded(cfg, Next(cfg, s, StateWritten(t)))
  {
    assert Agrees(cfg, s, t);
    SavedMoves(cfg, s, s.tasks[t].saved);
    GotoKeepsBound(cfg, s.(saved := s.tasks[t].saved), t, Heartbeating, s.mem.running);
  }

  lemma ExitKeepsBound(cfg: Config, s: State, ev: Event)
    requires Bounded(cfg, s) && Enabled(cfg, s, ev)
    requires ev.NotRegistered? || ev.HeartbeatDone? || ev.Failed?
    ensures Bounded(cfg, Next(cfg, s, ev))
  {
    LeaveKeepsBound(cfg, s, ev.t);
    assert Next(cfg, s, ev) == Leave(s, ev.t);
  }

  lemma FileEventKeepsBound(cfg: Config, s: State, ev: Event)
    requires Bounded(cfg, s) && Enabled(cfg, s, ev)
    requires ev.Crashed? || ev.StateFileLost? || ev.PatchRead? || ev.PatchWritten?
    ensures Bounded(cfg, Next(cfg, s, ev))
  {
    var s' := Next(cfg, s, ev);
    forall t ensures Agrees(cfg, s', t) {
      assert Agrees(cfg, s, t);
    }
  }

  /** What a step of a safe run tells the counting argument. */
  ghost predicate Orderly(cfg: Config, s: State, ev: Event)
    requires Enabled(cfg, s, ev)
  {
    && Exclusive(s)
    && (ev.Anchored? ==> TaskOk(cfg, s.world, s.tasks[ev.t]))
    && WorldGrows(s.world, Next(cfg, s, ev).world) && RankedWorld(Next(cfg, s, ev).world)
  }

  lemma SafeStepIsOrderly(cfg: Config, s: State, ev: Event)
    requires Inv(cfg, s) && Enabled(cfg, s, ev)
    ensures Orderly(cfg, s, ev)
  {
    StepGrowsWorld(cfg, s, ev);
  }

  predicate Assembles(ev: Event) {
    ev.Scanned? || ev.Uploaded? || ev.UploadsDone? || ev.Digested?
  }

  predicate Publishes(ev: Event) {
    ev.ManifestAdded? || ev.Anchored? || ev.AnchoredThenFailed? || ev.PackageWritten? || ev.StateWritten?
  }

  predicate Begins(ev: Event) {
    ev.Call? || ev.Enter? || ev.Resolved?
  }

  lemma AssemblyKeepsBound(cfg: Config, s: State, ev: Event)
    requires Bounded(cfg, s) && Enabled(cfg, s, ev) && Orderly(cfg, s, ev) && Assembles(ev)
    ensures Bounded(cfg, Next(cfg, s, ev))
  {
    match ev
    case Scanned(t, scan) => ScanKeepsBound(cfg, s, t, scan);
    case Uploaded(t, u) => UploadKeepsBound(cfg, s, t, u);
    case UploadsDone(t) => ParentChoiceKeepsBound(cfg, s, t);
    case Digested(t, timestamp) => DigestKeepsBound(cfg, s, t, timestamp);
  }

  lemma PublicationKeepsBound(cfg: Config, s: State, ev: Event)
    requires Bounded(cfg, s) && Enabled(cfg, s, ev) && Orderly(cfg, s, ev) && Publishes(ev)
    ensures Bounded(cfg, Next(cfg, s, ev))
  {
    match ev
    case ManifestAdded(t, cid, size) => AddKeepsBound(cfg, s, t, cid, size);
    case Anchored(t) => AnchorKeepsBound(cfg, s, t);
    case AnchoredThenFailed(t) => LostAnchorKeepsBound(cfg, s, t);
    case PackageWritten(t) => PackageKeepsBound(cfg, s, t);
    case StateWritten(t) => StateWriteKeepsBound(cfg, s, t);
  }

  lemma BeginningKeepsBound(cfg: Config, s: State, ev: Event)
    requires Bounded(cfg, s) && Enabled(cfg, s, ev) && Begins(ev)
    requires ev.Call? ==> s.mem.initialized || s.tasks == map[]
    ensures Bounded(cfg, Next(cfg, s, ev))
  {
    match ev
    case Call(t, force) => CallKeepsBound(cfg, s, t, force);
    case Enter(t) => EnterKeepsBound(cfg, s, t);
    case Resolved(t) => ResolveKeepsBound(cfg, s, t);
  }

  lemma StepKeepsBound(cfg: Config, s: State, ev: Event)
    requires Bounded(cfg, s) && Enabled(cfg, s, ev) && Orderly(cfg, s, ev)
    requires ev.Call? ==> s.mem.initialized || s.tasks == map[]
    ensures Bounded(cfg, Next(cfg, s, ev))
  {
    if Assembles(ev) {
      AssemblyKeepsBound(cfg, s, ev);
    } else if Publishes(ev) {
      PublicationKeepsBound(cfg, s, ev);
    } else if Begins(ev) {
      BeginningKeepsBound(cfg, s, ev);
    } else if ev.StateRead? || ev.Hydrated? || ev.HydrationFailed? {
      InitializationKeepsBound(cfg, s, ev);
    } else if ev.Crashed? || ev.StateFileLost? || ev.PatchRead? || ev.PatchWritten? {
      FileEventKeepsBound(cfg, s, ev);
    } else {
      ExitKeepsBound(cfg, s, ev);
    }
  }

  lemma {:induction false} RunKeepsBound(cfg: Config, s: State, evs: seq<Event>)
    requires Inv(cfg, s) && Bounded(cfg, s) && Runs(cfg, s, evs, true)
    ensures Inv(cfg, After(cfg, s, evs, true)) && Bounded(cfg, After(cfg, s, evs, true))
    decreases |evs|
  {
    if evs != [] {
      SafeStepIsOrderly(cfg, s, evs[0]);
      StepKeepsInv(cfg, s, evs[0]);
      StepKeepsBound(cfg, s, evs[0]);
      RunKeepsBound(cfg, Next(cfg, s, evs[0]), evs[1..]);
    }
  }

  /** As long as initializations do not overlap, in every run with its failures, crashes and
      stale state files, the chain behind the head is one full backup followed by
      `incrementalCount` incrementals, and never more than the configured number; the same
      holds for the head that the state file would restore. */
  lemma ChainLengthIsBounded(cfg: Config, store: Store, evs: seq<Event>)
    requires Runs(cfg, Init(store), evs, true)
    ensures var s := After(cfg, Init(store), evs, true);
            && WorldOk(cfg, s.world)
            && Counted(cfg, s.world, HeadOf(s.mem))
            && Counted(cfg, s.world, s.saved)
  {
    RunKeepsBound(cfg, Init(store), evs);
  }
}
