// Which entries a manifest has: what every interleaving keeps, and what holds beside it while
// initializations do not overlap.

module BackupContents {
  import opened Wrappers
  import opened SoulTypes
  import opened ChangeDetector
  import opened Uploader
  import opened ManifestBuilder
  import opened SchedulerModel
  import opened SchedulerSafety
  import opened Decisions

  /** An entry made for this file has its mark and category. */
  predicate MarkedAs(e: Entry, f: FileState) {
    e.encrypted == f.encrypted && e.category == f.category
  }

  /** Of a scan compared with `base`, an unchanged file has its old entry, and any other one is
      still to be uploaded or has an entry of its own. */
  predicate Fits(base: map<Text, Entry>, scan: seq<FileState>, todo: seq<FileState>, entries: map<Text, Entry>) {
    && (forall f :: f in todo ==> f in scan)
    && (forall f :: f in scan && !IsNewOrChanged(f, base) ==>
          Carries(f, base, entries) && f.relativePath !in PathsOf(todo))
    && (forall f :: f in scan && IsNewOrChanged(f, base) ==>
          f in todo || (f.relativePath in entries && MarkedAs(entries[f.relativePath], f)))
  }

  ghost predicate IsStored(w: World, c: Cid, m: Manifest) {
    c in w.origins && c in w.store && w.store[c].Json? && w.store[c].manifest == m
  }

  /** The files of a manifest stored before `rank`, or none. */
  ghost predicate StoredBefore(w: World, rank: nat, base: map<Text, Entry>) {
    base != map[] ==> exists b, m :: IsStored(w, b, m) && m.files == base && w.origins[b].rank < rank
  }

  ghost predicate ContentOk(w: World, c: Cid)
    requires c in w.origins
  {
    && c in w.store && w.store[c].Json?
    && Fits(w.origins[c].base, w.origins[c].scan, [], w.store[c].manifest.files)
    && StoredBefore(w, w.origins[c].rank, w.origins[c].base)
  }

  ghost predicate ContentsOk(w: World) {
    forall c {:trigger ContentOk(w, c)} :: c in w.origins ==> ContentOk(w, c)
  }

  ghost predicate TaskContent(w: World, task: Task) {
    match task
    case Scanning(_, previous) => previous.Some? ==> StoredBefore(w, w.clock, previous.value.files)
    case Uploading(_, scan, todo, entries, _, base) => Fits(base, scan, todo, entries) && StoredBefore(w, w.clock, base)
    case Digesting(_, _, scan, entries, _, base) => Fits(base, scan, [], entries) && StoredBefore(w, w.clock, base)
    case Adding(_, m, scan, _, base) => Fits(base, scan, [], m.files) && StoredBefore(w, w.clock, base)
    case _ => true
  }

  ghost predicate Composed(s: State) {
    && ContentsOk(s.world)
    && (s.mem.lastManifest.Some? ==> StoredBefore(s.world, s.world.clock, s.mem.lastManifest.value.files))
    && (forall t :: t in s.tasks ==> TaskContent(s.world, s.tasks[t]))
  }

  lemma StoredBeforeSurvives(a: World, b: World, base: map<Text, Entry>)
    requires WorldGrows(a, b) && StoredBefore(a, a.clock, base)
    ensures StoredBefore(b, b.clock, base)
  {
    if base != map[] {
      var c, m :| IsStored(a, c, m) && m.files == base && a.origins[c].rank < a.clock;
      assert IsStored(b, c, m);
    }
  }

  lemma ContentSurvives(a: World, b: World, c: Cid)
    requires WorldGrows(a, b) && c in a.origins && ContentOk(a, c)
    ensures ContentOk(b, c)
  {
    var base := a.origins[c].base;
    if base != map[] {
      var d, m :| IsStored(a, d, m) && m.files == base && a.origins[d].rank < a.origins[c].rank;
      assert IsStored(b, d, m);
    }
  }

  lemma TaskContentSurvives(a: World, b: World, task: Task)
    requires WorldGrows(a, b) && TaskContent(a, task)
    ensures TaskContent(b, task)
  {
    match task
    case Scanning(_, previous) => if previous.Some? { StoredBeforeSurvives(a, b, previous.value.files); }
    case Uploading(_, _, _, _, _, base) => StoredBeforeSurvives(a, b, base);
    case Digesting(_, _, _, _, _, base) => StoredBeforeSurvives(a, b, base);
    case Adding(_, _, _, _, base) => StoredBeforeSurvives(a, b, base);
    case _ =>
  }

  /** Everything but the moving task, the fields and what is newly stored. */
  lemma OneTaskComposes(s: State, s': State, t: nat)
    requires Composed(s) && WorldGrows(s.world, s'.world) && ContentsOk(s'.world)
    requires OnlyMoves(s, s', t) && (t in s'.tasks ==> TaskContent(s'.world, s'.tasks[t]))
    requires s'.mem.lastManifest == s.mem.lastManifest
          || (s'.mem.lastManifest.Some? ==> StoredBefore(s'.world, s'.world.clock, s'.mem.lastManifest.value.files))
    ensures Composed(s')
  {
    if s.mem.lastManifest.Some? {
      StoredBeforeSurvives(s.world, s'.world, s.mem.lastManifest.value.files);
    }
    forall u | u in s'.tasks ensures TaskContent(s'.world, s'.tasks[u]) {
      if u != t {
        TaskContentSurvives(s.world, s'.world, s.tasks[u]);
      }
    }
  }

  lemma SameOriginsSameContents(a: World, b: World)
    requires ContentsOk(a) && WorldGrows(a, b) && b.origins.Keys == a.origins.Keys
    ensures ContentsOk(b)
  {
    forall c | c in b.origins ensures ContentOk(b, c) {
      assert ContentOk(a, c);
      ContentSurvives(a, b, c);
    }
  }

  lemma BeginningFits(task: Task, next: Task, scan: seq<FileState>)
    requires task.Scanning? && ScanOk(scan) && StartsUploading(task, next, scan)
    ensures Fits(next.base, scan, next.todo, next.entries)
  {
    forall f | f in scan && !IsNewOrChanged(f, next.base) ensures f.relativePath !in PathsOf(next.todo) {
      assert Carries(f, next.base, next.entries);
    }
  }

  lemma ScanComposes(cfg: Config, s: State, t: nat, scan: seq<FileState>)
    requires Composed(s) && Enabled(cfg, s, Scanned(t, scan))
    ensures Composed(Next(cfg, s, Scanned(t, scan)))
  {
    WorldStays(s.world);
    ScanDecides(cfg, s, t, scan);
    var s' := Next(cfg, s, Scanned(t, scan));
    if !s'.tasks[t].Heartbeating? {
      BeginningFits(s.tasks[t], s'.tasks[t], scan);
    }
    OneTaskComposes(s, s', t);
  }

  /** An uploaded file gets an entry of its own. */
  lemma UploadFits(task: Task, u: Upload, key: Key)
    requires task.Uploading? && task.todo != [] && ScanOk(task.scan)
    requires Fits(task.base, task.scan, task.todo, task.entries)
    ensures var f := task.todo[0];
            Fits(task.base, task.scan, task.todo[1..], task.entries[f.relativePath := EntryFor(f, u, key)])
  {
    var f := task.todo[0];
    assert task.todo == [f] + task.todo[1..];
    forall g | g in task.scan && g.relativePath == f.relativePath ensures g == f {
    }
    assert PathsOf(task.todo[1..]) <= PathsOf(task.todo);
    assert f in task.todo && f.relativePath in PathsOf(task.todo);
  }

  lemma UploadComposes(cfg: Config, s: State, t: nat, u: Upload)
    requires Inv(cfg, s) && Composed(s) && Enabled(cfg, s, Uploaded(t, u))
    ensures Composed(Next(cfg, s, Uploaded(t, u)))
  {
    var s' := Next(cfg, s, Uploaded(t, u));
    AddBlobKeepsWorld(cfg, s.world, u.cid, Payload(s.tasks[t].todo[0], u, cfg.key));
    SameOriginsSameContents(s.world, s'.world);
    assert TaskOk(cfg, s.world, s.tasks[t]);
    UploadFits(s.tasks[t], u, cfg.key);
    StoredBeforeSurvives(s.world, s'.world, s.tasks[t].base);
    OneTaskComposes(s, s', t);
  }

  lemma AddComposes(cfg: Config, s: State, t: nat, cid: Cid, size: nat)
    requires Inv(cfg, s) && Composed(s) && Enabled(cfg, s, ManifestAdded(t, cid, size))
    ensures Composed(Next(cfg, s, ManifestAdded(t, cid, size)))
  {
    var s' := Next(cfg, s, ManifestAdded(t, cid, size));
    var task := s.tasks[t];
    assert TaskOk(cfg, s.world, task);
    AddManifestKeepsWorld(cfg, s.world, cid, task.manifest, size, OriginOf(s.world, task));
    forall c | c in s'.world.origins ensures ContentOk(s'.world, c) {
      if c in s.world.origins {
        assert ContentOk(s.world, c);
        ContentSurvives(s.world, s'.world, c);
      } else {
        NewContentIsOk(s.world, s'.world, c, task);
      }
    }
    OneTaskComposes(s, s', t);
  }

  lemma NewContentIsOk(a: World, b: World, c: Cid, task: Task)
    requires WorldGrows(a, b) && task.Adding? && TaskContent(a, task)
    requires IsStored(b, c, task.manifest) && b.origins[c] == OriginOf(a, task)
    ensures ContentOk(b, c)
  {
    if task.base != map[] {
      var d, m :| IsStored(a, d, m) && m.files == task.base && a.origins[d].rank < a.clock;
      assert IsStored(b, d, m);
    }
  }

  lemma StoredIsStoredBefore(cfg: Config, w: World, c: Cid, m: Manifest)
    requires WorldOk(cfg, w) && IsStored(w, c, m)
    ensures StoredBefore(w, w.clock, m.files)
  {
    assert StoredManifest(cfg, w, c);
  }

  lemma AnchorComposes(cfg: Config, s: State, ev: Event)
    requires Inv(cfg, s) && Composed(s) && Enabled(cfg, s, ev) && (ev.Anchored? || ev.AnchoredThenFailed?)
    ensures Composed(Next(cfg, s, ev))
  {
    var s' := Next(cfg, s, ev);
    var task := s.tasks[ev.t];
    assert TaskOk(cfg, s.world, task);
    AnchorKeepsWorld(cfg, s.world, task.cid, task.manifest);
    SameOriginsSameContents(s.world, s'.world);
    StoredIsStoredBefore(cfg, s'.world, task.cid, task.manifest);
    OneTaskComposes(s, s', ev.t);
  }

  lemma HydrationComposes(cfg: Config, s: State, t: nat)
    requires Inv(cfg, s) && Composed(s) && Enabled(cfg, s, Hydrated(t))
    ensures Composed(Next(cfg, s, Hydrated(t)))
  {
    WorldStays(s.world);
    var c := s.tasks[t].cid;
    assert TaskOk(cfg, s.world, s.tasks[t]) && StoredManifest(cfg, s.world, c);
    StoredIsStoredBefore(cfg, s.world, c, s.world.store[c].manifest);
    OneTaskComposes(s, Next(cfg, s, Hydrated(t)), t);
  }

  /** The steps that leave the world alone and start from what the fields hold. */
  lemma BeginningComposes(cfg: Config, s: State, ev: Event)
    requires Composed(s) && Enabled(cfg, s, ev)
    requires ev.Call? || ev.StateRead? || ev.HydrationFailed? || ev.Enter? || ev.Resolved?
    ensures Composed(Next(cfg, s, ev))
  {
    WorldStays(s.world);
    OneTaskComposes(s, Next(cfg, s, ev), ev.t);
  }

  lemma LocalStepComposes(cfg: Config, s: State, ev: Event)
    requires Composed(s) && Enabled(cfg, s, ev)
    requires ev.NotRegistered? || ev.UploadsDone? || ev.Digested? || ev.PackageWritten? || ev.StateWritten?
          || ev.HeartbeatDone? || ev.Failed?
    ensures Composed(Next(cfg, s, ev))
  {
    WorldStays(s.world);
    OneTaskComposes(s, Next(cfg, s, ev), ev.t);
  }

  lemma FileEventComposes(cfg: Config, s: State, ev: Event)
    requires Composed(s) && Enabled(cfg, s, ev)
    requires ev.Crashed? || ev.StateFileLost? || ev.PatchRead? || ev.PatchWritten?
    ensures Composed(Next(cfg, s, ev))
  {
    assert Next(cfg, s, ev).world == s.world;
  }

  lemma StepComposes(cfg: Config, s: State, ev: Event)
    requires Inv(cfg, s) && Composed(s) && Enabled(cfg, s, ev)
    ensures Composed(Next(cfg, s, ev))
  {
    if ev.Scanned? {
      ScanComposes(cfg, s, ev.t, ev.scan);
    } else if ev.Uploaded? {
      UploadComposes(cfg, s, ev.t, ev.u);
    } else if ev.ManifestAdded? {
      AddComposes(cfg, s, ev.t, ev.cid, ev.size);
    } else if ev.Anchored? || ev.AnchoredThenFailed? {
      AnchorComposes(cfg, s, ev);
    } else if ev.Hydrated? {
      HydrationComposes(cfg, s, ev.t);
    } else if ev.Crashed? || ev.StateFileLost? || ev.PatchRead? || ev.PatchWritten? {
      FileEventComposes(cfg, s, ev);
    } else if ev.Call? || ev.StateRead? || ev.HydrationFailed? || ev.Enter? || ev.Resolved? {
      BeginningComposes(cfg, s, ev);
    } else {
      LocalStepComposes(cfg, s, ev);
    }
  }

  lemma {:induction false} RunComposes(cfg: Config, s: State, evs: seq<Event>, serial: bool)
    requires Inv(cfg, s) && Composed(s) && Runs(cfg, s, evs, serial)
    ensures Composed(After(cfg, s, evs, serial))
    decreases |evs|
  {
    if evs != [] {
      StepKeepsInv(cfg, s, evs[0]);
      StepComposes(cfg, s, evs[0]);
      RunComposes(cfg, Next(cfg, s, evs[0]), evs[1..], serial);
    }
  }

  /** The blob behind an entry: a frame sealed under the key if and only if the entry says so. */
  ghost predicate SealedAsMarked(store: Store, key: Key, e: Entry, content: Blob) {
    && e.cid in store
    && (e.encrypted ==> store[e.cid].Sealed? && store[e.cid].key == key && store[e.cid].plain == content)
    && (!e.encrypted ==> store[e.cid] == content)
  }

  /** After any run, whatever interleaved: of every stored manifest, a file whose hash was the one
      it had in the earlier manifest that the scan was compared with keeps its entry, mark and
      all; every other file has the mark and category of the scan.  The stored bytes are sealed
      if and only if the entry is marked. */
  lemma EntriesAreMarked(cfg: Config, store: Store, evs: seq<Event>, serial: bool, c: Cid, f: FileState)
    requires Runs(cfg, Init(store), evs, serial)
    requires c in After(cfg, Init(store), evs, serial).world.origins
    requires f in After(cfg, Init(store), evs, serial).world.origins[c].scan
    ensures var w := After(cfg, Init(store), evs, serial).world;
            && StoredManifest(cfg, w, c) && f.relativePath in w.store[c].manifest.files
            && StoredBefore(w, w.origins[c].rank, w.origins[c].base)
            && var e := w.store[c].manifest.files[f.relativePath];
               && (if IsNewOrChanged(f, w.origins[c].base) then MarkedAs(e, f)
                   else e == w.origins[c].base[f.relativePath])
               && SealedAsMarked(w.store, cfg.key, e, w.origins[c].seen[f.relativePath])
  {
    EveryRunIsSafe(cfg, store, evs, serial);
    RunComposes(cfg, Init(store), evs, serial);
    var w := After(cfg, Init(store), evs, serial).world;
    assert StoredManifest(cfg, w, c) && ContentOk(w, c);
    assert f.relativePath in PathsOf(w.origins[c].scan);
  }
}
