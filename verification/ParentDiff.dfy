// Full or incremental, and against what: runs whose initializations do not overlap.

module ParentDiff {
  import opened Wrappers
  import opened SoulTypes
  import opened ChangeDetector
  import opened Uploader
  import opened SchedulerModel
  import opened SchedulerSafety
  import opened ChainBound
  import opened Decisions
  import opened BackupContents

  /** The last manifest is the one stored under the head, and known as soon as there is a head. */
  ghost predicate HeadIsLoaded(w: World, m: Fields) {
    && (m.lastManifest.Some? ==> m.lastManifestCid.Some? && IsStored(w, m.lastManifestCid.value, m.lastManifest.value))
    && (m.initialized && m.lastManifestCid.Some? ==> m.lastManifest.Some?)
  }

  predicate ComparedWith(isFull: bool, last: Option<Manifest>, base: map<Text, Entry>) {
    if isFull then base == map[] else last.Some? && base == last.value.files
  }

  predicate TaskIsBased(last: Option<Manifest>, task: Task) {
    match task
    case Scanning(isFull, previous) => if isFull then previous == None else previous == last && last.Some?
    case Uploading(isFull, _, _, _, _, base) => ComparedWith(isFull, last, base)
    case Digesting(isFull, _, _, _, _, base) => ComparedWith(isFull, last, base)
    case Adding(isFull, _, _, _, base) => ComparedWith(isFull, last, base)
    case _ => true
  }

  /** The entries the backup was compared with are those of its parent. */
  ghost predicate ParentIsBase(w: World, c: Cid)
    requires c in w.origins
  {
    && c in w.store && w.store[c].Json?
    && var parent := w.store[c].manifest.parentCid;
       if parent == None then w.origins[c].base == map[]
       else exists m :: IsStored(w, parent.value, m) && w.origins[c].base == m.files
  }

  ghost predicate Based(s: State) {
    && (forall c {:trigger ParentIsBase(s.world, c)} :: c in s.world.origins ==> ParentIsBase(s.world, c))
    && HeadIsLoaded(s.world, s.mem)
    && (forall t :: t in s.tasks ==> TaskIsBased(s.mem.lastManifest, s.tasks[t]))
  }

  lemma ParentIsBaseSurvives(a: World, b: World, c: Cid)
    requires WorldGrows(a, b) && c in a.origins && ParentIsBase(a, c)
    ensures ParentIsBase(b, c)
  {
    var parent := a.store[c].manifest.parentCid;
    if parent.Some? {
      var m :| IsStored(a, parent.value, m) && a.origins[c].base == m.files;
      assert IsStored(b, parent.value, m);
    }
  }

  lemma OldBasesSurvive(s: State, w: World)
    requires Based(s) && WorldGrows(s.world, w)
    ensures forall c {:trigger ParentIsBase(w, c)} :: c in s.world.origins ==> ParentIsBase(w, c)
  {
    forall c | c in s.world.origins ensures ParentIsBase(w, c) {
      assert ParentIsBase(s.world, c);
      ParentIsBaseSurvives(s.world, w, c);
    }
  }

  /** A step of `t` that keeps the last manifest, or that the other calls do not depend on. */
  lemma OneTaskKeepsBased(s: State, s': State, t: nat)
    requires Based(s) && WorldGrows(s.world, s'.world)
    requires forall c {:trigger ParentIsBase(s'.world, c)} :: c in s'.world.origins ==> ParentIsBase(s'.world, c)
    requires OnlyMoves(s, s', t) && (t in s'.tasks ==> TaskIsBased(s'.mem.lastManifest, s'.tasks[t]))
    requires HeadIsLoaded(s'.world, s'.mem)
    requires s'.mem.lastManifest == s.mem.lastManifest || forall u :: u in s.tasks && u != t ==> s.tasks[u].Ready?
    ensures Based(s')
  {
  }

  lemma HeadStaysLoaded(a: World, b: World, m: Fields, running: bool)
    requires WorldGrows(a, b) && HeadIsLoaded(a, m)
    ensures HeadIsLoaded(b, m.(running := running))
  {
  }

  lemma InitializationKeepsBased(cfg: Config, s: State, ev: Event)
    requires Inv(cfg, s) && Bounded(cfg, s) && Based(s) && Enabled(cfg, s, ev)
    requires ev.StateRead? || ev.Hydrated? || ev.HydrationFailed?
    ensures Based(Next(cfg, s, ev))
  {
    WorldStays(s.world);
    OthersAreReady(cfg, s, ev.t);
    assert Agrees(cfg, s, ev.t) && TaskOk(cfg, s.world, s.tasks[ev.t]);
    if ev.Hydrated? {
      assert StoredManifest(cfg, s.world, s.tasks[ev.t].cid);
    }
    OneTaskKeepsBased(s, Next(cfg, s, ev), ev.t);
  }

  lemma AnchoredWorldGrows(cfg: Config, s: State, t: nat)
    requires Inv(cfg, s) && At(s, t) && s.tasks[t].Anchoring?
    ensures var task := s.tasks[t];
            var w := Anchor(s.world, task.cid, task.manifest);
            WorldGrows(s.world, w) && w.origins == s.world.origins && IsStored(w, task.cid, task.manifest)
  {
    assert TaskOk(cfg, s.world, s.tasks[t]);
    AnchorKeepsWorld(cfg, s.world, s.tasks[t].cid, s.tasks[t].manifest);
  }

  lemma AnchorKeepsBased(cfg: Config, s: State, t: nat)
    requires Inv(cfg, s) && Bounded(cfg, s) && Based(s) && Enabled(cfg, s, Anchored(t))
    ensures Based(Next(cfg, s, Anchored(t)))
  {
    var s' := Next(cfg, s, Anchored(t));
    OthersAreReady(cfg, s, t);
    AnchoredWorldGrows(cfg, s, t);
    OldBasesSurvive(s, s'.world);
    OneTaskKeepsBased(s, s', t);
  }

  lemma LostAnchorKeepsBased(cfg: Config, s: State, t: nat)
    requires Inv(cfg, s) && Based(s) && Enabled(cfg, s, AnchoredThenFailed(t))
    ensures Based(Next(cfg, s, AnchoredThenFailed(t)))
  {
    var s' := Next(cfg, s, AnchoredThenFailed(t));
    AnchoredWorldGrows(cfg, s, t);
    OldBasesSurvive(s, s'.world);
    HeadStaysLoaded(s.world, s'.world, s.mem, false);
    OneTaskKeepsBased(s, s', t);
  }

  lemma UploadKeepsBased(cfg: Config, s: State, t: nat, u: Upload)
    requires Inv(cfg, s) && Based(s) && Enabled(cfg, s, Uploaded(t, u))
    ensures Based(Next(cfg, s, Uploaded(t, u)))
  {
    var s' := Next(cfg, s, Uploaded(t, u));
    AddBlobKeepsWorld(cfg, s.world, u.cid, Payload(s.tasks[t].todo[0], u, cfg.key));
    OldBasesSurvive(s, s'.world);
    HeadStaysLoaded(s.world, s'.world, s.mem, s.mem.running);
    OneTaskKeepsBased(s, s', t);
  }

  lemma NewManifestHasItsBase(cfg: Config, s: State, t: nat, w: World, c: Cid)
    requires Bounded(cfg, s) && Based(s) && At(s, t) && s.tasks[t].Adding? && WorldGrows(s.world, w)
    requires IsStored(w, c, s.tasks[t].manifest) && w.origins[c] == OriginOf(s.world, s.tasks[t])
    ensures ParentIsBase(w, c)
  {
    assert Agrees(cfg, s, t);
    if !s.tasks[t].isFull {
      assert IsStored(w, s.mem.lastManifestCid.value, s.mem.lastManifest.value);
    }
  }

  lemma AddKeepsBased(cfg: Config, s: State, t: nat, cid: Cid, size: nat)
    requires Inv(cfg, s) && Bounded(cfg, s) && Based(s) && Enabled(cfg, s, ManifestAdded(t, cid, size))
    ensures Based(Next(cfg, s, ManifestAdded(t, cid, size)))
  {
    var s' := Next(cfg, s, ManifestAdded(t, cid, size));
    var task := s.tasks[t];
    assert TaskOk(cfg, s.world, task);
    AddManifestKeepsWorld(cfg, s.world, cid, task.manifest, size, OriginOf(s.world, task));
    OldBasesSurvive(s, s'.world);
    if cid !in s.world.origins {
      NewManifestHasItsBase(cfg, s, t, s'.world, cid);
    }
    HeadStaysLoaded(s.world, s'.world, s.mem, s.mem.running);
    OneTaskKeepsBased(s, s', t);
  }

  lemma ScanKeepsBased(cfg: Config, s: State, t: nat, scan: seq<FileState>)
    requires Based(s) && Enabled(cfg, s, Scanned(t, scan))
    ensures Based(Next(cfg, s, Scanned(t, scan)))
  {
    WorldStays(s.world);
    ScanDecides(cfg, s, t, scan);
    OneTaskKeepsBased(s, Next(cfg, s, Scanned(t, scan)), t);
  }

  lemma ChoiceKeepsBased(cfg: Config, s: State, t: nat)
    requires Based(s) && Enabled(cfg, s, Resolved(t))
    ensures Based(Next(cfg, s, Resolved(t)))
  {
    WorldStays(s.world);
    OneTaskKeepsBased(s, Next(cfg, s, Resolved(t)), t);
  }

  lemma CrashKeepsBased(cfg: Config, s: State, ev: Event)
    requires Based(s) && Enabled(cfg, s, ev)
    requires ev.Crashed? || ev.StateFileLost? || ev.PatchRead? || ev.PatchWritten?
    ensures Based(Next(cfg, s, ev))
  {
    var s' := Next(cfg, s, ev);
    assert s'.world == s.world;
    forall c | c in s'.world.origins ensures ParentIsBase(s'.world, c) {
      assert ParentIsBase(s.world, c);
    }
  }

  /** The steps that leave the world and the last manifest alone. */
  lemma LocalStepKeepsBased(cfg: Config, s: State, ev: Event)
    requires Based(s) && Enabled(cfg, s, ev)
    requires ev.Call? || ev.Enter? || ev.NotRegistered? || ev.UploadsDone? || ev.Digested? || ev.PackageWritten?
          || ev.StateWritten? || ev.HeartbeatDone? || ev.Failed?
    ensures Based(Next(cfg, s, ev))
  {
    WorldStays(s.world);
    HeadStaysLoaded(s.world, s.world, s.mem, Next(cfg, s, ev).mem.running);
    OneTaskKeepsBased(s, Next(cfg, s, ev), ev.t);
  }

  lemma WorldStepKeepsBased(cfg: Config, s: State, ev: Event)
    requires Inv(cfg, s) && Bounded(cfg, s) && Based(s) && Enabled(cfg, s, ev)
    requires ev.Uploaded? || ev.ManifestAdded? || ev.Anchored? || ev.AnchoredThenFailed?
    ensures Based(Next(cfg, s, ev))
  {
    match ev
    case Uploaded(t, u) => UploadKeepsBased(cfg, s, t, u);
    case ManifestAdded(t, cid, size) => AddKeepsBased(cfg, s, t, cid, size);
    case Anchored(t) => AnchorKeepsBased(cfg, s, t);
    case AnchoredThenFailed(t) => LostAnchorKeepsBased(cfg, s, t);
  }

  lemma StepKeepsBased(cfg: Config, s: State, ev: Event)
    requires Inv(cfg, s) && Bounded(cfg, s) && Based(s) && Enabled(cfg, s, ev)
    ensures Based(Next(cfg, s, ev))
  {
    if ev.StateRead? || ev.Hydrated? || ev.HydrationFailed? {
      InitializationKeepsBased(cfg, s, ev);
    } else if ev.Crashed? || ev.StateFileLost? || ev.PatchRead? || ev.PatchWritten? {
      CrashKeepsBased(cfg, s, ev);
    } else if ev.Uploaded? || ev.ManifestAdded? || ev.Anchored? || ev.AnchoredThenFailed? {
      WorldStepKeepsBased(cfg, s, ev);
    } else if ev.Scanned? {
      ScanKeepsBased(cfg, s, ev.t, ev.scan);
    } else if ev.Resolved? {
      ChoiceKeepsBased(cfg, s, ev.t);
    } else {
      LocalStepKeepsBased(cfg, s, ev);
    }
  }

  lemma {:induction false} RunKeepsBased(cfg: Config, s: State, evs: seq<Event>)
    requires Inv(cfg, s) && Bounded(cfg, s) && Based(s) && Runs(cfg, s, evs, true)
    ensures Based(After(cfg, s, evs, true))
    decreases |evs|
  {
    if evs != [] {
      SafeStepIsOrderly(cfg, s, evs[0]);
      StepKeepsInv(cfg, s, evs[0]);
      StepKeepsBound(cfg, s, evs[0]);
      StepKeepsBased(cfg, s, evs[0]);
      RunKeepsBased(cfg, Next(cfg, s, evs[0]), evs[1..]);
    }
  }

  // ----- What follows for whole runs -----

  lemma ParentIsTheBase(cfg: Config, s: State, c: Cid)
    requires Inv(cfg, s) && Based(s) && c in s.world.origins
    ensures StoredManifest(cfg, s.world, c)
    ensures var p := s.world.store[c].manifest.parentCid;
            && (p.Some? ==> p.value in s.world.origins && StoredManifest(cfg, s.world, p.value))
            && s.world.origins[c].base == if p.Some? then s.world.store[p.value].manifest.files else map[]
  {
    assert StoredManifest(cfg, s.world, c) && ParentIsBase(s.world, c);
    var p := s.world.store[c].manifest.parentCid;
    assert p.Some? ==> StoredManifest(cfg, s.world, p.value);
  }

  /** The entry of `f` is its parent's if the parent has its hash, and otherwise one of its own. */
  ghost predicate ExtendsParent(w: World, m: Manifest, f: FileState) {
    && f.relativePath in m.files
    && (m.parentCid.Some? ==> m.parentCid.value in w.store && w.store[m.parentCid.value].Json?)
    && var before := if m.parentCid.Some? then w.store[m.parentCid.value].manifest.files else map[];
       if IsNewOrChanged(f, before) then MarkedAs(m.files[f.relativePath], f)
       else m.files[f.relativePath] == before[f.relativePath]
  }

  lemma StoredExtendsParent(cfg: Config, s: State, c: Cid, f: FileState)
    requires Inv(cfg, s) && Composed(s) && Based(s) && c in s.world.origins && f in s.world.origins[c].scan
    ensures c in s.world.store && s.world.store[c].Json? && ExtendsParent(s.world, s.world.store[c].manifest, f)
  {
    ParentIsTheBase(cfg, s, c);
    assert ContentOk(s.world, c);
    assert f.relativePath in PathsOf(s.world.origins[c].scan);
  }

  /** An incremental backup is a difference to its parent, a full one to nothing: an entry is the
      parent's for exactly the files that have the parent's hash. */
  lemma IncrementalsExtendTheirParent(cfg: Config, store: Store, evs: seq<Event>, c: Cid, f: FileState)
    requires Runs(cfg, Init(store), evs, true)
    requires c in After(cfg, Init(store), evs, true).world.origins
    requires f in After(cfg, Init(store), evs, true).world.origins[c].scan
    ensures var w := After(cfg, Init(store), evs, true).world;
            c in w.store && w.store[c].Json? && ExtendsParent(w, w.store[c].manifest, f)
  {
    RunComposes(cfg, Init(store), evs, true);
    RunKeepsBased(cfg, Init(store), evs);
    EveryRunIsSafe(cfg, store, evs, true);
    StoredExtendsParent(cfg, After(cfg, Init(store), evs, true), c, f);
  }

  /** A backup is full if and only if it is forced, or there is no head, or the chain behind the
      head has reached its limit; otherwise it is compared with the manifest under the head. */
  lemma FullIsDecided(cfg: Config, store: Store, evs: seq<Event>, t: nat)
    requires Runs(cfg, Init(store), evs, true)
    requires Enabled(cfg, After(cfg, Init(store), evs, true), Resolved(t))
    ensures var s := After(cfg, Init(store), evs, true);
            var head := s.mem.lastManifestCid;
            var next := Next(cfg, s, Resolved(t)).tasks[t];
            && RankedWorld(s.world) && (head.Some? ==> head.value in s.world.origins)
            && next.Scanning?
            && (next.isFull <==>
                  s.tasks[t].force || head == None || |ChainOf(s.world, head.value)| > cfg.maxIncrementalChain)
            && (next.isFull ==> next.previous == None)
            && (!next.isFull ==> next.previous.Some? && IsStored(s.world, head.value, next.previous.value))
  {
    RunKeepsBound(cfg, Init(store), evs);
    RunKeepsBased(cfg, Init(store), evs);
    var s := After(cfg, Init(store), evs, true);
    assert Agrees(cfg, s, t);
  }

  /** What is decided is what is published: a full backup has no parent, an incremental one the
      head, which is still the one it was compared with. */
  lemma DecisionIsPublished(cfg: Config, store: Store, evs: seq<Event>, t: nat)
    requires Runs(cfg, Init(store), evs, true)
    requires At(After(cfg, Init(store), evs, true), t) && After(cfg, Init(store), evs, true).tasks[t].Adding?
    ensures var s := After(cfg, Init(store), evs, true);
            var task := s.tasks[t];
            && (task.isFull <==> task.manifest.parentCid == None)
            && (!task.isFull ==>
                  && task.manifest.parentCid == s.mem.lastManifestCid
                  && exists m :: IsStored(s.world, task.manifest.parentCid.value, m) && task.base == m.files)
  {
    RunKeepsBound(cfg, Init(store), evs);
    RunKeepsBased(cfg, Init(store), evs);
    var s := After(cfg, Init(store), evs, true);
    assert Agrees(cfg, s, t);
    if !s.tasks[t].isFull {
      assert IsStored(s.world, s.mem.lastManifestCid.value, s.mem.lastManifest.value);
    }
  }

  /** A restart takes up the saved chain where the saved manifest can be fetched, and otherwise
      begins a new one. */
  lemma RestartResumesChain(cfg: Config, s: State, t: nat, force: bool, c: Cid, readable: bool)
    requires s.saved.lastManifestCid == Some(c) && CatManifest(s.world.store, c).Some?
    ensures var evs := [Crashed, Call(t, force), StateRead(t), if readable then Hydrated(t) else HydrationFailed(t)];
            && Runs(cfg, s, evs, true)
            && var m := After(cfg, s, evs, true).mem;
               && m.initialized && !m.running
               && m.lastManifestCid == (if readable then Some(c) else None)
               && m.lastManifest == (if readable then CatManifest(s.world.store, c) else None)
               && m.incrementalCount == (if readable then s.saved.incrementalCount else 0)
  {
    var last := if readable then Hydrated(t) else HydrationFailed(t);
    var evs := [Crashed, Call(t, force), StateRead(t), last];
    var crashed := Next(cfg, s, Crashed);
    var called := Next(cfg, crashed, Call(t, force));
    var read := Next(cfg, called, StateRead(t));
    var done := Next(cfg, read, last);
    assert evs[1..][0] == evs[1] && evs[2..][0] == evs[2] && evs[3..] == [last];
    assert evs[1..][1..] == evs[2..] && evs[2..][1..] == evs[3..] && evs[3..][1..] == [];
    assert Runs(cfg, done, [], true) && After(cfg, done, [], true) == done;
    assert Runs(cfg, read, evs[3..], true) && After(cfg, read, evs[3..], true) == done;
    assert Runs(cfg, called, evs[2..], true) && After(cfg, called, evs[2..], true) == done;
    assert Runs(cfg, crashed, evs[1..], true) && After(cfg, crashed, evs[1..], true) == done;
  }
}
