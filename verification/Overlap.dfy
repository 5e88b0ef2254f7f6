// When a call of runBackup may begin while another one is still initializing the scheduler.

module Overlap {
  import opened Wrappers
  import opened SoulTypes
  import opened Paths
  import opened ChangeDetector
  import opened Uploader
  import opened ManifestBuilder
  import opened SchedulerModel
  import opened SchedulerSafety
  import opened ChainBound

  /** The counter counts the chain behind the head, in memory and in the state file. */
  ghost predicate Counts(cfg: Config, s: State) {
    Counted(cfg, s.world, HeadOf(s.mem)) && Counted(cfg, s.world, s.saved)
  }

  /** However a run goes on, with no further overlap, the counter counts. */
  ghost predicate Harmless(cfg: Config, s: State) {
    forall evs :: Runs(cfg, s, evs, true) ==> Counts(cfg, After(cfg, s, evs, true))
  }

  /** Three identifiers for two manifests and a file that the store does not know yet. */
  datatype Fresh = Fresh(full: Cid, note: Cid, incremental: Cid)

  ghost predicate Unused(store: Store, cid: Cid) {
    ValidCid(cid) && cid !in store
  }

  ghost predicate SpareIncremental(store: Store, x: Fresh) {
    Unused(store, x.note) && Unused(store, x.incremental) && x.note != x.incremental
  }

  ghost predicate Spare(store: Store, x: Fresh) {
    SpareIncremental(store, x) && Unused(store, x.full) && x.full != x.note && x.full != x.incremental
  }

  const NOTE := FileState("a", Sha256(Raw("")), false, Identity)

  /** A usual length of a short manifest. */
  const MANIFEST_SIZE := 1024

  // ----- Backwards from the wrong count, one step at a time -----

  lemma HarmAt(cfg: Config, s: State)
    requires !Counts(cfg, s)
    ensures !Harmless(cfg, s)
  {
    assert Runs(cfg, s, [], true) && After(cfg, s, [], true) == s;
  }

  lemma HarmBefore(cfg: Config, s: State, ev: Event)
    requires Enabled(cfg, s, ev) && (ev.Call? ==> s.mem.initialized || s.tasks == map[])
    requires !Harmless(cfg, Next(cfg, s, ev))
    ensures !Harmless(cfg, s)
  {
    var evs :| Runs(cfg, Next(cfg, s, ev), evs, true) && !Counts(cfg, After(cfg, Next(cfg, s, ev), evs, true));
    assert ([ev] + evs)[0] == ev && ([ev] + evs)[1..] == evs;
    assert Runs(cfg, s, [ev] + evs, true);
  }

  /** An incremental backup without a parent is counted: the chain behind the new head has one
      manifest, and the counter promises at least two. */
  lemma OrphanIsCounted(cfg: Config, s: State, u: nat)
    requires At(s, u) && s.tasks[u].Anchoring? && !s.tasks[u].isFull && s.tasks[u].manifest.parentCid == None
    requires s.tasks[u].cid in s.world.store && s.world.store[s.tasks[u].cid].Json?
    requires s.world.store[s.tasks[u].cid].manifest == s.tasks[u].manifest
    ensures !Harmless(cfg, s)
  {
    HarmAt(cfg, Next(cfg, s, Anchored(u)));
    HarmBefore(cfg, s, Anchored(u));
  }

  lemma OrphanIsStored(cfg: Config, s: State, u: nat, cid: Cid)
    requires At(s, u) && s.tasks[u].Adding? && !s.tasks[u].isFull && s.tasks[u].manifest.parentCid == None
    requires Unused(s.world.store, cid)
    ensures !Harmless(cfg, s)
  {
    OrphanIsCounted(cfg, Next(cfg, s, ManifestAdded(u, cid, MANIFEST_SIZE)), u);
    HarmBefore(cfg, s, ManifestAdded(u, cid, MANIFEST_SIZE));
  }

  lemma OrphanIsDigested(cfg: Config, s: State, u: nat, cid: Cid)
    requires At(s, u) && s.tasks[u].Digesting? && !s.tasks[u].isFull && s.tasks[u].parentCid == None
    requires Unused(s.world.store, cid)
    ensures !Harmless(cfg, s)
  {
    OrphanIsStored(cfg, Next(cfg, s, Digested(u, 0)), u, cid);
    HarmBefore(cfg, s, Digested(u, 0));
  }

  /** With the head gone, an incremental backup finds no parent. */
  lemma ParentIsMissing(cfg: Config, s: State, u: nat, cid: Cid)
    requires At(s, u) && s.tasks[u].Uploading? && !s.tasks[u].isFull && s.tasks[u].todo == []
    requires s.mem.lastManifestCid == None
    requires Unused(s.world.store, cid)
    ensures !Harmless(cfg, s)
  {
    OrphanIsDigested(cfg, Next(cfg, s, UploadsDone(u)), u, cid);
    HarmBefore(cfg, s, UploadsDone(u));
  }

  lemma NoteIsUploaded(cfg: Config, s: State, u: nat, x: Fresh)
    requires At(s, u) && s.tasks[u].Uploading? && !s.tasks[u].isFull && s.tasks[u].todo == [NOTE]
    requires s.mem.lastManifestCid == None && SpareIncremental(s.world.store, x)
    ensures !Harmless(cfg, s)
  {
    var ev := Uploaded(u, Upload(Raw(""), 0, x.note));
    assert [NOTE][1..] == [];
    ParentIsMissing(cfg, Next(cfg, s, ev), u, x.incremental);
    HarmBefore(cfg, s, ev);
  }

  lemma NoteIsScanned()
    ensures ScanOk([NOTE])
  {
    assert Split("") == [""] && "a"[1..] == "" && ['a'] + "" == "a";
    assert Split("a") == ["a"];
    assert PathsOf([NOTE]) == {"a"};
  }

  lemma NoteIsAdded(m: Manifest)
    requires m.files == map[]
    ensures var c := Changes([NOTE], Some(m)); c.added == [NOTE] && c.modified == []
  {
    assert [NOTE][..0] == [];
    assert Classify(NOTE, m.files) == Added;
    assert Select([], m.files, Added) == [];
    assert Select([NOTE], m.files, Added) == [] + [NOTE];
    assert Select([NOTE], m.files, Modified) == [];
  }

  lemma NoteIsFound(cfg: Config, s: State, u: nat, x: Fresh)
    requires At(s, u) && s.tasks[u].Scanning? && !s.tasks[u].isFull
    requires s.tasks[u].previous.Some? && s.tasks[u].previous.value.files == map[]
    requires s.mem.lastManifestCid == None && SpareIncremental(s.world.store, x)
    ensures !Harmless(cfg, s)
  {
    NoteIsScanned();
    NoteIsAdded(s.tasks[u].previous.value);
    assert [NOTE] + [] == [NOTE];
    NoteIsUploaded(cfg, Next(cfg, s, Scanned(u, [NOTE])), u, x);
    HarmBefore(cfg, s, Scanned(u, [NOTE]));
  }

  /** The fields still know the last manifest, but no longer its CID. */
  ghost predicate HeadForgotten(m: Fields) {
    && m.initialized && m.lastManifest.Some? && m.lastManifest.value.files == map[]
    && m.lastManifestCid == None && m.incrementalCount == 0
  }

  lemma ForgottenHeadBreaksCount(cfg: Config, s: State, u: nat, x: Fresh)
    requires cfg.maxIncrementalChain > 0
    requires HeadForgotten(s.mem) && !s.mem.running && !At(s, u) && SpareIncremental(s.world.store, x)
    ensures !Harmless(cfg, s)
  {
    var called := Next(cfg, s, Call(u, false));
    var entered := Next(cfg, called, Enter(u));
    NoteIsFound(cfg, Next(cfg, entered, Resolved(u)), u, x);
    HarmBefore(cfg, entered, Resolved(u));
    HarmBefore(cfg, called, Enter(u));
    HarmBefore(cfg, s, Call(u, false));
  }

  /** A state file without a head is read by `t` after the backup of `u` was anchored. */
  lemma HeadIsForgotten(cfg: Config, s: State, u: nat, t: nat, x: Fresh)
    requires cfg.maxIncrementalChain > 0
    requires At(s, u) && s.tasks[u].Executing() && At(s, t) && s.tasks[t].ReadingState?
    requires s.mem.initialized && s.mem.lastManifest.Some? && s.mem.lastManifest.value.files == map[]
    requires s.saved == DEFAULT_STATE && SpareIncremental(s.world.store, x)
    ensures !Harmless(cfg, s)
  {
    var stale := Next(cfg, s, StateRead(t));
    ForgottenHeadBreaksCount(cfg, Next(cfg, stale, Failed(u)), u, x);
    HarmBefore(cfg, stale, Failed(u));
    HarmBefore(cfg, s, StateRead(t));
  }

  /** `u` is past the initialization that `t` is still in, and the state file has no head. */
  ghost predicate Raced(s: State, u: nat, t: nat) {
    && s.mem.initialized && s.saved == DEFAULT_STATE
    && u != t && At(s, u) && At(s, t) && s.tasks[t].ReadingState?
  }

  lemma FullBackupIsAnchored(cfg: Config, s: State, u: nat, t: nat, x: Fresh)
    requires cfg.maxIncrementalChain > 0 && Raced(s, u, t) && SpareIncremental(s.world.store, x)
    requires s.tasks[u].Anchoring? && s.tasks[u].manifest.files == map[]
    ensures !Harmless(cfg, s)
  {
    HeadIsForgotten(cfg, Next(cfg, s, Anchored(u)), u, t, x);
    HarmBefore(cfg, s, Anchored(u));
  }

  lemma FullBackupIsStored(cfg: Config, s: State, u: nat, t: nat, x: Fresh)
    requires cfg.maxIncrementalChain > 0 && Raced(s, u, t) && Spare(s.world.store, x)
    requires s.tasks[u].Adding? && s.tasks[u].manifest.files == map[]
    ensures !Harmless(cfg, s)
  {
    var ev := ManifestAdded(u, x.full, MANIFEST_SIZE);
    FullBackupIsAnchored(cfg, Next(cfg, s, ev), u, t, x);
    HarmBefore(cfg, s, ev);
  }

  lemma FullBackupIsDigested(cfg: Config, s: State, u: nat, t: nat, x: Fresh)
    requires cfg.maxIncrementalChain > 0 && Raced(s, u, t) && Spare(s.world.store, x)
    requires s.tasks[u].Uploading? && s.tasks[u].todo == [] && s.tasks[u].entries == map[]
    ensures !Harmless(cfg, s)
  {
    var uploaded := Next(cfg, s, UploadsDone(u));
    FullBackupIsStored(cfg, Next(cfg, uploaded, Digested(u, 0)), u, t, x);
    HarmBefore(cfg, uploaded, Digested(u, 0));
    HarmBefore(cfg, s, UploadsDone(u));
  }

  /** Without a last manifest `u` does a full backup, here of an empty directory. */
  lemma FullBackupBegins(cfg: Config, s: State, u: nat, t: nat, x: Fresh)
    requires cfg.maxIncrementalChain > 0 && Raced(s, u, t) && Spare(s.world.store, x)
    requires s.tasks[u].Resolving? && s.mem.lastManifest == None
    ensures !Harmless(cfg, s)
  {
    var chosen := Next(cfg, s, Resolved(u));
    assert BeginUploads(chosen.tasks[u], []) == Uploading(true, [], [], map[], map[], map[]);
    FullBackupIsDigested(cfg, Next(cfg, chosen, Scanned(u, [])), u, t, x);
    HarmBefore(cfg, chosen, Scanned(u, []));
    HarmBefore(cfg, s, Resolved(u));
  }

  lemma RaceBreaksCount(cfg: Config, s: State, u: nat, t: nat, x: Fresh)
    requires cfg.maxIncrementalChain > 0 && Raced(s, u, t) && Spare(s.world.store, x)
    requires s.tasks[u].Ready? && s.mem.lastManifest == None && !s.mem.running
    ensures !Harmless(cfg, s)
  {
    FullBackupBegins(cfg, Next(cfg, s, Enter(u)), u, t, x);
    HarmBefore(cfg, s, Enter(u));
  }

  /** Two calls initialize at once: one of them ends its initialization, whichever await it is
      suspended at, while the other has not read the state file yet. */
  lemma TwoInitializationsBreakCount(cfg: Config, s: State, u: nat, t: nat, x: Fresh)
    requires cfg.maxIncrementalChain > 0 && Spare(s.world.store, x)
    requires u != t && At(s, u) && At(s, t) && s.tasks[u].Initializing() && s.tasks[t].ReadingState?
    requires s.mem.lastManifest == None && !s.mem.running
    ensures !Harmless(cfg, s)
  {
    var lost := Next(cfg, s, StateFileLost);
    var ev := if s.tasks[u].ReadingState? then StateRead(u) else HydrationFailed(u);
    RaceBreaksCount(cfg, Next(cfg, lost, ev), u, t, x);
    HarmBefore(cfg, lost, ev);
    HarmBefore(cfg, s, StateFileLost);
  }

  // ----- The condition -----

  /** A call that begins while another one initializes: some run of the two, and of later calls
      that do not overlap, ends with a counter that does not count the chain. */
  lemma OverlapBreaksCount(cfg: Config, s: State, t: nat, force: bool, x: Fresh)
    requires cfg.maxIncrementalChain > 0 && Inv(cfg, s) && Bounded(cfg, s)
    requires !s.mem.initialized && s.tasks != map[] && !At(s, t) && Spare(s.world.store, x)
    ensures !Harmless(cfg, Next(cfg, s, Call(t, force)))
  {
    var u :| u in s.tasks;
    assert At(s, u);
    forall v | At(s, v) ensures s.tasks[v].Initializing() {
      assert Agrees(cfg, s, v);
    }
    assert !s.mem.running;
    TwoInitializationsBreakCount(cfg, Next(cfg, s, Call(t, force)), u, t, x);
  }

  lemma BoundedIsHarmless(cfg: Config, s: State)
    requires Inv(cfg, s) && Bounded(cfg, s)
    ensures Harmless(cfg, s)
  {
    forall evs | Runs(cfg, s, evs, true) ensures Counts(cfg, After(cfg, s, evs, true)) {
      RunKeepsBound(cfg, s, evs);
    }
  }

  /** After any run without overlapping initializations, one more call leaves the counter sound
      in all that follows if and only if the scheduler is initialized or idle. */
  lemma CallIsHarmlessIff(cfg: Config, store: Store, evs: seq<Event>, t: nat, force: bool, x: Fresh)
    requires cfg.maxIncrementalChain > 0 && Runs(cfg, Init(store), evs, true)
    requires var s := After(cfg, Init(store), evs, true); !At(s, t) && Spare(s.world.store, x)
    ensures var s := After(cfg, Init(store), evs, true);
            Harmless(cfg, Next(cfg, s, Call(t, force))) <==> s.mem.initialized || s.tasks == map[]
  {
    var s := After(cfg, Init(store), evs, true);
    RunKeepsBound(cfg, Init(store), evs);
    if s.mem.initialized || s.tasks == map[] {
      StepKeepsInv(cfg, s, Call(t, force));
      CallKeepsBound(cfg, s, t, force);
      BoundedIsHarmless(cfg, Next(cfg, s, Call(t, force)));
    } else {
      OverlapBreaksCount(cfg, s, t, force, x);
    }
  }
}
