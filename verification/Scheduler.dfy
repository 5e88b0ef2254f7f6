// The backup scheduler as a state machine.  A task is one call of runBackup; a step is the
// code it runs between two awaits, so that calls interleave exactly at the awaits.

module SchedulerModel {
  import opened Wrappers
  import opened SoulTypes
  import opened Paths
  import opened ChangeDetector
  import opened Uploader
  import opened ManifestBuilder

  import Downloader

  datatype Config = Config(agentId: Text, key: Key, maxIncrementalChain: nat)

  /** The fields of the scheduler object. */
  datatype Fields = Fields(
    initialized: bool,
    running: bool,
    lastManifest: Option<Manifest>,
    lastManifestCid: Option<Cid>,
    incrementalCount: nat)

  /** The part of state.json that the scheduler reads back. */
  datatype Saved = Saved(lastManifestCid: Option<Cid>, incrementalCount: nat)

  const FRESH := Fields(false, false, None, None, 0)
  const DEFAULT_STATE := Saved(None, 0)

  /** One call of runBackup, by the await it is suspended at. */
  datatype Task =
    | ReadingState(force: bool)
    | Hydrating(force: bool, cid: Cid)
    | Ready(force: bool)
    | Resolving(force: bool)
    | Scanning(isFull: bool, previous: Option<Manifest>)
    | Uploading(isFull: bool, scan: seq<FileState>, todo: seq<FileState>, entries: map<Text, Entry>,
                seen: map<Text, Blob>, base: map<Text, Entry>)
    | Digesting(isFull: bool, parentCid: Option<Cid>, scan: seq<FileState>, entries: map<Text, Entry>,
                seen: map<Text, Blob>, base: map<Text, Entry>)
    | Adding(isFull: bool, manifest: Manifest, scan: seq<FileState>, seen: map<Text, Blob>, base: map<Text, Entry>)
    | Anchoring(isFull: bool, manifest: Manifest, cid: Cid)
    | WritingPackage(cid: Cid)
    | WritingState(saved: Saved)
    | Heartbeating
  {
    /** Past the reentrance guard, inside _executeBackup. */
    predicate Executing() {
      !ReadingState? && !Hydrating? && !Ready?
    }

    predicate Initializing() {
      ReadingState? || Hydrating?
    }
  }

  /** History of a stored manifest: its place in the order of writing, the scan it was taken
      from, the bytes read for each path, and the entries the scan was compared with. */
  datatype Origin = Origin(rank: nat, scan: seq<FileState>, seen: map<Text, Blob>, base: map<Text, Entry>)

  /** What outlives the process: IPFS and the chain, with the history of the manifests. */
  datatype World = World(store: Store, log: seq<OnChainBackup>, origins: map<Cid, Origin>, clock: nat)

  /** `patches` are other writers of state.json between their read and their write. */
  datatype State = State(mem: Fields, tasks: map<nat, Task>, saved: Saved, patches: map<nat, Saved>, world: World)

  datatype Event =
    | Call(t: nat, force: bool)
    | StateRead(t: nat)
    | Hydrated(t: nat)
    | HydrationFailed(t: nat)
    | Enter(t: nat)
    | NotRegistered(t: nat)
    | Resolved(t: nat)
    | Scanned(t: nat, scan: seq<FileState>)
    | Uploaded(t: nat, u: Upload)
    | UploadsDone(t: nat)
    | Digested(t: nat, timestamp: nat)
    | ManifestAdded(t: nat, cid: Cid, size: nat)
    | Anchored(t: nat)
    | AnchoredThenFailed(t: nat)
    | PackageWritten(t: nat)
    | StateWritten(t: nat)
    | HeartbeatDone(t: nat)
    | Failed(t: nat)
    | Crashed
    | StateFileLost
    | PatchRead(t: nat)
    | PatchWritten(t: nat)

  // ----- The code between two awaits, on the fields -----

  function LoadState(m: Fields, saved: Saved): Fields {
    m.(lastManifestCid := saved.lastManifestCid,
       incrementalCount := saved.incrementalCount,
       initialized := m.initialized || saved.lastManifestCid.None?)
  }

  function FinishHydration(m: Fields, got: Option<Manifest>): Fields {
    match got
    case Some(manifest) => m.(lastManifest := got, initialized := true)
    case None => m.(lastManifest := None, lastManifestCid := None, incrementalCount := 0, initialized := true)
  }

  predicate WantsFull(m: Fields, force: bool, maxIncrementalChain: nat) {
    force || m.lastManifest.None? || m.incrementalCount >= maxIncrementalChain
  }

  function RecordHead(m: Fields, manifest: Manifest, cid: Cid, isFull: bool): Fields {
    m.(lastManifest := Some(manifest),
       lastManifestCid := Some(cid),
       incrementalCount := if isFull then 0 else m.incrementalCount + 1)
  }

  /** The record anchorBackup writes on chain. */
  function RecordOf(cid: Cid, m: Manifest): OnChainBackup {
    OnChainBackup(Keccak(cid), m.merkleRoot, m.fileCount, m.totalBytes,
                  if m.parentCid.None? then 0 else 1,
                  if m.parentCid.None? || m.parentCid.value == "" then Zero32 else Keccak(m.parentCid.value))
  }

  ghost predicate ScanOk(scan: seq<FileState>) {
    && DistinctPaths(scan)
    && (forall f :: f in scan ==> f.hash.Sha256? && Canonical(f.relativePath))
    && Downloader.PrefixFree(PathsOf(scan))
  }

  /** Starting to upload, once the changes are known. */
  ghost function BeginUploads(task: Task, scan: seq<FileState>): Task
    requires task.Scanning? && ScanOk(scan)
  {
    var c := Changes(scan, task.previous);
    var carried := if task.previous.Some? then CarryOver(c.untouched, task.previous.value.files) else map[];
    if c.added + c.modified == [] && c.deleted == {} && !task.isFull then Heartbeating
    else Uploading(task.isFull, scan, c.added + c.modified, carried, ScannedBytes(scan, carried.Keys),
                   if task.previous.Some? then task.previous.value.files else map[])
  }

  ghost function ScannedBytes(scan: seq<FileState>, paths: set<Text>): map<Text, Blob>
    requires ScanOk(scan)
  {
    map i | 0 <= i < |scan| && scan[i].relativePath in paths :: scan[i].relativePath := scan[i].hash.content
  }

  // ----- Steps -----

  ghost predicate At(s: State, t: nat) {
    t in s.tasks
  }

  ghost predicate Enabled(cfg: Config, s: State, ev: Event) {
    match ev
    case Call(t, _) => !At(s, t)
    case StateRead(t) => At(s, t) && s.tasks[t].ReadingState?
    case Hydrated(t) => At(s, t) && s.tasks[t].Hydrating? && CatManifest(s.world.store, s.tasks[t].cid).Some?
    case HydrationFailed(t) => At(s, t) && s.tasks[t].Hydrating?
    case Enter(t) => At(s, t) && s.tasks[t].Ready?
    case NotRegistered(t) => At(s, t) && s.tasks[t].Resolving?
    case Resolved(t) => At(s, t) && s.tasks[t].Resolving?
    case Scanned(t, scan) => At(s, t) && s.tasks[t].Scanning? && ScanOk(scan)
    case Uploaded(t, u) =>
      && At(s, t) && s.tasks[t].Uploading? && s.tasks[t].todo != []
      && CanAdd(s.world.store, u.cid, Payload(s.tasks[t].todo[0], u, cfg.key))
    case UploadsDone(t) => At(s, t) && s.tasks[t].Uploading? && s.tasks[t].todo == []
    case Digested(t, _) => At(s, t) && s.tasks[t].Digesting?
    case ManifestAdded(t, cid, size) =>
      At(s, t) && s.tasks[t].Adding? && CanAdd(s.world.store, cid, Json(s.tasks[t].manifest, size))
    case Anchored(t) => At(s, t) && s.tasks[t].Anchoring?
    case AnchoredThenFailed(t) => At(s, t) && s.tasks[t].Anchoring?
    case PackageWritten(t) => At(s, t) && s.tasks[t].WritingPackage?
    case StateWritten(t) => At(s, t) && s.tasks[t].WritingState?
    case HeartbeatDone(t) => At(s, t) && s.tasks[t].Heartbeating?
    case Failed(t) => At(s, t) && s.tasks[t].Executing()
    case Crashed => true
    case StateFileLost => true
    case PatchRead(t) => t !in s.patches
    case PatchWritten(t) => t in s.patches
  }

  function Goto(s: State, t: nat, task: Task): State {
    s.(tasks := s.tasks[t := task])
  }

  /** The call leaves _executeBackup, through its finally block. */
  function Leave(s: State, t: nat): State {
    s.(tasks := s.tasks - {t}, mem := s.mem.(running := false))
  }

  function OriginOf(w: World, task: Task): Origin
    requires task.Adding?
  {
    Origin(w.clock, task.scan, task.seen, task.base)
  }

  /** Storing a manifest; one that is already there keeps its history. */
  function AddManifest(w: World, cid: Cid, m: Manifest, size: nat, origin: Origin): World {
    w.(store := w.store[cid := Json(m, size)],
       origins := if cid in w.origins then w.origins else w.origins[cid := origin],
       clock := w.clock + 1)
  }

  function Anchor(w: World, cid: Cid, m: Manifest): World {
    w.(log := w.log + [RecordOf(cid, m)])
  }

  ghost function Next(cfg: Config, s: State, ev: Event): State
    requires Enabled(cfg, s, ev)
  {
    match ev
    case Call(t, force) => Goto(s, t, if s.mem.initialized then Ready(force) else ReadingState(force))
    case StateRead(t) =>
      var force := s.tasks[t].force;
      Goto(s.(mem := LoadState(s.mem, s.saved)), t,
           if s.saved.lastManifestCid.Some? then Hydrating(force, s.saved.lastManifestCid.value) else Ready(force))
    case Hydrated(t) =>
      Goto(s.(mem := FinishHydration(s.mem, CatManifest(s.world.store, s.tasks[t].cid))), t, Ready(s.tasks[t].force))
    case HydrationFailed(t) => Goto(s.(mem := FinishHydration(s.mem, None)), t, Ready(s.tasks[t].force))
    case Enter(t) =>
      if s.mem.running then s.(tasks := s.tasks - {t})
      else Goto(s.(mem := s.mem.(running := true)), t, Resolving(s.tasks[t].force))
    case NotRegistered(t) => Leave(s, t)
    case Resolved(t) =>
      var isFull := WantsFull(s.mem, s.tasks[t].force, cfg.maxIncrementalChain);
      Goto(s, t, Scanning(isFull, if isFull then None else s.mem.lastManifest))
    case Scanned(t, scan) => Goto(s, t, BeginUploads(s.tasks[t], scan))
    case Uploaded(t, u) =>
      var task := s.tasks[t];
      var f := task.todo[0];
      Goto(s.(world := s.world.(store := s.world.store[u.cid := Payload(f, u, cfg.key)])), t,
           task.(todo := task.todo[1..],
                 entries := task.entries[f.relativePath := EntryFor(f, u, cfg.key)],
                 seen := task.seen[f.relativePath := u.content]))
    case UploadsDone(t) =>
      var task := s.tasks[t];
      Goto(s, t, Digesting(task.isFull, if task.isFull then None else s.mem.lastManifestCid,
                           task.scan, task.entries, task.seen, task.base))
    case Digested(t, timestamp) =>
      var task := s.tasks[t];
      var m := ManifestFor(cfg.agentId, task.entries, task.parentCid, timestamp);
      Goto(s, t, Adding(task.isFull, m, task.scan, task.seen, task.base))
    case ManifestAdded(t, cid, size) =>
      var task := s.tasks[t];
      Goto(s.(world := AddManifest(s.world, cid, task.manifest, size, OriginOf(s.world, task))), t,
           Anchoring(task.isFull, task.manifest, cid))
    case Anchored(t) =>
      var task := s.tasks[t];
      Goto(s.(world := Anchor(s.world, task.cid, task.manifest),
              mem := RecordHead(s.mem, task.manifest, task.cid, task.isFull)), t,
           WritingPackage(task.cid))
    case AnchoredThenFailed(t) =>
      Leave(s.(world := Anchor(s.world, s.tasks[t].cid, s.tasks[t].manifest)), t)
    case PackageWritten(t) => Goto(s, t, WritingState(Saved(Some(s.tasks[t].cid), s.mem.incrementalCount)))
    case StateWritten(t) => Goto(s.(saved := s.tasks[t].saved), t, Heartbeating)
    case HeartbeatDone(t) => Leave(s, t)
    case Failed(t) => Leave(s, t)
    case Crashed => s.(mem := FRESH, tasks := map[])
    case StateFileLost => s.(saved := DEFAULT_STATE)
    case PatchRead(t) => s.(patches := s.patches[t := s.saved])
    case PatchWritten(t) => s.(saved := s.patches[t], patches := s.patches - {t})
  }

  /** A newly registered soul on a shared store. */
  function Init(store: Store): State {
    State(FRESH, map[], DEFAULT_STATE, map[], World(store, [], map[], 0))
  }

  /** Every event of `evs`, in turn, is enabled; `serial` asks in addition that no call
      begins while another one is still initializing the scheduler. */
  ghost predicate Runs(cfg: Config, s: State, evs: seq<Event>, serial: bool)
    decreases |evs|
  {
    evs == [] ||
    (&& Enabled(cfg, s, evs[0])
     && (serial && evs[0].Call? ==> s.mem.initialized || s.tasks == map[])
     && Runs(cfg, Next(cfg, s, evs[0]), evs[1..], serial))
  }

  ghost function After(cfg: Config, s: State, evs: seq<Event>, serial: bool): State
    requires Runs(cfg, s, evs, serial)
    decreases |evs|
  {
    if evs == [] then s else After(cfg, Next(cfg, s, evs[0]), evs[1..], serial)
  }
}

/** The scheduler object itself: each method is the code between two awaits. */
module SchedulerObject {
  import opened Wrappers
  import opened SoulTypes
  import opened SchedulerModel

  class BackupScheduler {
    const maxIncrementalChain: nat
    var initialized: bool
    var running: bool
    var lastManifest: Option<Manifest>
    var lastManifestCid: Option<Cid>
    var incrementalCount: nat

    ghost function View(): Fields
      reads this
    {
      Fields(initialized, running, lastManifest, lastManifestCid, incrementalCount)
    }

    constructor (maxIncrementalChain: nat)
      ensures View() == FRESH && this.maxIncrementalChain == maxIncrementalChain
    {
      this.maxIncrementalChain := maxIncrementalChain;
      initialized, running := false, false;
      lastManifest, lastManifestCid, incrementalCount := None, None, 0;
    }

    /** ensureInitialized after readBackupState returned; `pending` is the CID to fetch next. */
    method OnStateRead(persisted: Saved) returns (pending: Option<Cid>)
      modifies this
      ensures View() == LoadState(old(View()), persisted)
      ensures pending == persisted.lastManifestCid
    {
      lastManifestCid := persisted.lastManifestCid;
      incrementalCount := persisted.incrementalCount;
      pending := persisted.lastManifestCid;
      if pending.None? {
        initialized := true;
      }
    }

    /** ensureInitialized after catManifest returned or threw. */
    method OnManifestFetched(got: Option<Manifest>)
      modifies this
      ensures View() == FinishHydration(old(View()), got)
    {
      if got.Some? {
        lastManifest := got;
      } else {
        lastManifest := None;
        lastManifestCid := None;
        incrementalCount := 0;
      }
      initialized := true;
    }

    /** The reentrance guard of runBackup. */
    method TryEnter() returns (entered: bool)
      modifies this
      ensures entered == !old(running)
      ensures View() == old(View()).(running := true)
    {
      if running {
        return false;
      }
      running := true;
      return true;
    }

    /** The choice between a full and an incremental backup. */
    method ChooseBase(force: bool) returns (isFull: bool, previous: Option<Manifest>)
      ensures isFull == WantsFull(View(), force, maxIncrementalChain)
      ensures previous == if isFull then None else lastManifest
    {
      isFull := force || lastManifest.None? || incrementalCount >= maxIncrementalChain;
      previous := if isFull then None else lastManifest;
    }

    /** Step 6 of _executeBackup, after the anchor succeeded. */
    method OnAnchored(manifest: Manifest, cid: Cid, isFull: bool)
      modifies this
      ensures View() == RecordHead(old(View()), manifest, cid, isFull)
    {
      lastManifest := Some(manifest);
      lastManifestCid := Some(cid);
      if isFull {
        incrementalCount := 0;
      } else {
        incrementalCount := incrementalCount + 1;
      }
    }

    /** The finally block of runBackup. */
    method Exit()
      modifies this
      ensures View() == old(View()).(running := false)
    {
      running := false;
    }
  }
}
