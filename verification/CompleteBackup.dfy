// A backup that nothing disturbs: every step of it, from the call to the end.

module CompleteBackup {
  import opened Wrappers
  import opened SoulTypes
  import opened ChangeDetector
  import opened Uploader
  import opened ManifestBuilder
  import opened SchedulerModel
  import opened Decisions

  /** `evs` lead from `a` to `b`. */
  ghost predicate Leads(cfg: Config, a: State, evs: seq<Event>, b: State) {
    Runs(cfg, a, evs, true) && After(cfg, a, evs, true) == b
  }

  lemma {:induction false} LeadsOn(cfg: Config, a: State, evs: seq<Event>, b: State, ev: Event)
    requires Leads(cfg, a, evs, b) && Enabled(cfg, b, ev) && (ev.Call? ==> b.mem.initialized)
    ensures Leads(cfg, a, evs + [ev], Next(cfg, b, ev))
    decreases |evs|
  {
    if evs == [] {
      assert evs + [ev] == [ev] && [ev][1..] == [];
      assert Runs(cfg, Next(cfg, a, ev), [], true);
    } else {
      LeadsOn(cfg, Next(cfg, a, evs[0]), evs[1..], b, ev);
      assert (evs + [ev])[0] == evs[0] && (evs + [ev])[1..] == evs[1..] + [ev];
    }
  }

  lemma Step(cfg: Config, a: State, evs: seq<Event>, b: State, ev: Event) returns (more: seq<Event>, c: State)
    requires Leads(cfg, a, evs, b) && Enabled(cfg, b, ev) && (ev.Call? ==> b.mem.initialized)
    ensures Leads(cfg, a, more, c) && c == Next(cfg, b, ev)
  {
    LeadsOn(cfg, a, evs, b, ev);
    more, c := evs + [ev], Next(cfg, b, ev);
  }

  function Seen(seen: map<Text, Blob>, files: seq<FileState>, us: seq<Upload>): map<Text, Blob>
    requires |files| == |us|
  {
    if files == [] then seen
    else
      var n := |files| - 1;
      Seen(seen, files[..n], us[..n])[files[n].relativePath := us[n].content]
  }

  /** The task after the first k of its uploads. */
  function TaskAfterSome(task: Task, us: seq<Upload>, key: Key, k: nat): Task
    requires task.Uploading? && k <= |us| == |task.todo|
  {
    var files := task.todo;
    task.(todo := files[k..], entries := task.entries + AfterUploads(files[..k], us[..k], key),
          seen := Seen(task.seen, files[..k], us[..k]))
  }

  ghost function AfterSome(cfg: Config, s: State, t: nat, us: seq<Upload>, k: nat): State
    requires At(s, t) && s.tasks[t].Uploading? && k <= |us| == |s.tasks[t].todo|
  {
    var files := s.tasks[t].todo;
    Goto(s.(world := s.world.(store := StoreAfterUploads(s.world.store, files[..k], us[..k], cfg.key))), t,
         TaskAfterSome(s.tasks[t], us, cfg.key, k))
  }

  lemma TaskAfterOneMore(task: Task, us: seq<Upload>, key: Key, k: nat)
    requires task.Uploading? && k < |us| == |task.todo|
    ensures var f, now := task.todo[k], TaskAfterSome(task, us, key, k);
            && now.todo != [] && now.todo[0] == f
            && TaskAfterSome(task, us, key, k + 1)
            == now.(todo := now.todo[1..], entries := now.entries[f.relativePath := EntryFor(f, us[k], key)],
                    seen := now.seen[f.relativePath := us[k].content])
  {
    var files := task.todo;
    OneMoreUpload(files, us, k, key, map[]);
    assert files[..k + 1][..k] == files[..k] && us[..k + 1][..k] == us[..k];
    assert files[k..][0] == files[k] && files[k..][1..] == files[k + 1..];
    var entries: map<Text, Entry>, more: map<Text, Entry> := task.entries, AfterUploads(files[..k], us[..k], key);
    var p: Text := files[k].relativePath;
    var e := EntryFor(files[k], us[k], key);
    var all: map<Text, Entry> := entries + more;
    assert all[p := e] == entries + more[p := e];
  }

  lemma NextIsEnabled(cfg: Config, s: State, t: nat, us: seq<Upload>, k: nat)
    requires At(s, t) && s.tasks[t].Uploading? && k < |us| == |s.tasks[t].todo|
    requires Addable(s.world.store, s.tasks[t].todo, us, cfg.key)
    ensures Enabled(cfg, AfterSome(cfg, s, t, us, k), Uploaded(t, us[k]))
  {
    TaskAfterOneMore(s.tasks[t], us, cfg.key, k);
    AddableAt(s.world.store, s.tasks[t].todo, us, cfg.key, k);
  }

  lemma OneMore(cfg: Config, s: State, t: nat, us: seq<Upload>, k: nat)
    requires At(s, t) && s.tasks[t].Uploading? && k < |us| == |s.tasks[t].todo|
    requires Enabled(cfg, AfterSome(cfg, s, t, us, k), Uploaded(t, us[k]))
    ensures Next(cfg, AfterSome(cfg, s, t, us, k), Uploaded(t, us[k])) == AfterSome(cfg, s, t, us, k + 1)
  {
    var files := s.tasks[t].todo;
    TaskAfterOneMore(s.tasks[t], us, cfg.key, k);
    OneMoreUpload(files, us, k, cfg.key, s.world.store);
  }

  /** The uploads of a run leave what uploadFiles returns, over what was carried. */
  lemma {:induction false} UploadsLead(cfg: Config, a: State, evs: seq<Event>, s: State, t: nat, us: seq<Upload>,
                                       k: nat)
    returns (more: seq<Event>)
    requires Leads(cfg, a, evs, s) && At(s, t) && s.tasks[t].Uploading? && k <= |us| == |s.tasks[t].todo|
    requires Addable(s.world.store, s.tasks[t].todo, us, cfg.key)
    ensures Leads(cfg, a, more, AfterSome(cfg, s, t, us, k))
  {
    if k == 0 {
      var task := s.tasks[t];
      assert task.todo[..0] == [] && task.todo[0..] == task.todo && us[..0] == [];
      assert task.entries + map[] == task.entries;
      assert s.tasks[t := task] == s.tasks;
      assert AfterSome(cfg, s, t, us, 0) == s;
      more := evs;
    } else {
      more := UploadsLead(cfg, a, evs, s, t, us, k - 1);
      NextIsEnabled(cfg, s, t, us, k - 1);
      OneMore(cfg, s, t, us, k - 1);
      var last: State;
      more, last := Step(cfg, a, more, AfterSome(cfg, s, t, us, k - 1), Uploaded(t, us[k - 1]));
    }
  }

  predicate IsFull(cfg: Config, m: Fields, force: bool) {
    force || m.lastManifest == None || m.incrementalCount >= cfg.maxIncrementalChain
  }

  function Base(cfg: Config, m: Fields, force: bool): Option<Manifest> {
    if IsFull(cfg, m, force) then None else m.lastManifest
  }

  function ToUpload(base: Option<Manifest>, scan: seq<FileState>): seq<FileState> {
    Changes(scan, base).added + Changes(scan, base).modified
  }

  function Carried(base: Option<Manifest>, scan: seq<FileState>): map<Text, Entry> {
    if base.Some? then CarryOver(Changes(scan, base).untouched, base.value.files) else map[]
  }

  /** The manifest of a backup whose uploads are `us`. */
  ghost function Built(cfg: Config, m: Fields, force: bool, scan: seq<FileState>, us: seq<Upload>, timestamp: nat)
    : Manifest
    requires |us| == |ToUpload(Base(cfg, m, force), scan)|
  {
    var base := Base(cfg, m, force);
    ManifestFor(cfg.agentId, Carried(base, scan) + AfterUploads(ToUpload(base, scan), us, cfg.key),
                if IsFull(cfg, m, force) then None else m.lastManifestCid, timestamp)
  }

  /** The call goes in and chooses its base. */
  lemma BackupBegins(cfg: Config, s: State, t: nat, force: bool) returns (evs: seq<Event>, u: State)
    requires s.mem.initialized && !s.mem.running && !At(s, t)
    ensures Leads(cfg, s, evs, u)
    ensures u == s.(mem := s.mem.(running := true),
                    tasks := s.tasks[t := Scanning(IsFull(cfg, s.mem, force), Base(cfg, s.mem, force))])
  {
    assert Leads(cfg, s, [], s);
    evs, u := Step(cfg, s, [], s, Call(t, force));
    evs, u := Step(cfg, s, evs, u, Enter(t));
    evs, u := Step(cfg, s, evs, u, Resolved(t));
  }

  lemma UploadsBegin(cfg: Config, a: State, evs: seq<Event>, s: State, t: nat, scan: seq<FileState>)
    returns (more: seq<Event>, u: State)
    requires Leads(cfg, a, evs, s) && At(s, t) && s.tasks[t].Scanning? && ScanOk(scan)
    requires s.tasks[t].isFull || !SameHashes(scan, Known(s.tasks[t].previous))
    ensures Leads(cfg, a, more, u) && At(u, t) && u == Goto(s, t, u.tasks[t])
    ensures u.tasks[t].Uploading? && u.tasks[t].isFull == s.tasks[t].isFull
    ensures u.tasks[t].todo == ToUpload(s.tasks[t].previous, scan)
    ensures u.tasks[t].entries == Carried(s.tasks[t].previous, scan)
  {
    SkippedExactly(scan, s.tasks[t].previous);
    BeginningInChanges(s.tasks[t], scan);
    more, u := Step(cfg, a, evs, s, Scanned(t, scan));
  }

  lemma UploadsEnd(cfg: Config, a: State, evs: seq<Event>, s: State, t: nat, us: seq<Upload>)
    returns (more: seq<Event>, u: State)
    requires Leads(cfg, a, evs, s) && At(s, t) && s.tasks[t].Uploading? && |us| == |s.tasks[t].todo|
    requires Addable(s.world.store, s.tasks[t].todo, us, cfg.key)
    ensures Leads(cfg, a, more, u) && At(u, t)
    ensures var files := s.tasks[t].todo;
            && u == Goto(s.(world := s.world.(store := StoreAfterUploads(s.world.store, files, us, cfg.key))), t,
                         u.tasks[t])
            && u.tasks[t].Uploading? && u.tasks[t].isFull == s.tasks[t].isFull && u.tasks[t].todo == []
            && u.tasks[t].entries == s.tasks[t].entries + AfterUploads(files, us, cfg.key)
  {
    var files := s.tasks[t].todo;
    assert files[..|files|] == files && us[..|files|] == us && files[|files|..] == [];
    more := UploadsLead(cfg, a, evs, s, t, us, |files|);
    u := AfterSome(cfg, s, t, us, |files|);
  }

  lemma ManifestIsBuilt(cfg: Config, a: State, evs: seq<Event>, s: State, t: nat, timestamp: nat)
    returns (more: seq<Event>, u: State)
    requires Leads(cfg, a, evs, s) && At(s, t) && s.tasks[t].Uploading? && s.tasks[t].todo == []
    ensures Leads(cfg, a, more, u) && At(u, t) && u == Goto(s, t, u.tasks[t])
    ensures u.tasks[t].Adding? && u.tasks[t].isFull == s.tasks[t].isFull
    ensures u.tasks[t].manifest
         == ManifestFor(cfg.agentId, s.tasks[t].entries,
                        if s.tasks[t].isFull then None else s.mem.lastManifestCid, timestamp)
  {
    more, u := Step(cfg, a, evs, s, UploadsDone(t));
    more, u := Step(cfg, a, more, u, Digested(t, timestamp));
  }

  lemma ManifestIsStored(cfg: Config, a: State, evs: seq<Event>, s: State, t: nat, cid: Cid, size: nat)
    returns (more: seq<Event>, u: State)
    requires Leads(cfg, a, evs, s) && At(s, t) && s.tasks[t].Adding?
    requires CanAdd(s.world.store, cid, Json(s.tasks[t].manifest, size))
    ensures Leads(cfg, a, more, u) && At(u, t)
    ensures var task := s.tasks[t];
            && u == Goto(s.(world := u.world), t, Anchoring(task.isFull, task.manifest, cid))
            && u.world.store == s.world.store[cid := Json(task.manifest, size)]
            && cid in u.world.origins && u.world.log == s.world.log
  {
    more, u := Step(cfg, a, evs, s, ManifestAdded(t, cid, size));
  }

  /** Anchor, package, state file, heartbeat. */
  lemma PublicationEnds(cfg: Config, a: State, evs: seq<Event>, s: State, t: nat) returns (more: seq<Event>, u: State)
    requires Leads(cfg, a, evs, s) && At(s, t) && s.tasks[t].Anchoring?
    ensures Leads(cfg, a, more, u)
    ensures var task := s.tasks[t];
            var count := if task.isFull then 0 else s.mem.incrementalCount + 1;
            && u.mem == Fields(s.mem.initialized, false, Some(task.manifest), Some(task.cid), count)
            && u.saved == Saved(Some(task.cid), count)
            && u.world == s.world.(log := s.world.log + [RecordOf(task.cid, task.manifest)])
            && u.tasks == s.tasks - {t}
  {
    more, u := Step(cfg, a, evs, s, Anchored(t));
    more, u := Step(cfg, a, more, u, PackageWritten(t));
    more, u := Step(cfg, a, more, u, StateWritten(t));
    more, u := Step(cfg, a, more, u, HeartbeatDone(t));
  }

  /** The manifest is stored and published. */
  lemma ManifestIsPublished(cfg: Config, a: State, evs: seq<Event>, s: State, t: nat, cid: Cid, size: nat)
    returns (more: seq<Event>, u: State)
    requires Leads(cfg, a, evs, s) && At(s, t) && s.tasks[t].Adding?
    requires CanAdd(s.world.store, cid, Json(s.tasks[t].manifest, size))
    ensures Leads(cfg, a, more, u)
    ensures var task := s.tasks[t];
            var count := if task.isFull then 0 else s.mem.incrementalCount + 1;
            && u.mem == Fields(s.mem.initialized, false, Some(task.manifest), Some(cid), count)
            && u.saved == Saved(Some(cid), count)
            && u.world.log == s.world.log + [RecordOf(cid, task.manifest)]
            && u.world.store == s.world.store[cid := Json(task.manifest, size)] && cid in u.world.origins
            && u.tasks == s.tasks - {t}
  {
    more, u := ManifestIsStored(cfg, a, evs, s, t, cid, size);
    more, u := PublicationEnds(cfg, a, more, u, t);
  }

  /** The files of `u` are what the scan leaves to do, against `base`. */
  ghost predicate IsUploading(u: State, s: State, t: nat, isFull: bool, base: Option<Manifest>, scan: seq<FileState>) {
    && At(u, t) && u == s.(mem := s.mem.(running := true), tasks := s.tasks[t := u.tasks[t]])
    && u.tasks[t].Uploading? && u.tasks[t].isFull == isFull
    && u.tasks[t].todo == ToUpload(base, scan) && u.tasks[t].entries == Carried(base, scan)
  }

  /** From the call to the first upload. */
  lemma BackupScans(cfg: Config, s: State, t: nat, force: bool, scan: seq<FileState>)
    returns (evs: seq<Event>, u: State)
    requires s.mem.initialized && !s.mem.running && !At(s, t) && ScanOk(scan)
    requires IsFull(cfg, s.mem, force) || !SameHashes(scan, Known(Base(cfg, s.mem, force)))
    ensures Leads(cfg, s, evs, u) && IsUploading(u, s, t, IsFull(cfg, s.mem, force), Base(cfg, s.mem, force), scan)
  {
    evs, u := BackupBegins(cfg, s, t, force);
    evs, u := UploadsBegin(cfg, s, evs, u, t, scan);
  }

  /** From an idle scheduler, and as long as nothing fails, a backup that is full or finds a change
      runs to its end: its manifest is stored, recorded on chain, the head in memory and in the
      state file, with the counter set back or up by one; the guard is free and the call gone. */
  lemma UndisturbedBackupCompletes(cfg: Config, s: State, t: nat, force: bool, scan: seq<FileState>, us: seq<Upload>,
                                   timestamp: nat, cid: Cid, size: nat)
    returns (evs: seq<Event>, u: State)
    requires s.mem.initialized && !s.mem.running && !At(s, t) && ScanOk(scan)
    requires IsFull(cfg, s.mem, force) || !SameHashes(scan, Known(Base(cfg, s.mem, force)))
    requires |us| == |ToUpload(Base(cfg, s.mem, force), scan)|
    requires Addable(s.world.store, ToUpload(Base(cfg, s.mem, force), scan), us, cfg.key)
    requires CanAdd(StoreAfterUploads(s.world.store, ToUpload(Base(cfg, s.mem, force), scan), us, cfg.key), cid,
                    Json(Built(cfg, s.mem, force, scan, us, timestamp), size))
    ensures Leads(cfg, s, evs, u)
    ensures var m := Built(cfg, s.mem, force, scan, us, timestamp);
            var count := if IsFull(cfg, s.mem, force) then 0 else s.mem.incrementalCount + 1;
            && u.mem == Fields(true, false, Some(m), Some(cid), count)
            && u.saved == Saved(Some(cid), count)
            && u.world.log == s.world.log + [RecordOf(cid, m)]
            && cid in u.world.store && u.world.store[cid] == Json(m, size) && cid in u.world.origins
            && u.tasks == s.tasks
  {
    evs, u := BackupScans(cfg, s, t, force, scan);
    evs, u := UploadsEnd(cfg, s, evs, u, t, us);
    evs, u := ManifestIsBuilt(cfg, s, evs, u, t, timestamp);
    evs, u := ManifestIsPublished(cfg, s, evs, u, t, cid, size);
  }
}
