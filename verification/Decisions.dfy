// What the scheduler decides at each backup, said without the functions it decides with.

module Decisions {
  import opened Wrappers
  import opened SoulTypes
  import opened ChangeDetector
  import opened Uploader
  import opened SchedulerModel

  /** The files a scan is compared with: none for a full backup. */
  function Known(previous: Option<Manifest>): map<Text, Entry> {
    if previous.Some? then previous.value.files else map[]
  }

  predicate IsNewOrChanged(f: FileState, prev: map<Text, Entry>) {
    f.relativePath !in prev || prev[f.relativePath].hash != f.hash
  }

  /** The entry carried over from `prev`, where the file is as it was. */
  predicate Carries(f: FileState, prev: map<Text, Entry>, entries: map<Text, Entry>) {
    && f.relativePath in prev && prev[f.relativePath].hash == f.hash
    && f.relativePath in entries && entries[f.relativePath] == prev[f.relativePath]
  }

  /** Uploads start with exactly the new and changed files, and exactly the entries of the others. */
  ghost predicate StartsUploading(task: Task, next: Task, scan: seq<FileState>)
    requires task.Scanning?
  {
    var prev := Known(task.previous);
    && next.Uploading? && next.isFull == task.isFull && next.scan == scan && next.base == prev
    && DistinctPaths(next.todo)
    && (forall f :: f in next.todo <==> f in scan && IsNewOrChanged(f, prev))
    && (forall p :: p in next.entries ==> p in PathsOf(scan) - PathsOf(next.todo))
    && (forall f :: f in scan && !IsNewOrChanged(f, prev) ==> Carries(f, prev, next.entries))
  }

  lemma SelectedIsDistinct(files: seq<FileState>, prev: map<Text, Entry>, kind: Change)
    requires DistinctPaths(files)
    ensures DistinctPaths(Select(files, prev, kind))
  {
    if files != [] {
      var n := |files| - 1;
      assert DistinctPaths(files[..n]);
      SelectedIsDistinct(files[..n], prev, kind);
      var rest := Select(files[..n], prev, kind);
      forall f | f in rest ensures f.relativePath != files[n].relativePath {
        var i :| 0 <= i < n && files[..n][i] == f;
      }
    }
  }

  /** The uploads are the new and changed files, without repetition. */
  lemma UploadsAreTheChanges(scan: seq<FileState>, previous: Option<Manifest>)
    requires DistinctPaths(scan)
    ensures var c := Changes(scan, previous);
            && DistinctPaths(c.added + c.modified)
            && (forall f :: f in c.added + c.modified <==> f in scan && IsNewOrChanged(f, Known(previous)))
  {
    if previous.Some? {
      SelectedIsDistinct(scan, previous.value.files, Added);
      SelectedIsDistinct(scan, previous.value.files, Modified);
      var c := Changes(scan, previous);
      forall f, g | f in c.added && g in c.modified ensures f.relativePath != g.relativePath {
      }
    }
  }

  lemma CarriedAreTheOthers(scan: seq<FileState>, m: Manifest)
    requires DistinctPaths(scan)
    ensures var entries := CarryOver(Changes(scan, Some(m)).untouched, m.files);
            && (forall p :: p in entries ==> p in PathsOf(Changes(scan, Some(m)).untouched))
            && (forall f :: f in scan && !IsNewOrChanged(f, m.files) ==> Carries(f, m.files, entries))
  {
    forall f | f in scan && !IsNewOrChanged(f, m.files) ensures f in Changes(scan, Some(m)).untouched {
    }
  }

  /** What BeginUploads does, in terms of the changes. */
  lemma BeginningInChanges(task: Task, scan: seq<FileState>)
    requires task.Scanning? && ScanOk(scan)
    ensures var next, c := BeginUploads(task, scan), Changes(scan, task.previous);
            && (next.Heartbeating? <==> !task.isFull && c.added + c.modified == [] && c.deleted == {})
            && (!next.Heartbeating? ==>
                  && next.Uploading? && next.isFull == task.isFull && next.scan == scan
                  && next.todo == c.added + c.modified && next.base == Known(task.previous)
                  && next.entries == if task.previous.Some? then CarryOver(c.untouched, task.previous.value.files)
                                     else map[])
  {
  }

  lemma SkippedExactly(scan: seq<FileState>, previous: Option<Manifest>)
    ensures var c := Changes(scan, previous);
            c.added + c.modified == [] && c.deleted == {} <==> SameHashes(scan, Known(previous))
  {
    if previous.Some? {
      NothingChangedIff(scan, previous.value);
    } else if scan != [] {
      assert scan[0] in scan && scan[0].relativePath in PathsOf(scan);
    }
  }

  /** A backup is skipped exactly when it is not full and the scan has the paths and hashes of the
      last manifest; otherwise it uploads exactly what is new or changed. */
  lemma ScanDecides(cfg: Config, s: State, t: nat, scan: seq<FileState>)
    requires Enabled(cfg, s, Scanned(t, scan))
    ensures var task, next := s.tasks[t], Next(cfg, s, Scanned(t, scan)).tasks[t];
            && (next.Heartbeating? <==> !task.isFull && SameHashes(scan, Known(task.previous)))
            && (!next.Heartbeating? ==> StartsUploading(task, next, scan))
  {
    var task := s.tasks[t];
    BeginningInChanges(task, scan);
    SkippedExactly(scan, task.previous);
    UploadsAreTheChanges(scan, task.previous);
    ChangesPartitionTheScan(scan, task.previous);
    if task.previous.Some? {
      CarriedAreTheOthers(scan, task.previous.value);
    }
  }

  /** What a call was asked to do. */
  predicate Asks(s: State, t: nat, force: bool) {
    && t in s.tasks && !s.tasks[t].Executing() && s.tasks[t].force == force
  }

  /** Initialization neither forgets nor invents that a backup is forced. */
  lemma ForceIsKept(cfg: Config, s: State, ev: Event)
    requires Enabled(cfg, s, ev)
    ensures ev.Call? ==> Asks(Next(cfg, s, ev), ev.t, ev.force)
    ensures ev.StateRead? || ev.Hydrated? || ev.HydrationFailed? ==>
              Asks(s, ev.t, s.tasks[ev.t].force) && Asks(Next(cfg, s, ev), ev.t, s.tasks[ev.t].force)
  {
  }

  /** A call goes in exactly when none is inside; otherwise it ends at once. */
  lemma EnterDecides(cfg: Config, s: State, t: nat)
    requires Enabled(cfg, s, Enter(t))
    ensures var s' := Next(cfg, s, Enter(t));
            && s'.mem == s.mem.(running := true)
            && (if s.mem.running then t !in s'.tasks else t in s'.tasks && s'.tasks[t] == Resolving(s.tasks[t].force))
            && s'.tasks - {t} == s.tasks - {t}
            && s' == s.(tasks := s'.tasks, mem := s'.mem)
  {
  }

  /** However a backup ends, the next one can begin; and only an anchor that was lost on the way
      back leaves a trace on chain. */
  lemma EndingFreesGuard(cfg: Config, s: State, ev: Event)
    requires Enabled(cfg, s, ev)
    requires ev.NotRegistered? || ev.HeartbeatDone? || ev.Failed? || ev.AnchoredThenFailed?
    ensures var s' := Next(cfg, s, ev);
            && s'.mem == s.mem.(running := false) && s'.tasks == s.tasks - {ev.t}
            && s'.saved == s.saved && s'.world == s.world.(log := s'.world.log)
            && |s'.world.log| == |s.world.log| + (if ev.AnchoredThenFailed? then 1 else 0)
  {
  }

  /** The state file is going to name the backup that was just anchored, whatever has become of
      the head since, with the counter of that moment; and that is what is written. */
  lemma StateFileNamesItsBackup(cfg: Config, s: State, t: nat)
    ensures Enabled(cfg, s, PackageWritten(t)) ==>
              Next(cfg, s, PackageWritten(t)).tasks[t]
              == WritingState(Saved(Some(s.tasks[t].cid), s.mem.incrementalCount))
    ensures Enabled(cfg, s, Anchored(t)) ==>
              Next(cfg, s, Anchored(t)).tasks[t] == WritingPackage(s.tasks[t].cid)
    ensures Enabled(cfg, s, StateWritten(t)) ==>
              var s' := Next(cfg, s, StateWritten(t));
              s'.saved == s.tasks[t].saved && s'.tasks == s.tasks[t := Heartbeating]
  {
  }

  /** Another writer of the state file puts back the head it read; losing the file leaves none; a
      crash leaves the file as it is, and takes the memory and the calls. */
  lemma FileEventsAreExact(cfg: Config, s: State, p: nat)
    ensures Enabled(cfg, s, PatchRead(p)) ==> Next(cfg, s, PatchRead(p)) == s.(patches := s.patches[p := s.saved])
    ensures Enabled(cfg, s, PatchWritten(p)) ==>
              Next(cfg, s, PatchWritten(p)) == s.(saved := s.patches[p], patches := s.patches - {p})
    ensures Next(cfg, s, StateFileLost) == s.(saved := Saved(None, 0))
    ensures Next(cfg, s, Crashed) == s.(mem := Fields(false, false, None, None, 0), tasks := map[])
  {
  }

  /** What the manifest repeats of the backup it was built for. */
  lemma DigestRepeatsBackup(cfg: Config, s: State, t: nat, timestamp: nat)
    requires Enabled(cfg, s, Digested(t, timestamp))
    ensures var task, next := s.tasks[t], Next(cfg, s, Digested(t, timestamp)).tasks[t];
            && next.Adding? && next.isFull == task.isFull && next.scan == task.scan && next.base == task.base
            && next.manifest.agentId == cfg.agentId && next.manifest.timestamp == timestamp
            && next.manifest.parentCid == task.parentCid && next.manifest.files == task.entries
            && next.manifest.fileCount == |task.entries|
  {
  }
}
