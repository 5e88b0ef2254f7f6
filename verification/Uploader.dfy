// What a backup uploads, and what it carries over.

module Uploader {
  import opened Wrappers
  import opened SoulTypes
  import opened ChangeDetector

  /** What reading, sealing and adding one file yielded. */
  datatype Upload = Upload(content: Blob, nonce: nat, cid: Cid)

  function Payload(f: FileState, u: Upload, key: Key): Blob {
    if f.encrypted then Sealed(key, u.nonce, u.content) else u.content
  }

  function EntryFor(f: FileState, u: Upload, key: Key): Entry {
    Entry(u.cid, Sha256(u.content), Size(Payload(f, u, key)), f.encrypted, f.category)
  }

  /** The entry's stored content has the recorded size and opens, under the key, to bytes with
      the recorded hash. */
  ghost predicate Sound(store: Store, key: Key, e: Entry) {
    && ValidCid(e.cid) && e.cid in store
    && e.sizeBytes == Size(store[e.cid])
    && e.hash.Sha256?
    && Open(store[e.cid], e.encrypted, key) == Some(e.hash.content)
  }

  ghost predicate AllSound(store: Store, key: Key, entries: map<Text, Entry>) {
    forall p :: p in entries ==> Sound(store, key, entries[p])
  }

  /** path -> the plain bytes its hash names */
  ghost function Captured(entries: map<Text, Entry>): map<Text, Blob>
    requires forall p :: p in entries ==> entries[p].hash.Sha256?
  {
    map p | p in entries :: entries[p].hash.content
  }

  lemma UploadedEntryIsSound(store: Store, key: Key, f: FileState, u: Upload)
    requires CanAdd(store, u.cid, Payload(f, u, key))
    ensures Sound(store[u.cid := Payload(f, u, key)], key, EntryFor(f, u, key))
    ensures Grows(store, store[u.cid := Payload(f, u, key)])
  {
  }

  function AfterUploads(files: seq<FileState>, us: seq<Upload>, key: Key): map<Text, Entry>
    requires |files| == |us|
  {
    if files == [] then map[]
    else
      var n := |files| - 1;
      AfterUploads(files[..n], us[..n], key)[files[n].relativePath := EntryFor(files[n], us[n], key)]
  }

  function StoreAfterUploads(store: Store, files: seq<FileState>, us: seq<Upload>, key: Key): Store
    requires |files| == |us|
  {
    if files == [] then store
    else
      var n := |files| - 1;
      StoreAfterUploads(store, files[..n], us[..n], key)[us[n].cid := Payload(files[n], us[n], key)]
  }

  /** Each upload can be added to what the ones before it left. */
  predicate Addable(store: Store, files: seq<FileState>, us: seq<Upload>, key: Key)
    requires |files| == |us|
  {
    files == [] ||
    (var n := |files| - 1;
     && Addable(store, files[..n], us[..n], key)
     && CanAdd(StoreAfterUploads(store, files[..n], us[..n], key), us[n].cid, Payload(files[n], us[n], key)))
  }

  lemma {:induction false} AddableAt(store: Store, files: seq<FileState>, us: seq<Upload>, key: Key, k: nat)
    requires k < |files| == |us| && Addable(store, files, us, key)
    ensures CanAdd(StoreAfterUploads(store, files[..k], us[..k], key), us[k].cid, Payload(files[k], us[k], key))
  {
    var n := |files| - 1;
    if k < n {
      AddableAt(store, files[..n], us[..n], key, k);
      assert files[..n][..k] == files[..k] && us[..n][..k] == us[..k];
    }
  }

  function PayloadBytes(files: seq<FileState>, us: seq<Upload>, key: Key): nat
    requires |files| == |us|
  {
    if files == [] then 0
    else
      var n := |files| - 1;
      PayloadBytes(files[..n], us[..n], key) + Size(Payload(files[n], us[n], key))
  }

  datatype UploadResult = UploadResult(entries: map<Text, Entry>, totalBytes: nat, fileCount: nat)

  /** The answers up to the first exception. */
  function Answered(answers: seq<Option<Upload>>): (us: seq<Upload>)
    ensures |us| <= |answers|
    ensures forall i :: 0 <= i < |us| ==> answers[i] == Some(us[i])
    ensures |us| < |answers| ==> answers[|us|] == None
  {
    if answers == [] || answers[0].None? then [] else [answers[0].value] + Answered(answers[1..])
  }

  lemma OneMoreUpload(files: seq<FileState>, us: seq<Upload>, i: nat, key: Key, store: Store)
    requires i < |us| <= |files|
    ensures AfterUploads(files[..i + 1], us[..i + 1], key)
         == AfterUploads(files[..i], us[..i], key)[files[i].relativePath := EntryFor(files[i], us[i], key)]
    ensures StoreAfterUploads(store, files[..i + 1], us[..i + 1], key)
         == StoreAfterUploads(store, files[..i], us[..i], key)[us[i].cid := Payload(files[i], us[i], key)]
    ensures PayloadBytes(files[..i + 1], us[..i + 1], key)
         == PayloadBytes(files[..i], us[..i], key) + Size(Payload(files[i], us[i], key))
  {
    assert files[..i + 1][..i] == files[..i] && us[..i + 1][..i] == us[..i];
  }

  lemma OneMoreSoundUpload(store: Store, before: Store, entries: map<Text, Entry>, key: Key, f: FileState, u: Upload)
    requires Grows(store, before) && AllSound(before, key, entries)
    requires CanAdd(before, u.cid, Payload(f, u, key))
    ensures Grows(store, before[u.cid := Payload(f, u, key)])
    ensures AllSound(before[u.cid := Payload(f, u, key)], key, entries[f.relativePath := EntryFor(f, u, key)])
  {
  }

  /** Content addressing makes every upload of a batch sound once the batch is done. */
  lemma {:induction false} UploadsAreSound(files: seq<FileState>, us: seq<Upload>, key: Key, store: Store)
    requires |files| == |us| && Addable(store, files, us, key)
    ensures AfterUploads(files, us, key).Keys == PathsOf(files)
    ensures Grows(store, StoreAfterUploads(store, files, us, key))
    ensures AllSound(StoreAfterUploads(store, files, us, key), key, AfterUploads(files, us, key))
  {
    if files != [] {
      var n := |files| - 1;
      UploadsAreSound(files[..n], us[..n], key, store);
      PathsOfLast(files);
      OneMoreSoundUpload(store, StoreAfterUploads(store, files[..n], us[..n], key),
                         AfterUploads(files[..n], us[..n], key),
                         key, files[n], us[n]);
    }
  }

  lemma PathsOfLast(files: seq<FileState>)
    requires files != []
    ensures PathsOf(files) == PathsOf(files[..|files| - 1]) + {files[|files| - 1].relativePath}
  {
  }

  /** The reported bytes are the sizes of the entries, unless a batch has a path twice. */
  lemma {:induction false} UploadedBytesAddUp(files: seq<FileState>, us: seq<Upload>, key: Key)
    requires |files| == |us| && DistinctPaths(files)
    ensures PayloadBytes(files, us, key) == SizesOf(files, AfterUploads(files, us, key))
  {
    if files != [] {
      var n := |files| - 1;
      UploadedBytesAddUp(files[..n], us[..n], key);
      EntryKeepsSizes(files[..n], AfterUploads(files[..n], us[..n], key), files[n].relativePath,
                      EntryFor(files[n], us[n], key));
    }
  }

  /** The recorded sizes of these files, in turn. */
  function SizesOf(files: seq<FileState>, entries: map<Text, Entry>): nat {
    if files == [] then 0
    else
      var last := files[|files| - 1];
      SizesOf(files[..|files| - 1], entries)
      + if last.relativePath in entries then entries[last.relativePath].sizeBytes else 0
  }

  lemma {:induction false} EntryKeepsSizes(files: seq<FileState>, entries: map<Text, Entry>, p: Text, e: Entry)
    requires forall f :: f in files ==> f.relativePath != p
    ensures SizesOf(files, entries[p := e]) == SizesOf(files, entries)
  {
    if files != [] {
      EntryKeepsSizes(files[..|files| - 1], entries, p, e);
    }
  }

  /** What the store must hold for a file read as `u`: a sealed frame if and only if the file is
      marked, with an entry that says so. */
  predicate StoredAsMarked(store: Store, e: Entry, f: FileState, u: Upload, key: Key) {
    && e.encrypted == f.encrypted && e.category == f.category
    && e.hash == Sha256(u.content) && e.cid == u.cid
    && u.cid in store && e.sizeBytes == Size(store[u.cid])
    && store[u.cid] == if f.encrypted then Sealed(key, u.nonce, u.content) else u.content
  }

  predicate LastOfItsPath(files: seq<FileState>, i: nat) {
    i < |files| && forall j :: i < j < |files| ==> files[j].relativePath != files[i].relativePath
  }

  ghost predicate AllStoredAsMarked(store: Store, entries: map<Text, Entry>, files: seq<FileState>, us: seq<Upload>,
                                    key: Key)
    requires |files| == |us|
  {
    forall i: nat :: LastOfItsPath(files, i) ==>
      && files[i].relativePath in entries
      && StoredAsMarked(store, entries[files[i].relativePath], files[i], us[i], key)
  }

  /** Whatever else a batch uploads, each path ends with the entry of its last file, stored as
      that file is marked. */
  lemma {:induction false} UploadsAreMarked(files: seq<FileState>, us: seq<Upload>, key: Key, store: Store)
    requires |files| == |us| && Addable(store, files, us, key)
    ensures AllStoredAsMarked(StoreAfterUploads(store, files, us, key), AfterUploads(files, us, key), files, us, key)
  {
    if files != [] {
      var n := |files| - 1;
      UploadsAreMarked(files[..n], us[..n], key, store);
      OneMoreMarkedUpload(StoreAfterUploads(store, files[..n], us[..n], key), AfterUploads(files[..n], us[..n], key),
                          files, us, key);
    }
  }

  lemma OneMoreMarkedUpload(before: Store, entries: map<Text, Entry>, files: seq<FileState>, us: seq<Upload>, key: Key)
    requires |files| == |us| > 0
    requires var n := |files| - 1;
             AllStoredAsMarked(before, entries, files[..n], us[..n], key)
             && CanAdd(before, us[n].cid, Payload(files[n], us[n], key))
    ensures var n := |files| - 1;
            AllStoredAsMarked(before[us[n].cid := Payload(files[n], us[n], key)],
                              entries[files[n].relativePath := EntryFor(files[n], us[n], key)], files, us, key)
  {
    var n := |files| - 1;
    forall i: nat | LastOfItsPath(files, i) && i < n
      ensures files[i].relativePath in entries
      ensures StoredAsMarked(before, entries[files[i].relativePath], files[i], us[i], key)
    {
      assert LastOfItsPath(files[..n], i) && files[..n][i] == files[i] && us[..n][i] == us[i];
    }
  }

  /** uploadFiles; `answers` says what reading, sealing and adding each file yields, None for an
      exception.  What was uploaded before one stays in the store. */
  method UploadFiles(files: seq<FileState>, answers: seq<Option<Upload>>, key: Key, store: Store)
    returns (r: Option<UploadResult>, store': Store)
    requires |files| == |answers|
    ensures var us := Answered(answers);
            && store' == StoreAfterUploads(store, files[..|us|], us, key)
            && r == if |us| < |files| then None
                    else Some(UploadResult(AfterUploads(files, us, key), PayloadBytes(files, us, key), |files|))
    ensures var us := Answered(answers);
            r.Some? && Addable(store, files, us, key) ==> AllStoredAsMarked(store', r.value.entries, files, us, key)
  {
    var entries: map<Text, Entry>, totalBytes, fileCount := map[], 0, 0;
    store' := store;
    ghost var us := Answered(answers);
    for i := 0 to |files|
      invariant i <= |us|
      invariant entries == AfterUploads(files[..i], us[..i], key)
      invariant store' == StoreAfterUploads(store, files[..i], us[..i], key)
      invariant totalBytes == PayloadBytes(files[..i], us[..i], key) && fileCount == i
    {
      if answers[i].None? {
        assert us[..i] == us;
        return None, store';
      }
      var u := answers[i].value;
      OneMoreUpload(files, us, i, key, store);
      store' := store'[u.cid := Payload(files[i], u, key)];
      entries := entries[files[i].relativePath := EntryFor(files[i], u, key)];
      totalBytes := totalBytes + Size(Payload(files[i], u, key));
      fileCount := fileCount + 1;
    }
    assert files[..|files|] == files && us[..|us|] == us;
    if Addable(store, files, us, key) {
      UploadsAreMarked(files, us, key, store);
    }
    return Some(UploadResult(entries, totalBytes, fileCount)), store';
  }

  function CarryOver(untouched: seq<FileState>, previous: map<Text, Entry>): map<Text, Entry> {
    map p | p in PathsOf(untouched) && p in previous :: previous[p]
  }

  method CarryOverEntries(untouched: seq<FileState>, previous: map<Text, Entry>) returns (entries: map<Text, Entry>)
    ensures entries == CarryOver(untouched, previous)
  {
    entries := map[];
    for i := 0 to |untouched|
      invariant entries == CarryOver(untouched[..i], previous)
    {
      assert PathsOf(untouched[..i + 1]) == PathsOf(untouched[..i]) + {untouched[i].relativePath};
      if untouched[i].relativePath in previous {
        entries := entries[untouched[i].relativePath := previous[untouched[i].relativePath]];
      }
    }
    assert untouched[..|untouched|] == untouched;
  }

  /** A carried-over entry still describes the file: the path is there, and the bytes the
      scan read are the bytes its stored content opens to. */
  lemma CarriedEntriesDescribeTheScan(store: Store, key: Key, current: seq<FileState>, m: Manifest)
    requires DistinctPaths(current) && (forall f :: f in current ==> f.hash.Sha256?)
    requires AllSound(store, key, m.files)
    ensures var c := Changes(current, Some(m));
            && CarryOver(c.untouched, m.files).Keys == PathsOf(c.untouched)
            && AllSound(store, key, CarryOver(c.untouched, m.files))
            && forall f :: f in c.untouched ==> CarryOver(c.untouched, m.files)[f.relativePath].hash == f.hash
  {
  }
}
