// Checking manifests and restored files.

module IntegrityChecker {
  import opened SoulTypes
  import opened Ordering
  import opened Merkle
  import opened Paths
  import opened FileSystem
  import opened Downloader

  ghost predicate ManifestRootValid(m: Manifest) {
    DataMerkleRoot(m.files) == m.merkleRoot
  }

  method VerifyManifestMerkleRoot(m: Manifest, ord: KeyOrder) returns (valid: bool)
    requires Listed(m, ord)
    ensures valid <==> ManifestRootValid(m)
  {
    var computed := ComputeDataMerkleRoot(ord(m), m.files);
    valid := computed == m.merkleRoot;
  }

  datatype FileResult = FileResult(path: Text, valid: bool)

  /** The restored file is present, inside the target, and hashes to the recorded value. */
  ghost predicate FileRestored(target: Abs, d: Disk, rel: Text, e: Entry) {
    && Allowed(target, FullPath(target, rel))
    && FullPath(target, rel) in d.files
    && Sha256(d.files[FullPath(target, rel)]) == e.hash
  }

  ghost predicate AllRestored(target: Abs, d: Disk, m: Manifest) {
    && (forall p :: p in m.files ==> FileRestored(target, d, p, m.files[p]))
    && ManifestRootValid(m)
  }

  method VerifyRestoredFiles(m: Manifest, target: Abs, ord: KeyOrder, fs: FileStore)
    returns (valid: bool, fileResults: seq<FileResult>)
    requires Listed(m, ord)
    ensures valid <==> AllRestored(target, fs.View(), m)
    ensures |fileResults| == |m.files|
    ensures forall r :: r in fileResults ==>
      r.path in m.files && (r.valid <==> FileRestored(target, fs.View(), r.path, m.files[r.path]))
  {
    fileResults := [];
    var allValid := true;
    var keys := ord(m);
    for i := 0 to |keys|
      invariant |fileResults| == i
      invariant forall k :: 0 <= k < i ==> fileResults[k].path == keys[k]
      invariant forall k :: 0 <= k < i ==>
        (fileResults[k].valid <==> FileRestored(target, fs.View(), keys[k], m.files[keys[k]]))
      invariant allValid <==> forall k :: 0 <= k < i ==> FileRestored(target, fs.View(), keys[k], m.files[keys[k]])
    {
      var full := FullPath(target, keys[i]);
      var ok := Allowed(target, full) && full in fs.files && Sha256(fs.files[full]) == m.files[keys[i]].hash;
      if !ok {
        allValid := false;
      }
      fileResults := fileResults + [FileResult(keys[i], ok)];
    }
    EnumerationSize(keys, m.files.Keys);
    assert forall p :: p in m.files ==> p in keys;
    var rootValid := VerifyManifestMerkleRoot(m, ord);
    valid := allValid && rootValid;
  }
}
