// The manifest built from the entries of a backup.

module ManifestBuilder {
  import opened Wrappers
  import opened SoulTypes
  import opened Ordering
  import opened Merkle

  /** Sum of the entry sizes, in any order. */
  ghost function TotalBytes(files: map<Text, Entry>): nat
    decreases |files|
  {
    if files == map[] then 0
    else
      var p :| p in files;
      files[p].sizeBytes + TotalBytes(files - {p})
  }

  lemma {:induction false} TotalBytesWithout(files: map<Text, Entry>, p: Text)
    requires p in files
    ensures TotalBytes(files) == files[p].sizeBytes + TotalBytes(files - {p})
    decreases |files|
  {
    var q :| q in files && TotalBytes(files) == files[q].sizeBytes + TotalBytes(files - {q});
    if p != q {
      TotalBytesWithout(files - {q}, p);
      TotalBytesWithout(files - {p}, q);
      assert files - {q} - {p} == files - {p} - {q};
    }
  }

  ghost function ManifestFor(agentId: Text, entries: map<Text, Entry>, parentCid: Option<Cid>, timestamp: nat)
    : Manifest
  {
    Manifest(agentId, timestamp, parentCid, entries, DataMerkleRoot(entries), TotalBytes(entries), |entries|)
  }

  function Restrict(entries: map<Text, Entry>, keys: seq<Text>): map<Text, Entry> {
    map p | p in keys && p in entries :: entries[p]
  }

  lemma TotalBytesOneMore(entries: map<Text, Entry>, keys: seq<Text>, i: nat)
    requires Enumerates(keys, entries.Keys) && i < |keys|
    ensures keys[i] in entries
    ensures TotalBytes(Restrict(entries, keys[..i + 1]))
         == entries[keys[i]].sizeBytes + TotalBytes(Restrict(entries, keys[..i]))
  {
    assert keys[i] in keys;
    var next := Restrict(entries, keys[..i + 1]);
    assert keys[..i + 1] == keys[..i] + [keys[i]];
    assert next - {keys[i]} == Restrict(entries, keys[..i]);
    TotalBytesWithout(next, keys[i]);
  }

  /** The accumulating loop of buildManifest, over the properties in any order. */
  method CountEntries(entries: map<Text, Entry>, keys: seq<Text>) returns (totalBytes: nat, fileCount: nat)
    requires Enumerates(keys, entries.Keys)
    ensures totalBytes == TotalBytes(entries) && fileCount == |entries|
  {
    totalBytes, fileCount := 0, 0;
    for i := 0 to |keys|
      invariant totalBytes == TotalBytes(Restrict(entries, keys[..i]))
      invariant fileCount == i
    {
      TotalBytesOneMore(entries, keys, i);
      totalBytes := totalBytes + entries[keys[i]].sizeBytes;
      fileCount := fileCount + 1;
    }
    assert Restrict(entries, keys[..|keys|]) == entries;
    EnumerationSize(keys, entries.Keys);
  }

  method BuildManifest(agentId: Text, entries: map<Text, Entry>, keys: seq<Text>, parentCid: Option<Cid>,
                       timestamp: nat)
    returns (m: Manifest)
    requires Enumerates(keys, entries.Keys)
    ensures m == ManifestFor(agentId, entries, parentCid, timestamp)
  {
    var merkleRoot := ComputeDataMerkleRoot(keys, entries);
    var totalBytes, fileCount := CountEntries(entries, keys);
    m := Manifest(agentId, timestamp, parentCid, entries, merkleRoot, totalBytes, fileCount);
  }
}
