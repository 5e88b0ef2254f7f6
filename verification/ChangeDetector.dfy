// What changed since the last manifest.

module ChangeDetector {
  import opened Wrappers
  import opened SoulTypes

  /** A file found by the directory walk; `hash` is the hash of the bytes read then. */
  datatype FileState = FileState(relativePath: Text, hash: Digest, encrypted: bool, category: Category)

  datatype ChangeSet = ChangeSet(
    added: seq<FileState>, modified: seq<FileState>, deleted: set<Text>, untouched: seq<FileState>)

  datatype Change = Added | Modified | Untouched

  function Classify(f: FileState, prev: map<Text, Entry>): Change {
    if f.relativePath !in prev then Added
    else if prev[f.relativePath].hash != f.hash then Modified
    else Untouched
  }

  function Select(files: seq<FileState>, prev: map<Text, Entry>, kind: Change): (r: seq<FileState>)
    ensures forall f :: f in r <==> f in files && Classify(f, prev) == kind
  {
    if files == [] then []
    else
      var rest := Select(files[..|files| - 1], prev, kind);
      var last := files[|files| - 1];
      assert files == files[..|files| - 1] + [last];
      if Classify(last, prev) == kind then rest + [last] else rest
  }

  function PathsOf(files: seq<FileState>): set<Text> {
    set f | f in files :: f.relativePath
  }

  ghost predicate DistinctPaths(files: seq<FileState>) {
    forall i, j :: 0 <= i < j < |files| ==> files[i].relativePath != files[j].relativePath
  }

  function Changes(current: seq<FileState>, previous: Option<Manifest>): ChangeSet {
    match previous
    case None => ChangeSet(current, [], {}, [])
    case Some(m) =>
      ChangeSet(Select(current, m.files, Added), Select(current, m.files, Modified),
                m.files.Keys - PathsOf(current), Select(current, m.files, Untouched))
  }

  lemma SelectOneMore(files: seq<FileState>, i: nat, prev: map<Text, Entry>, kind: Change)
    requires i < |files|
    ensures Select(files[..i + 1], prev, kind)
         == Select(files[..i], prev, kind) + if Classify(files[i], prev) == kind then [files[i]] else []
    ensures PathsOf(files[..i + 1]) == PathsOf(files[..i]) + {files[i].relativePath}
  {
    assert files[..i + 1] == files[..i] + [files[i]];
  }

  /** The comparison loop of detectChanges over a finished scan. */
  method DetectChanges(current: seq<FileState>, previous: Option<Manifest>) returns (c: ChangeSet)
    ensures c == Changes(current, previous)
  {
    if previous.None? {
      return ChangeSet(current, [], {}, []);
    }
    var prevFiles := previous.value.files;
    var prevPaths := prevFiles.Keys;
    var added, modified, untouched := [], [], [];
    for i := 0 to |current|
      invariant added == Select(current[..i], prevFiles, Added)
      invariant modified == Select(current[..i], prevFiles, Modified)
      invariant untouched == Select(current[..i], prevFiles, Untouched)
      invariant prevPaths == prevFiles.Keys - PathsOf(current[..i])
    {
      var file := current[i];
      SelectOneMore(current, i, prevFiles, Added);
      SelectOneMore(current, i, prevFiles, Modified);
      SelectOneMore(current, i, prevFiles, Untouched);
      if file.relativePath !in prevFiles {
        added := added + [file];
      } else if prevFiles[file.relativePath].hash != file.hash {
        modified := modified + [file];
      } else {
        untouched := untouched + [file];
      }
      prevPaths := prevPaths - {file.relativePath};
    }
    assert current[..|current|] == current;
    return ChangeSet(added, modified, prevPaths, untouched);
  }

  /** Every scanned path is uploaded or carried over, never both; deleted paths are neither. */
  lemma ChangesPartitionTheScan(current: seq<FileState>, previous: Option<Manifest>)
    requires DistinctPaths(current)
    ensures var c := Changes(current, previous);
            && PathsOf(c.added + c.modified) + PathsOf(c.untouched) == PathsOf(current)
            && PathsOf(c.added + c.modified) !! PathsOf(c.untouched)
            && c.deleted !! PathsOf(current)
  {
  }

  ghost predicate SameHashes(current: seq<FileState>, prev: map<Text, Entry>) {
    && PathsOf(current) == prev.Keys
    && forall f :: f in current ==> f.relativePath in prev && prev[f.relativePath].hash == f.hash
  }

  /** A scheduled incremental backup is skipped exactly when nothing differs from the last manifest. */
  lemma NothingChangedIff(current: seq<FileState>, m: Manifest)
    ensures var c := Changes(current, Some(m));
            c.added + c.modified == [] && c.deleted == {} <==> SameHashes(current, m.files)
  {
    var c := Changes(current, Some(m));
    if c.added + c.modified == [] && c.deleted == {} {
      forall f | f in current ensures Classify(f, m.files) == Untouched {
        assert f !in c.added && f !in c.modified;
      }
      forall f | f in current ensures f.relativePath in m.files && m.files[f.relativePath].hash == f.hash {
        assert Classify(f, m.files) == Untouched;
      }
      forall p | p in m.files ensures p in PathsOf(current) {
        assert p !in m.files.Keys - PathsOf(current);
      }
    } else if SameHashes(current, m.files) {
      EmptyIfNoMember(c.added);
      EmptyIfNoMember(c.modified);
    }
  }

  lemma EmptyIfNoMember<T>(s: seq<T>)
    ensures s == [] || s[0] in s
  {
  }
}
