// Which files of a chain reach a fresh target, when a path may be a file in one manifest and
// a directory in another.

module Landing {
  import opened Wrappers
  import opened SoulTypes
  import opened Ordering
  import opened Paths
  import opened FileSystem
  import opened Downloader

  /** One of the two paths names a directory above the other. */
  predicate Nested(a: Text, b: Text) {
    ProperPrefix(Split(a), Split(b)) || ProperPrefix(Split(b), Split(a))
  }

  predicate Clear(p: Text, landed: set<Text>) {
    forall q :: q in landed ==> !Nested(p, q)
  }

  /** The paths written by a chain: those that nothing written before stands in the way of. */
  function Landed(chain: seq<Manifest>): set<Text> {
    if chain == [] then {}
    else
      var before := Landed(chain[..|chain| - 1]);
      before + set p | p in chain[|chain| - 1].files && Clear(p, before)
  }

  /** Every file of the latest manifest lands.  This looks at the paths alone. */
  predicate Restorable(chain: seq<Manifest>) {
    LatestFiles(chain).Keys <= Landed(chain)
  }

  ghost predicate EachPrefixFree(chain: seq<Manifest>) {
    forall m :: m in chain ==> PrefixFree(m.files.Keys)
  }

  /** A canonical chain of prefix-free manifests with readable contents, and a fresh target. */
  ghost predicate Applicable(site: Site, chain: seq<Manifest>, ord: KeyOrder, d: Disk) {
    && AllListed(chain, ord) && Readable(site, chain) && EachPrefixFree(chain)
    && FreshTarget(site.target, d)
    && forall p :: p in AllPaths(chain) ==> Canonical(p)
  }

  lemma ApplicableEarlier(site: Site, chain: seq<Manifest>, ord: KeyOrder, d: Disk)
    requires chain != [] && Applicable(site, chain, ord, d)
    ensures Applicable(site, chain[..|chain| - 1], ord, d)
  {
    AllPathsOfLast(chain);
  }

  lemma {:induction false} LandedIsInChain(chain: seq<Manifest>)
    ensures Landed(chain) <= AllPaths(chain)
  {
    AllPathsOfLast(chain);
    if chain != [] {
      LandedIsInChain(chain[..|chain| - 1]);
    }
  }

  lemma {:induction false} LandedIsPrefixFree(chain: seq<Manifest>)
    requires EachPrefixFree(chain)
    ensures PrefixFree(Landed(chain))
  {
    if chain != [] {
      LandedIsPrefixFree(chain[..|chain| - 1]);
      assert chain[|chain| - 1] in chain;
    }
  }

  // ----- One write -----

  /** The disk holds exactly the files of `d` and those at `landed`, and no directories but
      those of `d` and the ones above the landed files. */
  ghost predicate Holding(site: Site, d: Disk, e: Disk, landed: set<Text>) {
    && GrownBy(site, d, e, landed)
    && (forall a :: a in d.files ==> a in e.files && e.files[a] == d.files[a])
    && (forall p :: p in landed ==> FullPath(site.target, p) in e.files)
  }

  /** A clear path can be written, and nothing else changes. */
  lemma ClearPathIsWritten(site: Site, d: Disk, e: Disk, landed: set<Text>, p: Text, content: Blob)
    requires FreshTarget(site.target, d) && Holding(site, d, e, landed)
    requires Canonical(p) && (forall q :: q in landed ==> Canonical(q))
    requires PrefixFree(landed) && Clear(p, landed)
    ensures Allowed(site.target, FullPath(site.target, p)) && CanWrite(e, FullPath(site.target, p))
    ensures Holding(site, d, AfterWrite(e, FullPath(site.target, p), content), landed + {p})
    ensures PrefixFree(landed + {p})
  {
    assert !ProperPrefix(Split(p), Split(p));
    assert GrownBy(site, d, e, landed + {p});
    CanWriteInto(site, d, e, landed + {p}, p);
    WriteKeepsGrownBy(site, d, e, landed + {p}, p, content);
    NestedSegmentsNestPaths(site.target, p, p);
  }

  /** A path nested with a landed one cannot be written, and trying changes nothing. */
  lemma BlockedPathIsSkipped(site: Site, d: Disk, e: Disk, landed: set<Text>, p: Text, content: Blob)
    requires FreshTarget(site.target, d) && Holding(site, d, e, landed)
    requires Canonical(p) && (forall q :: q in landed ==> Canonical(q)) && !Clear(p, landed)
    ensures !CanWrite(e, FullPath(site.target, p))
    ensures AfterWrite(e, FullPath(site.target, p), content) == e
  {
    var full := FullPath(site.target, p);
    var q :| q in landed && Nested(p, q);
    var other := FullPath(site.target, q);
    NestedSegmentsNestPaths(site.target, p, q);
    NestedSegmentsNestPaths(site.target, q, p);
    if ProperPrefix(other, full) {
      assert full[..|other|] in e.files;
    } else {
      assert other[..|full|] == full && full in e.dirs;
      assert MakeParents(e, full).dirs == e.dirs by {
        forall k | 0 <= k < |full| ensures full[..k] in e.dirs {
        }
      }
    }
  }

  // ----- One manifest -----

  ghost function Written(keys: seq<Text>, landed: set<Text>): set<Text> {
    set p | p in keys && Clear(p, landed)
  }

  lemma WrittenOneMore(keys: seq<Text>, landed: set<Text>)
    requires keys != []
    ensures var last := keys[|keys| - 1];
            Written(keys, landed)
            == Written(keys[..|keys| - 1], landed) + if Clear(last, landed) then {last} else {}
  {
    assert keys == keys[..|keys| - 1] + [keys[|keys| - 1]];
  }

  /** Files of one prefix-free manifest never stand in each other's way. */
  lemma ClearOfOwnManifest(p: Text, landed: set<Text>, own: set<Text>, all: set<Text>)
    requires PrefixFree(all) && p in all && own <= all
    ensures Clear(p, landed + own) <==> Clear(p, landed)
  {
    assert forall q :: q in own ==> !Nested(p, q);
  }

  ghost predicate Contents(site: Site, e: Disk, files: map<Text, Entry>, written: set<Text>) {
    forall p :: p in written && p in files ==>
      FullPath(site.target, p) in e.files && Content(site, files[p]) == Some(e.files[FullPath(site.target, p)])
  }

  lemma ContentsOneMore(site: Site, e: Disk, files: map<Text, Entry>, written: set<Text>, p: Text, content: Blob)
    requires Contents(site, e, files, written) && p in files && Content(site, files[p]) == Some(content)
    requires Canonical(p) && (forall q :: q in written ==> Canonical(q)) && CanWrite(e, FullPath(site.target, p))
    ensures Contents(site, AfterWrite(e, FullPath(site.target, p), content), files, written + {p})
  {
    forall q | q in written { CanonicalPathsDoNotAlias(site.target, q, p); }
  }

  /** What a manifest may assume of the disk and of what landed before. */
  ghost predicate Ready(site: Site, d: Disk, e: Disk, landed: set<Text>) {
    && FreshTarget(site.target, d) && Holding(site, d, e, landed)
    && PrefixFree(landed) && forall q :: q in landed ==> Canonical(q)
  }

  lemma {:induction false} FilesLand(site: Site, keys: seq<Text>, files: map<Text, Entry>, d: Disk, e: Disk,
                                     landed: set<Text>)
    requires Ready(site, d, e, landed)
    requires forall p :: p in keys ==> p in files
    requires PrefixFree(files.Keys) && forall p :: p in files ==> Canonical(p) && Content(site, files[p]).Some?
    ensures var f := AfterFiles(site, keys, files, e).disk;
            Ready(site, d, f, landed + Written(keys, landed)) && Contents(site, f, files, Written(keys, landed))
  {
    if keys == [] {
      assert landed + Written(keys, landed) == landed;
    } else {
      var last, init := keys[|keys| - 1], keys[..|keys| - 1];
      FilesLand(site, init, files, d, e, landed);
      LastFileLands(site, keys, files, d, AfterFiles(site, init, files, e), landed);
    }
  }

  lemma LastFileLands(site: Site, keys: seq<Text>, files: map<Text, Entry>, d: Disk, g: Progress, landed: set<Text>)
    requires keys != [] && forall p :: p in keys ==> p in files
    requires Ready(site, d, g.disk, landed + Written(keys[..|keys| - 1], landed))
    requires Contents(site, g.disk, files, Written(keys[..|keys| - 1], landed))
    requires PrefixFree(files.Keys) && forall p :: p in files ==> Canonical(p) && Content(site, files[p]).Some?
    ensures var f := AfterFile(site, keys[|keys| - 1], files[keys[|keys| - 1]], g).disk;
            Ready(site, d, f, landed + Written(keys, landed)) && Contents(site, f, files, Written(keys, landed))
  {
    var last := keys[|keys| - 1];
    var own := Written(keys[..|keys| - 1], landed);
    var content := Content(site, files[last]).value;
    WrittenOneMore(keys, landed);
    ClearOfOwnManifest(last, landed, own, files.Keys);
    CanonicalPathsDoNotAlias(site.target, last, last);
    if Clear(last, landed) {
      ClearPathIsWritten(site, d, g.disk, landed + own, last, content);
      ContentsOneMore(site, g.disk, files, own, last, content);
      assert landed + Written(keys, landed) == landed + own + {last};
    } else {
      BlockedPathIsSkipped(site, d, g.disk, landed + own, last, content);
      assert Written(keys, landed) == own;
    }
  }

  // ----- The chain -----

  lemma {:induction false} ChainLands(site: Site, chain: seq<Manifest>, ord: KeyOrder, d: Disk)
    requires Applicable(site, chain, ord, d)
    ensures var e := AfterManifests(site, chain, ord, d).disk;
            Ready(site, d, e, Landed(chain)) && Contents(site, e, LatestFiles(chain), Landed(chain))
  {
    if chain != [] {
      var m, init := chain[|chain| - 1], chain[..|chain| - 1];
      ApplicableEarlier(site, chain, ord, d);
      ChainLands(site, init, ord, d);
      LastManifestLands(site, chain, ord, d, AfterManifests(site, init, ord, d).disk);
    }
  }

  /** The latest manifest adds what it writes, and rewrites whatever it shares with the past. */
  lemma LandedOneMore(chain: seq<Manifest>, keys: seq<Text>)
    requires chain != [] && Enumerates(keys, chain[|chain| - 1].files.Keys)
    requires PrefixFree(Landed(chain[..|chain| - 1]))
    ensures var before := Landed(chain[..|chain| - 1]);
            && Landed(chain) == before + Written(keys, before)
            && Landed(chain) * chain[|chain| - 1].files.Keys <= Written(keys, before)
  {
    var before := Landed(chain[..|chain| - 1]);
    assert forall p :: p in before ==> Clear(p, before);
  }

  lemma LastManifestLands(site: Site, chain: seq<Manifest>, ord: KeyOrder, d: Disk, e: Disk)
    requires chain != [] && Applicable(site, chain, ord, d)
    requires Ready(site, d, e, Landed(chain[..|chain| - 1]))
    ensures Listed(chain[|chain| - 1], ord)
    ensures var m := chain[|chain| - 1];
            var f := AfterFiles(site, ord(m), m.files, e).disk;
            Ready(site, d, f, Landed(chain)) && Contents(site, f, m.files, Landed(chain))
  {
    var m := chain[|chain| - 1];
    assert m in chain && Listed(m, ord);
    AllPathsOfLast(chain);
    LandedOneMore(chain, ord(m));
    FilesLand(site, ord(m), m.files, d, e, Landed(chain[..|chain| - 1]));
  }

  /** What is left after the obsolete paths are gone: the landed files of the latest manifest. */
  lemma ChainLeaves(site: Site, chain: seq<Manifest>, ord: KeyOrder, d: Disk)
    requires chain != [] && Applicable(site, chain, ord, d)
    ensures var e := AfterChain(site, chain, ord, d).disk;
            && e.files.Keys == d.files.Keys + FullPaths(site.target, Landed(chain) * LatestFiles(chain).Keys)
            && (forall a :: a in d.files ==> e.files[a] == d.files[a])
            && Contents(site, e, LatestFiles(chain), Landed(chain) * LatestFiles(chain).Keys)
  {
    ChainLands(site, chain, ord, d);
    LandedIsInChain(chain);
    assert AllPaths(chain) == Obsolete(chain) + LatestFiles(chain).Keys by { AllPathsOfLast(chain); }
    RemovalLeaves(site, d, AfterManifests(site, chain, ord, d).disk, Landed(chain), Obsolete(chain),
                  LatestFiles(chain));
  }

  lemma RemovalLeaves(site: Site, d: Disk, g: Disk, landed: set<Text>, obsolete: set<Text>, latest: map<Text, Entry>)
    requires Ready(site, d, g, landed) && Contents(site, g, latest, landed)
    requires landed <= obsolete + latest.Keys && obsolete !! latest.Keys
    requires forall p :: p in obsolete || p in latest ==> Canonical(p)
    ensures var e := g.(files := g.files - Removable(site, obsolete, g));
            && e.files.Keys == d.files.Keys + FullPaths(site.target, landed * latest.Keys)
            && (forall a :: a in d.files ==> a in e.files && e.files[a] == d.files[a])
            && Contents(site, e, latest, landed * latest.Keys)
  {
    forall p | p in obsolete || p in latest
      ensures FullPath(site.target, p) !in d.files && FullPath(site.target, p) !in g.denied
      ensures Inside(site.target, FullPath(site.target, p))
    {
      NestedSegmentsNestPaths(site.target, p, p);
    }
    forall p, q | p in latest && q in obsolete ensures FullPath(site.target, p) != FullPath(site.target, q) {
      CanonicalPathsDoNotAlias(site.target, p, q);
    }
    var e := g.(files := g.files - Removable(site, obsolete, g));
    forall a | a in e.files ensures a in d.files || a in FullPaths(site.target, landed * latest.Keys) {
      if a !in d.files {
        assert a in FullPaths(site.target, landed);
      }
    }
  }

  lemma FoundAmong(target: Abs, landed: set<Text>, p: Text)
    requires Canonical(p) && forall q :: q in landed ==> Canonical(q)
    ensures FullPath(target, p) in FullPaths(target, landed) <==> p in landed
  {
    forall q | q in landed { CanonicalPathsDoNotAlias(target, p, q); }
  }

  /** A file of the latest manifest is there exactly if it landed. */
  lemma MissingUnlessLanded(site: Site, chain: seq<Manifest>, ord: KeyOrder, d: Disk, p: Text)
    requires chain != [] && Applicable(site, chain, ord, d) && p in LatestFiles(chain)
    ensures FullPath(site.target, p) in AfterChain(site, chain, ord, d).disk.files <==> p in Landed(chain)
    ensures FullPath(site.target, p) !in d.files
  {
    ChainLeaves(site, chain, ord, d);
    AllPathsOfLast(chain);
    NestedSegmentsNestPaths(site.target, p, p);
    FoundAmong(site.target, Landed(chain) * LatestFiles(chain).Keys, p);
  }

  /** The exact condition: a chain is applied exactly, into a fresh target, if and only if
      every file of the latest manifest lands. */
  lemma ExactIffRestorable(site: Site, chain: seq<Manifest>, ord: KeyOrder, d: Disk)
    requires chain != [] && Applicable(site, chain, ord, d)
    ensures Exact(site, chain, d, AfterChain(site, chain, ord, d).disk) <==> Restorable(chain)
  {
    var e := AfterChain(site, chain, ord, d).disk;
    ChainLeaves(site, chain, ord, d);
    forall p | p in AllPaths(chain) ensures FullPath(site.target, p) !in d.files {
      NestedSegmentsNestPaths(site.target, p, p);
    }
    if Restorable(chain) {
      assert Landed(chain) * LatestFiles(chain).Keys == LatestFiles(chain).Keys;
    } else {
      var p :| p in LatestFiles(chain) && p !in Landed(chain);
      MissingUnlessLanded(site, chain, ord, d, p);
    }
  }

  /** A chain without nested paths lands whole. */
  lemma {:induction false} PrefixFreeLands(chain: seq<Manifest>)
    requires PrefixFree(AllPaths(chain))
    ensures Landed(chain) == AllPaths(chain) && Restorable(chain)
  {
    AllPathsOfLast(chain);
    if chain != [] {
      PrefixFreeLands(chain[..|chain| - 1]);
    }
  }

  /** The files of the full backup all land, so nothing nested with one of them ever does: no
      later file below it, and none where it needs a directory. */
  lemma {:induction false} RootBlocksNested(chain: seq<Manifest>, a: Text, b: Text)
    requires chain != [] && EachPrefixFree(chain) && a in chain[0].files && Nested(a, b)
    ensures a in Landed(chain) && b !in Landed(chain)
  {
    if |chain| == 1 {
      assert chain[..0] == [];
      LandedIsPrefixFree(chain);
    } else {
      RootBlocksNested(chain[..|chain| - 1], a, b);
    }
  }
}
