// Writing a chain of manifests to a target directory.

module Downloader {
  import opened Wrappers
  import opened SoulTypes
  import opened Ordering
  import opened Paths
  import opened FileSystem

  /** Object.keys of a manifest's files, in the order the object lists them. */
  type KeyOrder = Manifest -> seq<Text>

  /** Where a restore writes, where it reads, and the key it was given. */
  datatype Site = Site(target: Abs, store: Store, key: Key)

  datatype DownloadResult = DownloadResult(filesWritten: nat, totalBytes: nat, errors: seq<Text>)

  datatype Progress = Progress(disk: Disk, result: DownloadResult)

  const NOTHING_YET := DownloadResult(0, 0, [])

  ghost predicate Listed(m: Manifest, ord: KeyOrder) {
    Enumerates(ord(m), m.files.Keys)
  }

  ghost predicate AllListed(chain: seq<Manifest>, ord: KeyOrder) {
    forall m :: m in chain ==> Listed(m, ord)
  }

  function Content(site: Site, e: Entry): Option<Blob> {
    match Cat(site.store, e.cid)
    case Some(b) => Open(b, e.encrypted, site.key)
    case None => None
  }

  // ----- One file, one manifest, one chain, as functions of the disk -----

  ghost function AfterFile(site: Site, rel: Text, e: Entry, g: Progress): Progress {
    var full := FullPath(site.target, rel);
    var failed := g.result.(errors := g.result.errors + [rel]);
    if !Allowed(site.target, full) then g.(result := failed)
    else
      match Content(site, e)
      case None => g.(result := failed)
      case Some(content) =>
        Progress(AfterWrite(g.disk, full, content),
                 if CanWrite(g.disk, full)
                 then g.result.(filesWritten := g.result.filesWritten + 1,
                                totalBytes := g.result.totalBytes + Size(content))
                 else failed)
  }

  ghost function AfterFiles(site: Site, keys: seq<Text>, files: map<Text, Entry>, d: Disk): Progress
    requires forall p :: p in keys ==> p in files
  {
    if keys == [] then Progress(d, NOTHING_YET)
    else
      var last := keys[|keys| - 1];
      AfterFile(site, last, files[last], AfterFiles(site, keys[..|keys| - 1], files, d))
  }

  function Sum(a: DownloadResult, b: DownloadResult): DownloadResult {
    DownloadResult(a.filesWritten + b.filesWritten, a.totalBytes + b.totalBytes, a.errors + b.errors)
  }

  ghost function AfterManifests(site: Site, chain: seq<Manifest>, ord: KeyOrder, d: Disk): Progress
    requires AllListed(chain, ord)
  {
    if chain == [] then Progress(d, NOTHING_YET)
    else
      var m := chain[|chain| - 1];
      var before := AfterManifests(site, chain[..|chain| - 1], ord, d);
      assert Listed(m, ord);
      var own := AfterFiles(site, ord(m), m.files, before.disk);
      Progress(own.disk, Sum(before.result, own.result))
  }

  ghost function AllPaths(chain: seq<Manifest>): set<Text> {
    set m, p | m in chain && p in m.files :: p
  }

  /** Paths of the chain that the latest manifest no longer has. */
  ghost function Obsolete(chain: seq<Manifest>): set<Text>
    requires chain != []
  {
    AllPaths(chain) - chain[|chain| - 1].files.Keys
  }

  ghost function Removable(site: Site, rels: set<Text>, d: Disk): set<Abs> {
    set r | r in rels && Inside(site.target, FullPath(site.target, r)) && FullPath(site.target, r) !in d.denied
        :: FullPath(site.target, r)
  }

  ghost function AfterChain(site: Site, chain: seq<Manifest>, ord: KeyOrder, d: Disk): Progress
    requires chain != [] && AllListed(chain, ord)
  {
    var g := AfterManifests(site, chain, ord, d);
    g.(disk := g.disk.(files := g.disk.files - Removable(site, Obsolete(chain), g.disk)))
  }

  // ----- The source's loops compute these functions -----

  method DownloadManifestFiles(manifest: Manifest, site: Site, ord: KeyOrder, fs: FileStore) returns (r: DownloadResult)
    requires Listed(manifest, ord)
    modifies fs
    ensures Progress(fs.View(), r) == AfterFiles(site, ord(manifest), manifest.files, old(fs.View()))
  {
    var filesWritten: nat, totalBytes: nat, errors: seq<Text> := 0, 0, [];
    var keys := ord(manifest);
    ghost var d := fs.View();
    for i := 0 to |keys|
      invariant Progress(fs.View(), DownloadResult(filesWritten, totalBytes, errors))
             == AfterFiles(site, keys[..i], manifest.files, d)
    {
      assert keys[..i + 1][..i] == keys[..i];
      var rel := keys[i];
      var entry := manifest.files[rel];
      var full := FullPath(site.target, rel);
      if !Allowed(site.target, full) {
        errors := errors + [rel];
      } else {
        match Content(site, entry)
        case None =>
          errors := errors + [rel];
        case Some(content) =>
          var written := fs.WriteFile(full, content);
          if written {
            filesWritten := filesWritten + 1;
            totalBytes := totalBytes + Size(content);
          } else {
            errors := errors + [rel];
          }
      }
    }
    assert keys[..|keys|] == keys;
    r := DownloadResult(filesWritten, totalBytes, errors);
  }

  method ApplyManifestChain(chain: seq<Manifest>, site: Site, ord: KeyOrder, fs: FileStore) returns (r: DownloadResult)
    requires chain != [] && AllListed(chain, ord)
    modifies fs
    ensures Progress(fs.View(), r) == AfterChain(site, chain, ord, old(fs.View()))
  {
    r := NOTHING_YET;
    var writtenPaths: set<Text> := {};
    ghost var d := fs.View();
    for i := 0 to |chain|
      invariant Progress(fs.View(), r) == AfterManifests(site, chain[..i], ord, d)
      invariant writtenPaths == AllPaths(chain[..i])
    {
      assert chain[..i + 1][..i] == chain[..i];
      var own := DownloadManifestFiles(chain[i], site, ord, fs);
      r := Sum(r, own);
      writtenPaths := writtenPaths + chain[i].files.Keys;
    }
    assert chain[..|chain|] == chain;
    RemoveFiles(writtenPaths - chain[|chain| - 1].files.Keys, site, fs);
  }

  method RemoveFiles(rels: set<Text>, site: Site, fs: FileStore)
    modifies fs
    ensures fs.View() == old(fs.View()).(files := old(fs.files) - old(Removable(site, rels, fs.View())))
  {
    ghost var d := fs.View();
    ghost var done: set<Text> := {};
    var todo := rels;
    while todo != {}
      invariant done + todo == rels && done !! todo
      invariant fs.View() == d.(files := d.files - Removable(site, done, d))
    {
      var p :| p in todo;
      var full := FullPath(site.target, p);
      if Inside(site.target, full) {
        fs.Unlink(full);
      }
      todo, done := todo - {p}, done + {p};
    }
    assert done == rels;
  }

  // ----- Every write stays inside the target -----

  /** Whatever the manifests say, nothing outside the target directory changes. */
  lemma {:induction false} FilesStayInside(site: Site, keys: seq<Text>, files: map<Text, Entry>, d: Disk, a: Abs)
    requires forall p :: p in keys ==> p in files
    requires !Allowed(site.target, a)
    ensures var e := AfterFiles(site, keys, files, d).disk;
            e.denied == d.denied && (a in e.files <==> a in d.files) && (a in d.files ==> e.files[a] == d.files[a])
  {
    if keys != [] {
      FilesStayInside(site, keys[..|keys| - 1], files, d, a);
    }
  }

  lemma {:induction false} ManifestsStayInside(site: Site, chain: seq<Manifest>, ord: KeyOrder, d: Disk, a: Abs)
    requires AllListed(chain, ord)
    requires !Allowed(site.target, a)
    ensures var e := AfterManifests(site, chain, ord, d).disk;
            e.denied == d.denied && (a in e.files <==> a in d.files) && (a in d.files ==> e.files[a] == d.files[a])
  {
    if chain != [] {
      var m := chain[|chain| - 1];
      var before := AfterManifests(site, chain[..|chain| - 1], ord, d);
      ManifestsStayInside(site, chain[..|chain| - 1], ord, d, a);
      assert Listed(m, ord);
      FilesStayInside(site, ord(m), m.files, before.disk, a);
    }
  }

  lemma ChainStaysInside(site: Site, chain: seq<Manifest>, ord: KeyOrder, d: Disk, a: Abs)
    requires chain != [] && AllListed(chain, ord)
    requires !Allowed(site.target, a)
    ensures var e := AfterChain(site, chain, ord, d).disk;
            (a in e.files <==> a in d.files) && (a in d.files ==> e.files[a] == d.files[a])
  {
    ManifestsStayInside(site, chain, ord, d, a);
  }

  // ----- Closed form of an error-free restore -----

  ghost predicate NoAliases(site: Site, rels: set<Text>) {
    forall a, b :: a in rels && b in rels && FullPath(site.target, a) == FullPath(site.target, b) ==> a == b
  }

  /** `e` is `d` with `added` written on top, and its files hold the given contents. */
  ghost predicate Overlay(site: Site, d: Disk, e: Disk, added: set<Text>, contents: map<Text, Entry>) {
    && e.denied == d.denied
    && e.files.Keys == d.files.Keys + FullPaths(site.target, added)
    && (forall a :: a in d.files && a !in FullPaths(site.target, added) ==> e.files[a] == d.files[a])
    && (forall p :: p in added ==>
          Allowed(site.target, FullPath(site.target, p)) && FullPath(site.target, p) !in d.denied)
    && (forall p :: p in contents && p in added ==>
          Content(site, contents[p]) == Some(e.files[FullPath(site.target, p)]))
  }

  lemma FullPathsUnion(t: Abs, a: set<Text>, b: set<Text>)
    ensures FullPaths(t, a + b) == FullPaths(t, a) + FullPaths(t, b)
  {
  }

  lemma OverlayOneMore(site: Site, d: Disk, e: Disk, added: set<Text>, contents: map<Text, Entry>, last: Text, c: Blob)
    requires Overlay(site, d, e, added, contents)
    requires last !in added && last in contents && added <= contents.Keys && NoAliases(site, contents.Keys)
    requires Content(site, contents[last]) == Some(c)
    requires Allowed(site.target, FullPath(site.target, last)) && CanWrite(e, FullPath(site.target, last))
    ensures Overlay(site, d, AfterWrite(e, FullPath(site.target, last), c), added + {last}, contents)
  {
    FullPathsUnion(site.target, added, {last});
    assert FullPaths(site.target, {last}) == {FullPath(site.target, last)};
    forall p | p in added ensures FullPath(site.target, p) != FullPath(site.target, last) {
    }
  }

  lemma ErrorFreeStep(site: Site, rel: Text, e: Entry, g: Progress)
    requires AfterFile(site, rel, e, g).result.errors == []
    ensures g.result.errors == [] && Content(site, e).Some?
    ensures Allowed(site.target, FullPath(site.target, rel)) && CanWrite(g.disk, FullPath(site.target, rel))
    ensures AfterFile(site, rel, e, g).disk == AfterWrite(g.disk, FullPath(site.target, rel), Content(site, e).value)
    ensures AfterFile(site, rel, e, g).result.filesWritten == g.result.filesWritten + 1
    ensures AfterFile(site, rel, e, g).result.totalBytes == g.result.totalBytes + Size(Content(site, e).value)
  {
  }

  lemma {:induction false} ErrorFreeFiles(site: Site, keys: seq<Text>, files: map<Text, Entry>, d: Disk)
    requires Distinct(keys) && forall p :: p in keys ==> p in files
    requires NoAliases(site, files.Keys)
    requires AfterFiles(site, keys, files, d).result.errors == []
    ensures AfterFiles(site, keys, files, d).result.filesWritten == |keys|
    ensures Overlay(site, d, AfterFiles(site, keys, files, d).disk, Elements(keys), files)
  {
    if keys != [] {
      var last := keys[|keys| - 1];
      var init := keys[..|keys| - 1];
      var g := AfterFiles(site, init, files, d);
      ErrorFreeStep(site, last, files[last], g);
      ErrorFreeFiles(site, init, files, d);
      ElementsOfLast(keys);
      OverlayOneMore(site, d, g.disk, Elements(init), files, last, Content(site, files[last]).value);
    }
  }

  ghost function Elements(keys: seq<Text>): set<Text> {
    set p | p in keys
  }

  lemma ElementsOfLast(keys: seq<Text>)
    requires keys != [] && Distinct(keys)
    ensures Elements(keys) == Elements(keys[..|keys| - 1]) + {keys[|keys| - 1]}
    ensures keys[|keys| - 1] !in Elements(keys[..|keys| - 1])
  {
  }

  lemma OverlayCompose(site: Site, d: Disk, e: Disk, f: Disk, a: set<Text>, ca: map<Text, Entry>, cb: map<Text, Entry>)
    requires Overlay(site, d, e, a, ca) && Overlay(site, e, f, cb.Keys, cb)
    ensures Overlay(site, d, f, a + cb.Keys, cb)
  {
    FullPathsUnion(site.target, a, cb.Keys);
  }

  function FileCount(chain: seq<Manifest>): nat {
    if chain == [] then 0 else FileCount(chain[..|chain| - 1]) + |chain[|chain| - 1].files|
  }

  lemma ErrorFreeManifest(site: Site, m: Manifest, ord: KeyOrder, d: Disk, e: Disk, a: set<Text>, ca: map<Text, Entry>)
    requires Listed(m, ord) && NoAliases(site, m.files.Keys)
    requires AfterFiles(site, ord(m), m.files, e).result.errors == []
    requires Overlay(site, d, e, a, ca)
    ensures AfterFiles(site, ord(m), m.files, e).result.filesWritten == |m.files|
    ensures Overlay(site, d, AfterFiles(site, ord(m), m.files, e).disk, a + m.files.Keys, m.files)
  {
    ErrorFreeFiles(site, ord(m), m.files, e);
    EnumerationSize(ord(m), m.files.Keys);
    assert Elements(ord(m)) == m.files.Keys;
    OverlayCompose(site, d, e, AfterFiles(site, ord(m), m.files, e).disk, a, ca, m.files);
  }

  function LatestFiles(chain: seq<Manifest>): map<Text, Entry> {
    if chain == [] then map[] else chain[|chain| - 1].files
  }

  lemma AllPathsOfLast(chain: seq<Manifest>)
    ensures chain == [] ==> AllPaths(chain) == {}
    ensures chain != [] ==> AllPaths(chain) == AllPaths(chain[..|chain| - 1]) + chain[|chain| - 1].files.Keys
  {
  }

  lemma {:induction false} ErrorFreeManifests(site: Site, chain: seq<Manifest>, ord: KeyOrder, d: Disk)
    requires AllListed(chain, ord)
    requires forall m :: m in chain ==> NoAliases(site, m.files.Keys)
    requires AfterManifests(site, chain, ord, d).result.errors == []
    ensures AfterManifests(site, chain, ord, d).result.filesWritten == FileCount(chain)
    ensures Overlay(site, d, AfterManifests(site, chain, ord, d).disk, AllPaths(chain), LatestFiles(chain))
  {
    AllPathsOfLast(chain);
    if chain != [] {
      var m := chain[|chain| - 1];
      var init := chain[..|chain| - 1];
      assert m in chain && Listed(m, ord);
      var before := AfterManifests(site, init, ord, d);
      ErrorFreeManifests(site, init, ord, d);
      ErrorFreeManifest(site, m, ord, d, before.disk, AllPaths(init), LatestFiles(init));
    }
  }

  /** The directory an exact restore leaves behind: the latest manifest's contents in
      place of every path of the chain, and everything else as it was. */
  ghost predicate Exact(site: Site, chain: seq<Manifest>, d: Disk, e: Disk) {
    ExactFiles(site, d, e, AllPaths(chain), LatestFiles(chain))
  }

  ghost predicate ExactFiles(site: Site, d: Disk, e: Disk, all: set<Text>, latest: map<Text, Entry>) {
    && e.files.Keys == (d.files.Keys - FullPaths(site.target, all)) + FullPaths(site.target, latest.Keys)
    && (forall a :: a in d.files && a !in FullPaths(site.target, all) ==> e.files[a] == d.files[a])
    && (forall p :: p in latest ==>
          FullPath(site.target, p) in e.files && Content(site, latest[p]) == Some(e.files[FullPath(site.target, p)]))
  }

  /** Closed form: without errors, the chain is applied exactly if and only if the
      obsolete paths strictly inside the target are those that no latest path aliases. */
  lemma ApplyChainClosedForm(site: Site, chain: seq<Manifest>, ord: KeyOrder, d: Disk)
    requires chain != [] && AllListed(chain, ord)
    requires forall m :: m in chain ==> NoAliases(site, m.files.Keys)
    requires AfterChain(site, chain, ord, d).result.errors == []
    ensures AfterChain(site, chain, ord, d).result.filesWritten == FileCount(chain)
    ensures Exact(site, chain, d, AfterChain(site, chain, ord, d).disk)
       <==> RemovedButNotAliased(site, Obsolete(chain), LatestFiles(chain))
  {
    ErrorFreeManifests(site, chain, ord, d);
    AllPathsOfLast(chain);
    assert AllPaths(chain) == Obsolete(chain) + LatestFiles(chain).Keys;
    var g, e := AfterManifests(site, chain, ord, d).disk, AfterChain(site, chain, ord, d).disk;
    if RemovedButNotAliased(site, Obsolete(chain), LatestFiles(chain)) {
      RemovalIsExact(site, d, g, e, Obsolete(chain), LatestFiles(chain));
    }
    if Exact(site, chain, d, e) {
      forall q | q in Obsolete(chain) {
        ExactSoRemoved(site, d, g, e, Obsolete(chain), LatestFiles(chain), q);
      }
    }
  }

  ghost predicate RemovedButNotAliased(site: Site, obsolete: set<Text>, latest: map<Text, Entry>) {
    forall q :: q in obsolete ==>
      var full := FullPath(site.target, q);
      (Inside(site.target, full) <==> full !in FullPaths(site.target, latest.Keys))
  }

  lemma RemovableIs(site: Site, obsolete: set<Text>, g: Disk, a: Abs)
    requires forall q :: q in obsolete ==> FullPath(site.target, q) !in g.denied
    ensures a in Removable(site, obsolete, g) <==> a in FullPaths(site.target, obsolete) && Inside(site.target, a)
  {
  }

  lemma RemovedExactly(site: Site, g: Disk, obsolete: set<Text>, latest: map<Text, Entry>)
    requires forall q :: q in obsolete ==> FullPath(site.target, q) !in g.denied
    requires RemovedButNotAliased(site, obsolete, latest)
    ensures Removable(site, obsolete, g) == FullPaths(site.target, obsolete) - FullPaths(site.target, latest.Keys)
  {
  }

  lemma RemovalFromMap(g: map<Abs, Blob>, d: map<Abs, Blob>, o: set<Abs>, n: set<Abs>)
    requires g.Keys == d.Keys + (o + n)
    ensures (g - (o - n)).Keys == (d.Keys - (o + n)) + n
  {
  }

  lemma RemovalIsExact(site: Site, d: Disk, g: Disk, e: Disk, obsolete: set<Text>, latest: map<Text, Entry>)
    requires Overlay(site, d, g, obsolete + latest.Keys, latest)
    requires e == g.(files := g.files - Removable(site, obsolete, g))
    requires RemovedButNotAliased(site, obsolete, latest)
    ensures ExactFiles(site, d, e, obsolete + latest.Keys, latest)
  {
    FullPathsUnion(site.target, obsolete, latest.Keys);
    RemovedExactly(site, g, obsolete, latest);
    RemovalFromMap(g.files, d.files, FullPaths(site.target, obsolete), FullPaths(site.target, latest.Keys));
    forall p | p in latest
      ensures FullPath(site.target, p) in e.files && Content(site, latest[p]) == Some(e.files[FullPath(site.target, p)])
    {
      assert FullPath(site.target, p) in FullPaths(site.target, latest.Keys);
    }
  }

  lemma ExactSoRemoved(site: Site, d: Disk, g: Disk, e: Disk, obsolete: set<Text>, latest: map<Text, Entry>, q: Text)
    requires Overlay(site, d, g, obsolete + latest.Keys, latest)
    requires e == g.(files := g.files - Removable(site, obsolete, g))
    requires ExactFiles(site, d, e, obsolete + latest.Keys, latest) && q in obsolete
    ensures Inside(site.target, FullPath(site.target, q))
       <==> FullPath(site.target, q) !in FullPaths(site.target, latest.Keys)
  {
    FullPathsUnion(site.target, obsolete, latest.Keys);
    var a := FullPath(site.target, q);
    RemovableIs(site, obsolete, g, a);
    assert a in FullPaths(site.target, obsolete);
    assert a in g.files;
  }

  /** The case the scheduler produces: canonical paths never alias. */
  lemma CanonicalChainIsExact(site: Site, chain: seq<Manifest>, ord: KeyOrder, d: Disk)
    requires chain != [] && AllListed(chain, ord) && site.target != []
    requires forall p :: p in AllPaths(chain) ==> Canonical(p)
    requires AfterChain(site, chain, ord, d).result.errors == []
    ensures AfterChain(site, chain, ord, d).result.filesWritten == FileCount(chain)
    ensures Exact(site, chain, d, AfterChain(site, chain, ord, d).disk)
  {
    forall m, a, b | m in chain && a in m.files && b in m.files && FullPath(site.target, a) == FullPath(site.target, b)
      ensures a == b
    {
      assert a in AllPaths(chain) && b in AllPaths(chain);
      CanonicalPathsDoNotAlias(site.target, a, b);
    }
    forall q | q in Obsolete(chain)
      ensures Inside(site.target, FullPath(site.target, q))
      ensures FullPath(site.target, q) !in FullPaths(site.target, LatestFiles(chain).Keys)
    {
      forall p | p in chain[|chain| - 1].files ensures FullPath(site.target, p) != FullPath(site.target, q) {
        assert p in AllPaths(chain);
        CanonicalPathsDoNotAlias(site.target, p, q);
      }
      CanonicalPathsDoNotAlias(site.target, q, q);
    }
    ApplyChainClosedForm(site, chain, ord, d);
  }

  // ----- When a restore meets no error -----

  ghost predicate FreshTarget(target: Abs, d: Disk) {
    && target != []
    && Tree(d)
    && (forall k :: 0 <= k <= |target| ==> target[..k] !in d.files)
    && (forall a :: ProperPrefix(target, a) ==> a !in d.files && a !in d.dirs && a !in d.denied)
  }

  /** No path of the set names a directory above another one. */
  ghost predicate PrefixFree(rels: set<Text>) {
    forall a, b :: a in rels && b in rels ==> !ProperPrefix(Split(a), Split(b))
  }

  ghost predicate Readable(site: Site, chain: seq<Manifest>) {
    forall m, p :: m in chain && p in m.files ==> Content(site, m.files[p]).Some?
  }

  /** `e` differs from `d` only by files at `rels` and directories above them. */
  ghost predicate GrownBy(site: Site, d: Disk, e: Disk, rels: set<Text>) {
    && Tree(e)
    && e.denied == d.denied
    && (forall a :: a in e.files ==> a in d.files || a in FullPaths(site.target, rels))
    && (forall a :: a in e.dirs ==> a in d.dirs || exists r :: r in rels && ProperPrefix(a, FullPath(site.target, r)))
  }

  lemma WriteKeepsGrownBy(site: Site, d: Disk, e: Disk, rels: set<Text>, r: Text, content: Blob)
    requires GrownBy(site, d, e, rels) && r in rels
    ensures GrownBy(site, d, AfterWrite(e, FullPath(site.target, r), content), rels)
  {
    var full := FullPath(site.target, r);
    AfterWriteKeepsTree(e, full, content);
    forall a | a in Ancestors(full) ensures ProperPrefix(a, full) {
    }
  }

  lemma NestedSegmentsNestPaths(t: Abs, a: Text, b: Text)
    requires Canonical(a) && Canonical(b)
    ensures ProperPrefix(Split(a), Split(b)) <==> ProperPrefix(FullPath(t, a), FullPath(t, b))
    ensures ProperPrefix(t, FullPath(t, a))
  {
    ResolveOrdinary(t, Split(a));
    ResolveOrdinary(t, Split(b));
    var p, q := Split(a), Split(b);
    if |p| < |q| {
      assert (t + q)[..|t + p|] == t + q[..|p|];
      assert (t + p)[|t|..] == p && (t + q[..|p|])[|t|..] == q[..|p|];
    }
  }

  lemma CanWriteInto(site: Site, d: Disk, e: Disk, rels: set<Text>, r: Text)
    requires FreshTarget(site.target, d) && GrownBy(site, d, e, rels)
    requires (forall p :: p in rels ==> Canonical(p)) && PrefixFree(rels) && r in rels
    ensures Allowed(site.target, FullPath(site.target, r)) && CanWrite(e, FullPath(site.target, r))
  {
    var t := site.target;
    var full := FullPath(t, r);
    NestedSegmentsNestPaths(t, r, r);
    forall q | q in rels
      ensures !ProperPrefix(FullPath(t, q), full) && !ProperPrefix(full, FullPath(t, q)) && |FullPath(t, q)| > |t|
    {
      NestedSegmentsNestPaths(t, q, r);
      NestedSegmentsNestPaths(t, r, q);
    }
    forall k | 0 <= k < |full| ensures full[..k] !in e.files {
      assert ProperPrefix(full[..k], full);
      if k <= |t| {
        assert full[..k] == t[..k];
      } else {
        assert full[..k][..|t|] == full[..|t|];
      }
    }
  }

  lemma {:induction false} PrefixFreeFiles(site: Site, keys: seq<Text>, files: map<Text, Entry>, d: Disk, e: Disk,
                                           rels: set<Text>)
    requires forall p :: p in keys ==> p in files && p in rels && Content(site, files[p]).Some?
    requires FreshTarget(site.target, d) && GrownBy(site, d, e, rels)
    requires (forall p :: p in rels ==> Canonical(p)) && PrefixFree(rels)
    ensures AfterFiles(site, keys, files, e).result.errors == []
    ensures GrownBy(site, d, AfterFiles(site, keys, files, e).disk, rels)
  {
    if keys != [] {
      var last := keys[|keys| - 1];
      var init := AfterFiles(site, keys[..|keys| - 1], files, e);
      PrefixFreeFiles(site, keys[..|keys| - 1], files, d, e, rels);
      CanWriteInto(site, d, init.disk, rels, last);
      WriteKeepsGrownBy(site, d, init.disk, rels, last, Content(site, files[last]).value);
    }
  }

  lemma {:induction false} PrefixFreeManifests(site: Site, chain: seq<Manifest>, ord: KeyOrder, d: Disk,
                                               rels: set<Text>)
    requires AllListed(chain, ord) && Readable(site, chain) && AllPaths(chain) <= rels
    requires FreshTarget(site.target, d)
    requires (forall p :: p in rels ==> Canonical(p)) && PrefixFree(rels)
    ensures AfterManifests(site, chain, ord, d).result.errors == []
    ensures GrownBy(site, d, AfterManifests(site, chain, ord, d).disk, rels)
  {
    if chain != [] {
      var m := chain[|chain| - 1];
      var init := chain[..|chain| - 1];
      assert AllPaths(chain) == AllPaths(init) + m.files.Keys;
      PrefixFreeManifests(site, init, ord, d, rels);
      assert Listed(m, ord);
      PrefixFreeFiles(site, ord(m), m.files, d, AfterManifests(site, init, ord, d).disk, rels);
    }
  }

  lemma {:induction false} FilesKeepTree(site: Site, keys: seq<Text>, files: map<Text, Entry>, d: Disk)
    requires Tree(d) && forall p :: p in keys ==> p in files
    ensures Tree(AfterFiles(site, keys, files, d).disk)
  {
    if keys != [] {
      var last := keys[|keys| - 1];
      FilesKeepTree(site, keys[..|keys| - 1], files, d);
      var content := Content(site, files[last]);
      if content.Some? {
        AfterWriteKeepsTree(AfterFiles(site, keys[..|keys| - 1], files, d).disk, FullPath(site.target, last),
                            content.value);
      }
    }
  }

  lemma {:induction false} ManifestsKeepTree(site: Site, chain: seq<Manifest>, ord: KeyOrder, d: Disk)
    requires Tree(d) && AllListed(chain, ord)
    ensures Tree(AfterManifests(site, chain, ord, d).disk)
  {
    if chain != [] {
      var m := chain[|chain| - 1];
      ManifestsKeepTree(site, chain[..|chain| - 1], ord, d);
      assert Listed(m, ord);
      FilesKeepTree(site, ord(m), m.files, AfterManifests(site, chain[..|chain| - 1], ord, d).disk);
    }
  }

  /** Into a fresh target, with every content readable, a chain applies without error if
      and only if no path of the chain is a directory above another path of the chain. */
  lemma ErrorFreeIffPrefixFree(site: Site, chain: seq<Manifest>, ord: KeyOrder, d: Disk)
    requires chain != [] && AllListed(chain, ord) && Readable(site, chain)
    requires FreshTarget(site.target, d)
    requires forall p :: p in AllPaths(chain) ==> Canonical(p)
    ensures AfterChain(site, chain, ord, d).result.errors == [] <==> PrefixFree(AllPaths(chain))
  {
    if PrefixFree(AllPaths(chain)) {
      PrefixFreeManifests(site, chain, ord, d, AllPaths(chain));
    } else if AfterChain(site, chain, ord, d).result.errors == [] {
      ErrorFreePathsAreNotNested(site, chain, ord, d);
    }
  }

  lemma ErrorFreePathsAreNotNested(site: Site, chain: seq<Manifest>, ord: KeyOrder, d: Disk)
    requires chain != [] && AllListed(chain, ord) && Tree(d)
    requires forall p :: p in AllPaths(chain) ==> Canonical(p)
    requires AfterManifests(site, chain, ord, d).result.errors == []
    ensures PrefixFree(AllPaths(chain))
  {
    var t := site.target;
    var e := AfterManifests(site, chain, ord, d).disk;
    forall m, a, b | m in chain && a in m.files && b in m.files && FullPath(t, a) == FullPath(t, b) ensures a == b {
      assert a in AllPaths(chain) && b in AllPaths(chain);
      CanonicalPathsDoNotAlias(t, a, b);
    }
    ErrorFreeManifests(site, chain, ord, d);
    ManifestsKeepTree(site, chain, ord, d);
    forall a, b | a in AllPaths(chain) && b in AllPaths(chain) ensures !ProperPrefix(Split(a), Split(b)) {
      NestedSegmentsNestPaths(t, a, b);
      assert FullPath(t, a) in FullPaths(t, AllPaths(chain)) && FullPath(t, b) in FullPaths(t, AllPaths(chain));
      FilesAreNotNested(e, FullPath(t, a), FullPath(t, b));
    }
  }
}
