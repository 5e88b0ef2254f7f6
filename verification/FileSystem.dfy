// Paths and the part of a POSIX file system that a restore touches.

module Paths {
  import opened SoulTypes

  /** An absolute path as its list of segments; the root directory is []. */
  type Abs = seq<string>

  function Split(s: string): (r: seq<string>)
    ensures |r| > 0
  {
    if s == "" then [""]
    else
      var rest := Split(s[1..]);
      if s[0] == '/' then [""] + rest else [[s[0]] + rest[0]] + rest[1..]
  }

  function Join(segments: seq<string>): string
    requires |segments| > 0
  {
    if |segments| == 1 then segments[0] else segments[0] + "/" + Join(segments[1..])
  }

  lemma {:induction false} JoinSplit(s: string)
    ensures Join(Split(s)) == s
  {
    if s != "" {
      JoinSplit(s[1..]);
      var rest := Split(s[1..]);
      if s[0] == '/' {
        assert Split(s)[1..] == rest;
        assert s == "" + "/" + s[1..];
      } else {
        assert Split(s)[1..] == rest[1..];
        assert s == [s[0]] + s[1..];
        if |rest| > 1 {
          assert [s[0]] + rest[0] + "/" + Join(rest[1..]) == [s[0]] + (rest[0] + "/" + Join(rest[1..]));
        }
      }
    }
  }

  /** path.resolve applied segment by segment: "" and "." stay, ".." goes up and stops at the root. */
  function Resolve(dir: Abs, segments: seq<string>): Abs
    decreases |segments|
  {
    if segments == [] then dir
    else if segments[0] == "" || segments[0] == "." then Resolve(dir, segments[1..])
    else if segments[0] == ".." then Resolve(if dir == [] then [] else dir[..|dir| - 1], segments[1..])
    else Resolve(dir + [segments[0]], segments[1..])
  }

  /** resolve(join(targetDir, relPath)) */
  function FullPath(target: Abs, rel: Text): Abs {
    Resolve(target, Split(rel))
  }

  /** What `relative(baseDir, fullPath)` yields for a file found by the directory walk. */
  predicate Canonical(rel: Text) {
    forall seg :: seg in Split(rel) ==> seg !in {"", ".", ".."}
  }

  lemma {:induction false} ResolveOrdinary(dir: Abs, segments: seq<string>)
    requires forall seg :: seg in segments ==> seg !in {"", ".", ".."}
    ensures Resolve(dir, segments) == dir + segments
    decreases |segments|
  {
    if segments != [] {
      assert segments[0] in segments;
      assert forall seg :: seg in segments[1..] ==> seg in segments;
      ResolveOrdinary(dir + [segments[0]], segments[1..]);
      assert dir + [segments[0]] + segments[1..] == dir + segments;
    }
  }

  /** Two canonical relative paths never land on the same file. */
  lemma CanonicalPathsDoNotAlias(target: Abs, a: Text, b: Text)
    requires Canonical(a) && Canonical(b)
    ensures FullPath(target, a) == FullPath(target, b) <==> a == b
    ensures Inside(target, FullPath(target, a)) <==> target != []
  {
    ResolveOrdinary(target, Split(a));
    ResolveOrdinary(target, Split(b));
    if target + Split(a) == target + Split(b) {
      assert Split(a) == (target + Split(a))[|target|..];
      assert Split(b) == (target + Split(b))[|target|..];
      JoinSplit(a);
      JoinSplit(b);
    }
  }

  predicate ProperPrefix(p: Abs, q: Abs) {
    |p| < |q| && q[..|p|] == p
  }

  /** fullPath.startsWith(resolvedTarget + "/").  The root directory prints as "/", so
      the test asks for "//" there and never succeeds. */
  predicate Inside(target: Abs, p: Abs) {
    target != [] && ProperPrefix(target, p)
  }

  /** The traversal guard of the downloader. */
  predicate Allowed(target: Abs, p: Abs) {
    Inside(target, p) || p == target
  }

  /** A path that goes up out of the target is refused, unless it comes straight back to it. */
  lemma GoingUpIsRefused(target: Abs, rel: Text, name: string)
    requires target != [] && Split(rel) == ["..", name] && name !in {"", ".", ".."}
    ensures FullPath(target, rel) == target[..|target| - 1] + [name]
    ensures Allowed(target, FullPath(target, rel)) <==> name == target[|target| - 1]
  {
    var up := target[..|target| - 1];
    assert ["..", name][1..] == [name];
    ResolveOrdinary(up, [name]);
    assert target == up + [target[|target| - 1]];
    if up + [name] == target {
      assert (up + [name])[|up|] == name;
    }
  }

  ghost function FullPaths(target: Abs, rels: set<Text>): set<Abs> {
    set r | r in rels :: FullPath(target, r)
  }
}

module FileSystem {
  import opened SoulTypes
  import opened Paths

  /** `denied` are the places where the operating system refuses to write. */
  datatype Disk = Disk(files: map<Abs, Blob>, dirs: set<Abs>, denied: set<Abs>)

  ghost function Ancestors(p: Abs): set<Abs> {
    set k | 0 <= k < |p| :: p[..k]
  }

  /** A directory tree: whatever exists has directories above it, and nothing is both. */
  ghost predicate Tree(d: Disk) {
    && d.files.Keys !! d.dirs
    && (forall p, k :: (p in d.files || p in d.dirs) && 0 <= k < |p| ==> p[..k] in d.dirs)
  }

  predicate CanMakeParents(d: Disk, p: Abs) {
    forall k :: 0 <= k < |p| ==> p[..k] !in d.files
  }

  ghost function MakeParents(d: Disk, p: Abs): Disk {
    d.(dirs := d.dirs + Ancestors(p))
  }

  ghost predicate CanWrite(d: Disk, p: Abs) {
    p != [] && CanMakeParents(d, p) && p !in d.dirs && p !in d.denied
  }

  /** mkdir(dirname(p), recursive) followed by writeFile(p): the disk after the attempt. */
  ghost function AfterWrite(d: Disk, p: Abs, content: Blob): Disk {
    if !CanMakeParents(d, p) then d
    else if !CanWrite(d, p) then MakeParents(d, p)
    else MakeParents(d, p).(files := d.files[p := content])
  }

  /** writeFile(p) alone: its directory must be there. */
  ghost predicate CanWriteAlone(d: Disk, p: Abs) {
    p != [] && p[..|p| - 1] in d.dirs && CanWrite(d, p)
  }

  ghost function AfterWriteAlone(d: Disk, p: Abs, content: Blob): Disk {
    if CanWriteAlone(d, p) then d.(files := d.files[p := content]) else d
  }

  lemma AfterWriteKeepsTree(d: Disk, p: Abs, content: Blob)
    requires Tree(d)
    ensures Tree(AfterWrite(d, p, content))
  {
    var e := AfterWrite(d, p, content);
    forall q, k | (q in e.files || q in e.dirs) && 0 <= k < |q| ensures q[..k] in e.dirs {
      if q !in d.files && q !in d.dirs && q in Ancestors(p) {
        assert q[..k] == p[..k];
      }
    }
  }

  /** On a tree, no file lies below another file. */
  lemma FilesAreNotNested(d: Disk, p: Abs, q: Abs)
    requires Tree(d) && p in d.files && q in d.files
    ensures !ProperPrefix(p, q)
  {
  }

  class FileStore {
    var files: map<Abs, Blob>
    var dirs: set<Abs>
    const denied: set<Abs>

    ghost function View(): Disk
      reads this
    {
      Disk(files, dirs, denied)
    }

    constructor (files: map<Abs, Blob>, dirs: set<Abs>, denied: set<Abs>)
      ensures View() == Disk(files, dirs, denied)
    {
      this.files, this.dirs, this.denied := files, dirs, denied;
    }

    method WriteFile(p: Abs, content: Blob) returns (written: bool)
      modifies this
      ensures written == old(CanWrite(View(), p))
      ensures View() == old(AfterWrite(View(), p, content))
    {
      if exists k :: 0 <= k < |p| && p[..k] in files {
        return false;
      }
      dirs := dirs + set k | 0 <= k < |p| :: p[..k];
      // A path is never its own proper ancestor, so creating the parents does not matter here.
      assert p !in Ancestors(p);
      if p == [] || p in dirs || p in denied {
        return false;
      }
      files := files[p := content];
      return true;
    }

    method WriteAlone(p: Abs, content: Blob) returns (written: bool)
      modifies this
      ensures written == old(CanWriteAlone(View(), p))
      ensures View() == old(AfterWriteAlone(View(), p, content))
    {
      if p == [] || p[..|p| - 1] !in dirs || p in dirs || p in denied || exists k :: 0 <= k < |p| && p[..k] in files {
        return false;
      }
      files := files[p := content];
      return true;
    }

    method Unlink(p: Abs)
      modifies this
      ensures View() == old(View()).(files := if p in denied then old(files) else old(files) - {p})
    {
      if p !in denied {
        files := files - {p};
      }
    }
  }
}
