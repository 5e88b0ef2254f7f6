// Merkle commitment to the file entries of a manifest, and which leaf lists share a root.

module Merkle {
  import opened SoulTypes
  import opened Ordering

  // ----- buildMerkleRoot -----

  function NextLevel(level: seq<Digest>): (next: seq<Digest>)
    ensures |next| == (|level| + 1) / 2
  {
    if |level| == 0 then []
    else if |level| == 1 then [PairHash(level[0], level[0])]
    else [PairHash(level[0], level[1])] + NextLevel(level[2..])
  }

  function Root(level: seq<Digest>): Digest
    decreases |level|
  {
    if |level| == 0 then Zero
    else if |level| == 1 then level[0]
    else Root(NextLevel(level))
  }

  lemma {:induction false} NextLevelAt(level: seq<Digest>, k: nat)
    requires 2 * k < |level|
    ensures k < |NextLevel(level)|
    ensures NextLevel(level)[k]
         == PairHash(level[2 * k], if 2 * k + 1 < |level| then level[2 * k + 1] else level[2 * k])
  {
    if k > 0 {
      NextLevelAt(level[2..], k - 1);
    }
  }

  /** The inner loop: one level up. */
  method BuildNextLevel(level: seq<Digest>) returns (next: seq<Digest>)
    ensures next == NextLevel(level)
  {
    next := [];
    var i := 0;
    while i < |level|
      invariant i % 2 == 0 && 0 <= i <= |level| + 1
      invariant |next| == i / 2 <= |NextLevel(level)|
      invariant next == NextLevel(level)[..|next|]
    {
      var left := level[i];
      var right := if i + 1 < |level| then level[i + 1] else left;
      NextLevelAt(level, i / 2);
      next := next + [PairHash(left, right)];
      i := i + 2;
    }
  }

  method BuildMerkleRoot(leaves: seq<Digest>) returns (root: Digest)
    ensures root == Root(leaves)
  {
    if |leaves| == 0 {
      return Zero;
    }
    var level := leaves;
    while |level| > 1
      invariant |level| > 0
      invariant Root(level) == Root(leaves)
      decreases |level|
    {
      level := BuildNextLevel(level);
    }
    return level[0];
  }

  // ----- What a root commits to -----

  /** Number of pair hashes above the leaves of a digest. */
  function Height(d: Digest): nat {
    if d.PairHash? then 1 + Height(d.left) else 0
  }

  ghost predicate AtHeight(level: seq<Digest>, h: nat) {
    forall d :: d in level ==> (d.LeafHash? || d.PairHash?) && Height(d) == h
  }

  lemma NextLevelHeight(level: seq<Digest>, h: nat)
    requires AtHeight(level, h)
    ensures AtHeight(NextLevel(level), h + 1)
  {
  }

  /** The root sits above the leaves by at least one pair per halving. */
  lemma {:induction false} RootHeight(level: seq<Digest>, h: nat)
    requires AtHeight(level, h)
    ensures |level| == 0 ==> Root(level) == Zero
    ensures |level| > 0 ==> !Root(level).Zero?
    ensures |level| == 1 ==> Height(Root(level)) == h
    ensures |level| > 1 ==> Height(Root(level)) > h
    decreases |level|
  {
    if |level| > 1 {
      NextLevelHeight(level, h);
      RootHeight(NextLevel(level), h + 1);
    } else if |level| == 1 {
      assert level[0] in level;
    }
  }

  /** Two levels pair up alike exactly when they are equal, or one of them is the
      other, of odd length, with its last node written twice. */
  ghost predicate SameUpToLastNode(a: seq<Digest>, b: seq<Digest>) {
    || a == b
    || (|a| % 2 == 1 && b == a + [a[|a| - 1]])
    || (|b| % 2 == 1 && a == b + [b[|b| - 1]])
  }

  lemma {:induction false} NextLevelCollidesExactly(a: seq<Digest>, b: seq<Digest>)
    ensures NextLevel(a) == NextLevel(b) <==> SameUpToLastNode(a, b)
  {
    if NextLevel(a) == NextLevel(b) {
      LevelDeterminedUpToLastNode(a, b);
    } else if SameUpToLastNode(a, b) && a != b {
      var odd, even := if |a| % 2 == 1 then a else b, if |a| % 2 == 1 then b else a;
      RepeatedLastNodePairsAlike(odd, even);
    }
  }

  lemma RepeatedLastNodePairsAlike(odd: seq<Digest>, even: seq<Digest>)
    requires |odd| % 2 == 1 && even == odd + [odd[|odd| - 1]]
    ensures NextLevel(odd) == NextLevel(even)
  {
  }

  lemma LevelDeterminedUpToLastNode(a: seq<Digest>, b: seq<Digest>)
    requires NextLevel(a) == NextLevel(b)
    ensures SameUpToLastNode(a, b)
  {
    assert |NextLevel(a)| == |NextLevel(b)|;
    if |a| <= |b| {
      LongerLevelRepeats(a, b);
    } else {
      LongerLevelRepeats(b, a);
    }
  }

  lemma {:induction false} LongerLevelRepeats(short: seq<Digest>, long: seq<Digest>)
    requires NextLevel(short) == NextLevel(long) && |short| <= |long|
    ensures long == short || (|short| % 2 == 1 && long == short + [short[|short| - 1]])
  {
    assert |NextLevel(short)| == |NextLevel(long)|;
    if |short| > 1 {
      assert NextLevel(short)[0] == NextLevel(long)[0];
      assert NextLevel(short)[1..] == NextLevel(short[2..]) && NextLevel(long)[1..] == NextLevel(long[2..]);
      LongerLevelRepeats(short[2..], long[2..]);
      assert short == short[..2] + short[2..] && long == short[..2] + long[2..];
    } else if |short| == 1 {
      assert NextLevel(short)[0] == NextLevel(long)[0];
      assert |long| == 2 ==> long == [long[0]] + [long[1]];
    }
  }

  lemma NextLevelKeepsDistinct(level: seq<Digest>)
    requires Distinct(level)
    ensures Distinct(NextLevel(level))
  {
    var next := NextLevel(level);
    forall i, j | 0 <= i < j < |next| ensures next[i] != next[j] {
      NextLevelAt(level, i);
      NextLevelAt(level, j);
    }
  }

  lemma RepetitionIsNotDistinct(a: seq<Digest>)
    requires a != []
    ensures !Distinct(a + [a[|a| - 1]])
  {
    var r := a + [a[|a| - 1]];
    assert r[|a| - 1] == r[|a|];
  }

  /** Binding of the root: over leaves of the tree, equal roots mean equal leaf lists
      as soon as the lists have equal length, or each is free of repetitions. */
  lemma {:induction false} RootBindsLeaves(a: seq<Digest>, b: seq<Digest>, h: nat)
    requires AtHeight(a, h) && AtHeight(b, h)
    requires |a| == |b| || (Distinct(a) && Distinct(b))
    requires Root(a) == Root(b)
    ensures a == b
    decreases |a| + |b|
  {
    RootHeight(a, h);
    RootHeight(b, h);
    if |a| > 1 && |b| > 1 {
      NextLevelHeight(a, h);
      NextLevelHeight(b, h);
      if |a| != |b| {
        NextLevelKeepsDistinct(a);
        NextLevelKeepsDistinct(b);
      }
      RootBindsLeaves(NextLevel(a), NextLevel(b), h + 1);
      LevelDeterminedUpToLastNode(a, b);
      RepetitionIsNotDistinct(a);
      RepetitionIsNotDistinct(b);
    }
  }

  /** Without those conditions binding fails: every list of odd length above one has
      the root of the same list with its last leaf repeated. */
  lemma OddLevelCollision(a: seq<Digest>)
    requires |a| % 2 == 1 && |a| > 1
    ensures Root(a) == Root(a + [a[|a| - 1]])
  {
    NextLevelCollidesExactly(a, a + [a[|a| - 1]]);
  }

  // ----- Leaf encoding -----

  function LittleEndian32(n: nat): (r: seq<Atom>)
    requires n < 0x1_0000_0000
    ensures |r| == 4
  {
    var n1 := n / 0x100;
    var n2 := n1 / 0x100;
    [Byte(n % 0x100), Byte(n1 % 0x100), Byte(n2 % 0x100), Byte(n2 / 0x100)]
  }

  /** The least significant byte comes first. */
  lemma LittleEndian32Digits(n: nat)
    requires n < 0x1_0000_0000
    ensures var r := LittleEndian32(n);
            && (forall i :: 0 <= i < 4 ==> r[i].Byte? && r[i].b < 0x100)
            && n == r[0].b + 0x100 * r[1].b + 0x1_0000 * r[2].b + 0x100_0000 * r[3].b
  {
  }

  lemma LittleEndian32Injective(m: nat, n: nat)
    requires m < 0x1_0000_0000 && n < 0x1_0000_0000
    requires LittleEndian32(m) == LittleEndian32(n)
    ensures m == n
  {
  }

  function Utf8(t: string): (r: seq<Atom>)
    ensures |r| == |t|
  {
    seq(|t|, i requires 0 <= i < |t| => Byte(t[i] as nat))
  }

  lemma Utf8Injective(s: string, t: string)
    requires Utf8(s) == Utf8(t)
    ensures s == t
  {
    assert |s| == |t|;
    forall i | 0 <= i < |s| ensures s[i] == t[i] {
      assert Utf8(s)[i] == Byte(s[i] as nat) && Utf8(t)[i] == Byte(t[i] as nat);
    }
  }

  function LengthPrefixed(t: Text): seq<Atom> {
    LittleEndian32(|t|) + Utf8(t)
  }

  /** The same for a hash field: a digest is 64 hex digits (66 with the 0x prefix). */
  function LengthPrefixedHash(d: Digest): seq<Atom> {
    match d
    case NotADigest(t) => LengthPrefixed(t)
    case Sha256(_) => LittleEndian32(64) + [HexDigits(d)]
    case _ => LittleEndian32(66) + [HexDigits(d)]
  }

  /** How many bytes of the buffer the atoms stand for. */
  function Width(atoms: seq<Atom>): nat {
    if atoms == [] then 0
    else (match atoms[0] case Byte(_) => 1 case HexDigits(d) => if d.Sha256? then 64 else 66) + Width(atoms[1..])
  }

  lemma {:induction false} WidthOfBytes(atoms: seq<Atom>)
    requires forall a :: a in atoms ==> a.Byte?
    ensures Width(atoms) == |atoms|
  {
    if atoms != [] {
      WidthOfBytes(atoms[1..]);
    }
  }

  /** A hash field too begins with the number of bytes that follow. */
  lemma PrefixIsWidth(d: Digest)
    ensures var field := LengthPrefixedHash(d);
            |field| >= 4 && Width(field[4..]) < 0x1_0000_0000 && field[..4] == LittleEndian32(Width(field[4..]))
  {
    if d.NotADigest? {
      WidthOfBytes(Utf8(d.text));
      assert LengthPrefixedHash(d)[4..] == Utf8(d.text);
    } else {
      assert LengthPrefixedHash(d)[4..] == [HexDigits(d)] && [HexDigits(d)][1..] == [];
    }
  }

  /** A length-prefixed field can be read back whatever follows it. */
  lemma LengthPrefixedParses(a: Text, x: seq<Atom>, b: Text, y: seq<Atom>)
    requires LengthPrefixed(a) + x == LengthPrefixed(b) + y
    ensures a == b && x == y
  {
    var s, t := LengthPrefixed(a) + x, LengthPrefixed(b) + y;
    assert s[..4] == LittleEndian32(|a|) && t[..4] == LittleEndian32(|b|);
    LittleEndian32Injective(|a|, |b|);
    assert s[4..4 + |a|] == Utf8(a) && t[4..4 + |b|] == Utf8(b);
    Utf8Injective(a, b);
    assert x == s[4 + |a|..] && y == t[4 + |b|..];
  }

  lemma LengthPrefixedHashParses(d: Digest, e: Digest)
    requires LengthPrefixedHash(d) == LengthPrefixedHash(e)
    ensures d == e
  {
    HashFieldShape(d);
    HashFieldShape(e);
    var s, t := LengthPrefixedHash(d), LengthPrefixedHash(e);
    if d.NotADigest? && e.NotADigest? {
      assert LengthPrefixed(d.text) + [] == LengthPrefixed(e.text) + [];
      LengthPrefixedParses(d.text, [], e.text, []);
    } else {
      assert |s| == 5 && s[4] == t[4];
    }
  }

  lemma HashFieldShape(d: Digest)
    ensures d.NotADigest? ==> forall i :: 0 <= i < |LengthPrefixedHash(d)| ==> LengthPrefixedHash(d)[i].Byte?
    ensures !d.NotADigest? ==> |LengthPrefixedHash(d)| == 5 && LengthPrefixedHash(d)[4] == HexDigits(d)
  {
  }

  function LeafOf(path: Text, e: Entry): Digest {
    LeafHash(LengthPrefixed(path) + LengthPrefixed(e.cid) + LengthPrefixedHash(e.hash))
  }

  /** A leaf determines the path, the CID and the content hash it was built from. */
  lemma LeafIsUnambiguous(p: Text, e: Entry, q: Text, f: Entry)
    requires LeafOf(p, e) == LeafOf(q, f)
    ensures p == q && e.cid == f.cid && e.hash == f.hash
  {
    var x, y := LengthPrefixedHash(e.hash), LengthPrefixedHash(f.hash);
    assert LengthPrefixed(p) + (LengthPrefixed(e.cid) + x) == LengthPrefixed(p) + LengthPrefixed(e.cid) + x;
    assert LengthPrefixed(q) + (LengthPrefixed(f.cid) + y) == LengthPrefixed(q) + LengthPrefixed(f.cid) + y;
    LengthPrefixedParses(p, LengthPrefixed(e.cid) + x, q, LengthPrefixed(f.cid) + y);
    LengthPrefixedParses(e.cid, x, f.cid, y);
    LengthPrefixedHashParses(e.hash, f.hash);
  }

  // ----- computeDataMerkleRoot -----

  function Leaves(keys: seq<Text>, files: map<Text, Entry>): (r: seq<Digest>)
    requires forall p :: p in keys ==> p in files
    ensures |r| == |keys|
  {
    seq(|keys|, i requires 0 <= i < |keys| => LeafOf(keys[i], files[keys[i]]))
  }

  /** The ascending listing of the paths. */
  ghost function SortedPaths(files: map<Text, Entry>): (keys: seq<Text>)
    ensures Ascending(keys)
    ensures forall p :: p in keys <==> p in files
  {
    SortedPathsExist(files);
    var keys :| Ascending(keys) && forall p :: p in keys <==> p in files;
    keys
  }

  lemma SortedPathsExist(files: map<Text, Entry>)
    ensures exists keys: seq<Text> :: Ascending(keys) && forall p :: p in keys <==> p in files
  {
    var s := EnumerationExists(files.Keys);
    SortAscends(s);
    assert forall p :: p in Sort(s) <==> p in files;
  }

  ghost function DataMerkleRoot(files: map<Text, Entry>): Digest {
    Root(Leaves(SortedPaths(files), files))
  }

  /** `keys` is Object.keys(entries), in whatever order the object was filled. */
  method ComputeDataMerkleRoot(keys: seq<Text>, files: map<Text, Entry>) returns (root: Digest)
    requires Enumerates(keys, files.Keys)
    ensures root == DataMerkleRoot(files)
  {
    var sortedPaths := Sort(keys);
    SortAscends(keys);
    AscendingIsUnique(sortedPaths, SortedPaths(files));
    root := BuildMerkleRoot(Leaves(sortedPaths, files));
  }

  ghost predicate SameContent(f: map<Text, Entry>, g: map<Text, Entry>) {
    && f.Keys == g.Keys
    && forall p :: p in f ==> f[p].cid == g[p].cid && f[p].hash == g[p].hash
  }

  lemma LeavesAreDistinct(keys: seq<Text>, files: map<Text, Entry>)
    requires Ascending(keys)
    requires forall p :: p in keys ==> p in files
    ensures AtHeight(Leaves(keys, files), 0) && Distinct(Leaves(keys, files))
  {
    var ls := Leaves(keys, files);
    forall i, j | 0 <= i < j < |ls| ensures ls[i] != ls[j] {
      BeforeIsTotal(keys[i], keys[j]);
      if ls[i] == ls[j] {
        LeafIsUnambiguous(keys[i], files[keys[i]], keys[j], files[keys[j]]);
      }
    }
  }

  lemma EqualLeavesSameContent(ks: seq<Text>, f: map<Text, Entry>, ls: seq<Text>, g: map<Text, Entry>)
    requires (forall p :: p in ks ==> p in f) && (forall p :: p in ls ==> p in g)
    requires Leaves(ks, f) == Leaves(ls, g)
    ensures ks == ls
    ensures forall p :: p in ks ==> f[p].cid == g[p].cid && f[p].hash == g[p].hash
  {
    assert |Leaves(ks, f)| == |Leaves(ls, g)|;
    forall i | 0 <= i < |ks|
      ensures ks[i] == ls[i] && f[ks[i]].cid == g[ls[i]].cid && f[ks[i]].hash == g[ls[i]].hash
    {
      assert Leaves(ks, f)[i] == Leaves(ls, g)[i];
      LeafIsUnambiguous(ks[i], f[ks[i]], ls[i], g[ls[i]]);
    }
  }

  lemma SameContentEqualLeaves(ks: seq<Text>, f: map<Text, Entry>, g: map<Text, Entry>)
    requires SameContent(f, g) && forall p :: p in ks ==> p in f
    ensures Leaves(ks, f) == Leaves(ks, g)
  {
  }

  /** Merkle binding: the data root commits to path -> (CID, hash) and to nothing else. */
  lemma DataMerkleRootBinds(f: map<Text, Entry>, g: map<Text, Entry>)
    ensures DataMerkleRoot(f) == DataMerkleRoot(g) <==> SameContent(f, g)
  {
    var ks, ls := SortedPaths(f), SortedPaths(g);
    if DataMerkleRoot(f) == DataMerkleRoot(g) {
      LeavesAreDistinct(ks, f);
      LeavesAreDistinct(ls, g);
      RootBindsLeaves(Leaves(ks, f), Leaves(ls, g), 0);
      EqualLeavesSameContent(ks, f, ls, g);
      assert forall p :: p in f <==> p in ks;
      assert forall p :: p in g <==> p in ks;
    } else if SameContent(f, g) {
      assert forall p :: p in f <==> p in g;
      AscendingIsUnique(ks, ls);
      SameContentEqualLeaves(ks, f, g);
    }
  }
}

module MerklePadding {
  import opened SoulTypes
  import opened Merkle

  lemma BlocksDouble(b: nat, n: nat)
    ensures n % 2 == 0 ==> n * b == n / 2 * (2 * b)
    ensures n % 2 == 1 ==> n * b + b == (n + 1) / 2 * (2 * b)
    ensures n >= 1 ==> n * b >= b
  {
    var k := n / 2;
    assert n == 2 * k || n == 2 * k + 1;
    assert 2 * k * b == k * (2 * b);
  }

  /** A list of n blocks of b leaves, filled up block by block: as long as there is more than
      one block, an odd number of them gets its last block once more, and then blocks pair up. */
  function Pad(a: seq<Digest>, b: nat, n: nat): seq<Digest>
    requires |a| == n * b
    decreases n
  {
    BlocksDouble(b, n);
    if n <= 1 then a
    else if n % 2 == 1 then Pad(a + a[|a| - b..], 2 * b, (n + 1) / 2)
    else Pad(a, 2 * b, n / 2)
  }

  function Padded(leaves: seq<Digest>): seq<Digest> {
    Pad(leaves, 1, |leaves|)
  }

  /** The leaves below a digest, from left to right. */
  function Expand(d: Digest): seq<Digest> {
    if d.PairHash? then Expand(d.left) + Expand(d.right) else [d]
  }

  predicate Perfect(d: Digest, h: nat) {
    if h == 0 then d.LeafHash? else d.PairHash? && Perfect(d.left, h - 1) && Perfect(d.right, h - 1)
  }

  ghost predicate AllPerfect(level: seq<Digest>, h: nat) {
    forall i :: 0 <= i < |level| ==> Perfect(level[i], h)
  }

  function Pow2(h: nat): nat {
    if h == 0 then 1 else 2 * Pow2(h - 1)
  }

  function Flat(level: seq<Digest>): seq<Digest> {
    if level == [] then [] else Expand(level[0]) + Flat(level[1..])
  }

  lemma {:induction false} ExpandedSize(d: Digest, h: nat)
    requires Perfect(d, h)
    ensures |Expand(d)| == Pow2(h) && Pow2(h) > 0
  {
    if h > 0 {
      ExpandedSize(d.left, h - 1);
      ExpandedSize(d.right, h - 1);
    }
  }

  lemma {:induction false} FlatSize(level: seq<Digest>, h: nat)
    requires AllPerfect(level, h)
    ensures |Flat(level)| == |level| * Pow2(h)
  {
    if level != [] {
      ExpandedSize(level[0], h);
      FlatSize(level[1..], h);
      assert |level| * Pow2(h) == Pow2(h) + (|level| - 1) * Pow2(h);
    }
  }

  /** The last block is what the last digest expands to. */
  lemma {:induction false} FlatEnds(level: seq<Digest>, h: nat)
    requires AllPerfect(level, h) && level != []
    ensures |Flat(level)| >= Pow2(h)
    ensures Flat(level)[|Flat(level)| - Pow2(h)..] == Expand(level[|level| - 1])
  {
    ExpandedSize(level[0], h);
    if |level| > 1 {
      FlatEnds(level[1..], h);
    } else {
      assert Flat(level) == Expand(level[0]) + [];
    }
  }

  lemma NextLevelPerfect(level: seq<Digest>, h: nat)
    requires AllPerfect(level, h)
    ensures AllPerfect(NextLevel(level), h + 1)
  {
    forall k | 0 <= k < |NextLevel(level)| ensures Perfect(NextLevel(level)[k], h + 1) {
      NextLevelAt(level, k);
    }
  }

  lemma Regroup(a: seq<Digest>, b: seq<Digest>, c: seq<Digest>)
    ensures a + (b + c) == a + b + c
  {
  }

  lemma FlatOfTwo(level: seq<Digest>)
    requires |level| >= 2
    ensures Flat(level) == Expand(level[0]) + Expand(level[1]) + Flat(level[2..])
  {
    var rest := level[1..];
    assert rest[0] == level[1] && rest[1..] == level[2..];
    Regroup(Expand(level[0]), Expand(level[1]), Flat(level[2..]));
  }

  lemma FirstPairFlat(level: seq<Digest>)
    requires |level| >= 2
    ensures Flat(NextLevel(level)) == Expand(level[0]) + Expand(level[1]) + Flat(NextLevel(level[2..]))
  {
    var next := NextLevel(level);
    assert next[0] == PairHash(level[0], level[1]) && next[1..] == NextLevel(level[2..]);
  }

  /** One level up, the leaves are the same, with the last block once more if it was odd. */
  lemma {:induction false} NextLevelFlat(level: seq<Digest>)
    ensures Flat(NextLevel(level))
         == Flat(level) + if |level| % 2 == 1 then Expand(level[|level| - 1]) else []
  {
    if |level| == 1 {
      var next := NextLevel(level);
      assert next[1..] == [] && level[1..] == [];
      assert Flat(next) == Expand(next[0]) + [] && Flat(level) == Expand(level[0]) + [];
    } else if |level| > 1 {
      FlatOfTwo(level);
      FirstPairFlat(level);
      NextLevelFlat(level[2..]);
      assert |level| > 2 ==> level[2..][|level| - 3] == level[|level| - 1];
    }
  }

  lemma OneLevelPads(level: seq<Digest>, h: nat)
    requires AllPerfect(level, h) && |level| > 1
    ensures |Flat(level)| == |level| * Pow2(h)
    ensures |Flat(NextLevel(level))| == |NextLevel(level)| * Pow2(h + 1)
    ensures Pad(Flat(level), Pow2(h), |level|) == Pad(Flat(NextLevel(level)), Pow2(h + 1), |NextLevel(level)|)
  {
    NextLevelPerfect(level, h);
    FlatSize(level, h);
    FlatSize(NextLevel(level), h + 1);
    NextLevelFlat(level);
    FlatEnds(level, h);
    assert Pow2(h + 1) == 2 * Pow2(h);
    assert Flat(level) + [] == Flat(level);
  }

  /** The root is a perfect tree over the padded leaves. */
  lemma {:induction false} RootExpands(level: seq<Digest>, h: nat) returns (top: nat)
    requires AllPerfect(level, h) && level != []
    ensures Perfect(Root(level), top)
    ensures |Flat(level)| == |level| * Pow2(h) && Expand(Root(level)) == Pad(Flat(level), Pow2(h), |level|)
    decreases |level|
  {
    FlatSize(level, h);
    if |level| == 1 {
      top := h;
      assert Flat(level) == Expand(level[0]) + [];
    } else {
      NextLevelPerfect(level, h);
      OneLevelPads(level, h);
      top := RootExpands(NextLevel(level), h + 1);
    }
  }

  /** A perfect tree is determined by its leaves. */
  lemma {:induction false} LeavesDetermine(x: Digest, hx: nat, y: Digest, hy: nat)
    requires Perfect(x, hx) && Perfect(y, hy) && Expand(x) == Expand(y)
    ensures x == y
    decreases hx
  {
    ExpandedSize(x, hx);
    ExpandedSize(y, hy);
    SamePower(hx, hy);
    if hx > 0 {
      ExpandedSize(x.left, hx - 1);
      ExpandedSize(y.left, hy - 1);
      assert Expand(x)[..Pow2(hx - 1)] == Expand(x.left) && Expand(y)[..Pow2(hx - 1)] == Expand(y.left);
      assert Expand(x)[Pow2(hx - 1)..] == Expand(x.right) && Expand(y)[Pow2(hx - 1)..] == Expand(y.right);
      LeavesDetermine(x.left, hx - 1, y.left, hy - 1);
      LeavesDetermine(x.right, hx - 1, y.right, hy - 1);
    }
  }

  lemma {:induction false} SamePower(g: nat, h: nat)
    requires Pow2(g) == Pow2(h)
    ensures g == h
  {
    if g > 0 && h > 0 {
      SamePower(g - 1, h - 1);
    } else {
      PowersArePositive(g);
      PowersArePositive(h);
    }
  }

  lemma {:induction false} PowersArePositive(h: nat)
    ensures Pow2(h) >= 1 && (h > 0 ==> Pow2(h) >= 2)
  {
    if h > 0 {
      PowersArePositive(h - 1);
    }
  }

  lemma {:induction false} LeavesAreFlat(leaves: seq<Digest>)
    requires forall d :: d in leaves ==> d.LeafHash?
    ensures AllPerfect(leaves, 0) && Flat(leaves) == leaves
  {
    if leaves != [] {
      assert leaves[0] in leaves;
      LeavesAreFlat(leaves[1..]);
      forall i | 0 <= i < |leaves| ensures Perfect(leaves[i], 0) {
        assert leaves[i] in leaves;
      }
    }
  }

  /** Two lists of leaves have the same root if and only if padding makes them equal. */
  lemma RootsCollideExactly(a: seq<Digest>, b: seq<Digest>)
    requires (forall d :: d in a ==> d.LeafHash?) && (forall d :: d in b ==> d.LeafHash?)
    ensures Root(a) == Root(b) <==> Padded(a) == Padded(b)
  {
    LeavesAreFlat(a);
    LeavesAreFlat(b);
    if a != [] {
      var ha := RootExpands(a, 0);
      NotZero(a, ha);
      if b != [] {
        var hb := RootExpands(b, 0);
        if Padded(a) == Padded(b) {
          LeavesDetermine(Root(a), ha, Root(b), hb);
        }
      }
    } else if b != [] {
      var hb := RootExpands(b, 0);
      NotZero(b, hb);
    }
  }

  lemma NotZero(a: seq<Digest>, h: nat)
    requires Perfect(Root(a), h) && Expand(Root(a)) == Padded(a)
    ensures Root(a) != Zero && Padded(a) != []
  {
    ExpandedSize(Root(a), h);
  }
}
