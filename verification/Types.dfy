// Shared vocabulary of the backup pipeline: options and results, file paths,
// content identifiers, hashes, stored blobs and snapshot manifests.

module Wrappers {
  datatype Option<+T> = None | Some(value: T)

  datatype Result<+T, +E> = Ok(value: T) | Err(error: E)
}

module Arithmetic {
  function CeilDiv(a: nat, b: nat): nat
    requires b > 0
  {
    (a + b - 1) / b
  }

  /** n lots of b cover a from the rounded-up quotient on. */
  lemma CeilDivIsLeast(a: nat, b: nat, n: nat)
    requires b > 0
    ensures n * b >= a <==> n >= CeilDiv(a, b)
  {
    var c := CeilDiv(a, b);
    assert c * b >= a;
    if n < c {
      assert n * b <= (c - 1) * b;
    } else {
      assert n * b >= c * b;
    }
  }

  lemma SubsetSize<K>(a: set<K>, all: set<K>)
    requires a <= all
    ensures |a| <= |all|
  {
    assert all == a + (all - a);
  }
}

module SoulTypes {
  import opened Wrappers

  /** A JavaScript string in its UTF-8 form, one char per byte.  No engine builds
      a string whose encoding reaches 2^32 bytes. */
  type Text = s: string | |s| < 0x1_0000_0000

  type Cid = Text

  datatype Category = Identity | Memory | Chat | Config | Workspace | Database

  /** One position of a hashed buffer: a literal byte, or the 64 hex digits of a digest. */
  datatype Atom = Byte(b: nat) | HexDigits(d: Digest)

  /** Hashes as free terms: equal digests have equal preimages, and the four uses
      (content, leaf, pair, all-zero) never collide with one another. */
  datatype Digest =
    | Zero
    | Sha256(content: Blob)
    | LeafHash(data: seq<Atom>)
    | PairHash(left: Digest, right: Digest)
    | NotADigest(text: Text)

  /** keccak256 of a CID string as stored on chain. */
  datatype Bytes32 = Zero32 | Keccak(cid: Cid)

  datatype Key = Key(secret: Text, isPassword: bool)

  /** File content or IPFS content.  `Json` is the serialized form of a manifest, with
      its length in bytes; `Sealed` is an AES-256-GCM frame. */
  datatype Blob =
    | Raw(bytes: string)
    | Json(manifest: Manifest, size: nat)
    | Sealed(key: Key, nonce: nat, plain: Blob)

  datatype Entry = Entry(cid: Cid, hash: Digest, sizeBytes: nat, encrypted: bool, category: Category)

  datatype Manifest = Manifest(
    agentId: Text,
    timestamp: nat,
    parentCid: Option<Cid>,
    files: map<Text, Entry>,
    merkleRoot: Digest,
    totalBytes: nat,
    fileCount: nat)

  type Store = map<Cid, Blob>

  datatype OnChainBackup = OnChainBackup(
    manifestCid: Bytes32,
    dataMerkleRoot: Digest,
    fileCount: nat,
    totalBytes: nat,
    backupType: nat,
    parentManifestCid: Bytes32)

  const SALT_LENGTH := 32
  const IV_LENGTH := 12
  const TAG_LENGTH := 16
  const FRAME_HEADER := SALT_LENGTH + IV_LENGTH + TAG_LENGTH
  const MAX_MANIFEST_BYTES := 10 * 1024 * 1024

  function Size(b: Blob): nat {
    match b
    case Raw(bytes) => |bytes|
    case Json(_, size) => size
    case Sealed(_, _, plain) => FRAME_HEADER + Size(plain)
  }

  /** GCM authentication: only the frame sealed under the same key opens. */
  function Decrypt(b: Blob, key: Key): Option<Blob> {
    if b.Sealed? && b.key == key then Some(b.plain) else None
  }

  /** The content a manifest entry stands for, given what the store returned. */
  function Open(b: Blob, encrypted: bool, key: Key): Option<Blob> {
    if encrypted then Decrypt(b, key) else Some(b)
  }

  /** Number of bytes of the white-space character a text begins with, 0 if there is none.  The
      characters are those of `\s` and `trim` in JavaScript. */
  function SpaceLength(s: string): (n: nat)
    ensures n <= |s|
  {
    if |s| >= 1 && s[0] in {' ', '\t', '\n', '\U{0B}', '\U{0C}', '\r'} then 1
    else if |s| >= 2 && s[..2] == "\U{C2}\U{A0}" then 2
    else if |s| < 3 then 0
    else if s[..2] == "\U{E2}\U{80}" then
      if '\U{80}' <= s[2] <= '\U{8A}' || s[2] in {'\U{A8}', '\U{A9}', '\U{AF}'} then 3 else 0
    else if s[..3] in {"\U{E1}\U{9A}\U{80}", "\U{E2}\U{81}\U{9F}", "\U{E3}\U{80}\U{80}", "\U{EF}\U{BB}\U{BF}"} then 3
    else 0
  }

  predicate NoSpaces(s: string) {
    s == "" || (SpaceLength(s) == 0 && NoSpaces(s[1..]))
  }

  predicate ValidCid(cid: Cid) {
    && 0 < |cid| <= 512
    && (forall c :: c in cid ==> c !in {'/', '\\', '.'})
    && NoSpaces(cid)
  }

  function Cat(store: Store, cid: Cid): Option<Blob> {
    if ValidCid(cid) && cid in store then Some(store[cid]) else None
  }

  function CatManifest(store: Store, cid: Cid): Option<Manifest> {
    match Cat(store, cid)
    case Some(Json(m, size)) => if size <= MAX_MANIFEST_BYTES then Some(m) else None
    case _ => None
  }

  /** Content addressing: an identifier never names two contents. */
  predicate CanAdd(store: Store, cid: Cid, b: Blob) {
    ValidCid(cid) && (cid in store ==> store[cid] == b)
  }

  ghost predicate Grows(a: Store, b: Store) {
    forall c :: c in a ==> c in b && b[c] == a[c]
  }
}
