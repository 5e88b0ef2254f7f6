// The archive format for directories, and the frame around an encrypted file.

module SimpleTar {
  import opened Wrappers

  newtype byte = b: int | 0 <= b < 256

  datatype File = File(relativePath: string, content: seq<byte>)

  datatype Item = Item(path: string, offset: nat, size: nat)

  /** JSON in UTF-8; the reader may be handed anything. */
  datatype Json = Json(write: seq<Item> -> seq<byte>, read: seq<byte> -> Option<seq<Item>>)

  ghost predicate Lossless(json: Json) {
    forall items :: json.read(json.write(items)) == Some(items)
  }

  const HEADER := 4
  const LIMIT := 0x1_0000_0000

  function BigEndian(n: nat): (header: seq<byte>)
    requires n < LIMIT
    ensures |header| == HEADER
  {
    [(n / 0x100_0000) as byte, (n / 0x1_0000 % 0x100) as byte, (n / 0x100 % 0x100) as byte, (n % 0x100) as byte]
  }

  /** The most significant byte comes first. */
  lemma BigEndianDigits(n: nat)
    requires n < LIMIT
    ensures var h := BigEndian(n);
            n == h[0] as nat * 0x100_0000 + h[1] as nat * 0x1_0000 + h[2] as nat * 0x100 + h[3] as nat
  {
    assert n / 0x100 / 0x100 == n / 0x1_0000 && n / 0x1_0000 / 0x100 == n / 0x100_0000;
  }

  function ReadBigEndian(b: seq<byte>): nat
    requires |b| >= HEADER
  {
    b[0] as nat * 0x100_0000 + b[1] as nat * 0x1_0000 + b[2] as nat * 0x100 + b[3] as nat
  }

  function Contents(files: seq<File>): seq<byte> {
    if files == [] then [] else Contents(files[..|files| - 1]) + files[|files| - 1].content
  }

  /** Each file starts where the ones before it end. */
  function IndexOf(files: seq<File>): (items: seq<Item>)
    ensures |items| == |files|
  {
    if files == [] then []
    else
      var last := files[|files| - 1];
      IndexOf(files[..|files| - 1]) + [Item(last.relativePath, |Contents(files[..|files| - 1])|, |last.content|)]
  }

  function Archive(json: Json, files: seq<File>): Option<seq<byte>> {
    var index := json.write(IndexOf(files));
    if |index| < LIMIT then Some(BigEndian(|index|) + index + Contents(files)) else None
  }

  /** None when the index does not fit its length field. */
  method BuildSimpleTar(json: Json, files: seq<File>) returns (archive: Option<seq<byte>>)
    ensures archive == Archive(json, files)
  {
    var dataOffset := 0;
    var index: seq<Item> := [];
    var data: seq<byte> := [];
    for i := 0 to |files|
      invariant index == IndexOf(files[..i]) && data == Contents(files[..i]) && dataOffset == |data|
    {
      assert files[..i + 1][..i] == files[..i];
      index := index + [Item(files[i].relativePath, dataOffset, |files[i].content|)];
      dataOffset := dataOffset + |files[i].content|;
      data := data + files[i].content;
    }
    assert files[..|files|] == files;
    var indexBuf := json.write(index);
    if |indexBuf| >= LIMIT {
      return None;
    }
    return Some(BigEndian(|indexBuf|) + indexBuf + data);
  }

  /** Buffer.subarray: bounds past the end are clamped. */
  function Subarray(b: seq<byte>, start: nat, end: nat): seq<byte> {
    var e := if end <= |b| then end else |b|;
    if start <= e then b[start..e] else []
  }

  function ExtractFile(data: seq<byte>, from: nat, item: Item): File {
    File(item.path, Subarray(data, from + item.offset, from + item.offset + item.size))
  }

  /** None when the header or the index cannot be read. */
  function Extract(json: Json, archive: seq<byte>): Option<seq<File>> {
    if |archive| < HEADER then None
    else
      var n := ReadBigEndian(archive);
      match json.read(Subarray(archive, HEADER, HEADER + n))
      case None => None
      case Some(items) => Some(ExtractAll(archive, HEADER + n, items))
  }

  lemma {:induction false} ItemsPointAtContents(files: seq<File>, i: nat)
    requires i < |files|
    ensures var item := IndexOf(files)[i];
            && item.path == files[i].relativePath
            && item.offset + item.size <= |Contents(files)|
            && Contents(files)[item.offset..item.offset + item.size] == files[i].content
  {
    if i < |files| - 1 {
      ItemsPointAtContents(files[..|files| - 1], i);
    }
  }

  lemma ArchiveParts(index: seq<byte>, data: seq<byte>)
    requires |index| < LIMIT
    ensures var archive := BigEndian(|index|) + index + data;
            && ReadBigEndian(archive) == |index|
            && Subarray(archive, HEADER, HEADER + |index|) == index
            && archive[HEADER + |index|..] == data
  {
    var archive := BigEndian(|index|) + index + data;
    assert archive == BigEndian(|index|) + (index + data);
    assert archive[HEADER..HEADER + |index|] == index;
  }

  function ExtractAll(archive: seq<byte>, from: nat, items: seq<Item>): seq<File> {
    seq(|items|, i requires 0 <= i < |items| => ExtractFile(archive, from, items[i]))
  }

  lemma ItemsExtract(archive: seq<byte>, from: nat, files: seq<File>)
    requires from <= |archive| && archive[from..] == Contents(files)
    ensures ExtractAll(archive, from, IndexOf(files)) == files
  {
    var items := IndexOf(files);
    forall i | 0 <= i < |items| ensures ExtractFile(archive, from, items[i]) == files[i] {
      ItemsPointAtContents(files, i);
    }
  }

  /** Extracting what was built gives the same files in the same order, whenever it could be
      built at all: the index has to fit 32 bits. */
  lemma TarRoundTrips(json: Json, files: seq<File>)
    requires Lossless(json)
    ensures Archive(json, files).Some? <==> |json.write(IndexOf(files))| < LIMIT
    ensures Archive(json, files).Some? ==> Extract(json, Archive(json, files).value) == Some(files)
  {
    var index := json.write(IndexOf(files));
    if |index| < LIMIT {
      ArchiveParts(index, Contents(files));
      ItemsExtract(Archive(json, files).value, HEADER + |index|, files);
    }
  }

}

module CryptoFrame {
  import opened Wrappers
  import opened SoulTypes
  import opened SimpleTar

  type Bytes = seq<byte>

  datatype SealedText = SealedText(tag: Bytes, ciphertext: Bytes)

  /** AES-256-GCM and scrypt as parameters.  `derive` takes the secret, whether it is a
      password, and the salt. */
  datatype Suite = Suite(
    derive: (Text, bool, Bytes) -> Bytes,
    seal: (Bytes, Bytes, Bytes) -> SealedText,
    open: (Bytes, Bytes, SealedText) -> Option<Bytes>)

  /** Authenticated encryption: what opens is what was sealed, and tags have 16 bytes. */
  ghost predicate Authentic(suite: Suite) {
    && (forall key, iv, plain :: |suite.seal(key, iv, plain).tag| == TAG_LENGTH)
    && (forall key, iv, plain :: suite.open(key, iv, suite.seal(key, iv, plain)) == Some(plain))
    && (forall key, iv, text: SealedText :: suite.open(key, iv, text).Some? ==>
          suite.seal(key, iv, suite.open(key, iv, text).value) == text)
  }

  /** `salt` and `iv` are the random bytes drawn for this call. */
  function Encrypt(suite: Suite, plain: Bytes, key: Key, salt: Bytes, iv: Bytes): Bytes {
    var text := suite.seal(suite.derive(key.secret, key.isPassword, salt), iv, plain);
    salt + iv + text.tag + text.ciphertext
  }

  function Salt(data: Bytes): Bytes
    requires |data| >= FRAME_HEADER
  {
    data[..SALT_LENGTH]
  }

  function Iv(data: Bytes): Bytes
    requires |data| >= FRAME_HEADER
  {
    data[SALT_LENGTH..SALT_LENGTH + IV_LENGTH]
  }

  /** None for data too short for a frame, and for a frame that fails authentication. */
  function DecryptFrame(suite: Suite, data: Bytes, key: Key): Option<Bytes> {
    if |data| < FRAME_HEADER then None
    else
      var text := SealedText(data[SALT_LENGTH + IV_LENGTH..FRAME_HEADER], data[FRAME_HEADER..]);
      suite.open(suite.derive(key.secret, key.isPassword, Salt(data)), Iv(data), text)
  }

  lemma FrameFields(salt: Bytes, iv: Bytes, tag: Bytes, ciphertext: Bytes)
    requires |salt| == SALT_LENGTH && |iv| == IV_LENGTH && |tag| == TAG_LENGTH
    ensures var data := salt + iv + tag + ciphertext;
            && |data| >= FRAME_HEADER && Salt(data) == salt && Iv(data) == iv
            && data[SALT_LENGTH + IV_LENGTH..FRAME_HEADER] == tag && data[FRAME_HEADER..] == ciphertext
  {
  }

  /** The frame that encrypting writes, field by field. */
  lemma FrameLayout(suite: Suite, plain: Bytes, key: Key, salt: Bytes, iv: Bytes)
    requires Authentic(suite) && |salt| == 32 && |iv| == 12
    ensures var data := Encrypt(suite, plain, key, salt, iv);
            && |data| >= 60 && data[..32] == salt && data[32..44] == iv
            && SealedText(data[44..60], data[60..])
            == suite.seal(suite.derive(key.secret, key.isPassword, salt), iv, plain)
  {
    var text := suite.seal(suite.derive(key.secret, key.isPassword, salt), iv, plain);
    FrameFields(salt, iv, text.tag, text.ciphertext);
  }

  lemma FrameRoundTrips(suite: Suite, plain: Bytes, key: Key, salt: Bytes, iv: Bytes)
    requires Authentic(suite) && |salt| == SALT_LENGTH && |iv| == IV_LENGTH
    ensures DecryptFrame(suite, Encrypt(suite, plain, key, salt, iv), key) == Some(plain)
  {
    var text := suite.seal(suite.derive(key.secret, key.isPassword, salt), iv, plain);
    FrameFields(salt, iv, text.tag, text.ciphertext);
  }

  /** Data decrypts exactly when it is a frame that encrypting under the same key, with the
      salt and vector it carries, produces; and then to what was encrypted. */
  lemma OnlyFramesDecrypt(suite: Suite, data: Bytes, key: Key, plain: Bytes)
    requires Authentic(suite)
    ensures DecryptFrame(suite, data, key) == Some(plain)
       <==> |data| >= FRAME_HEADER && data == Encrypt(suite, plain, key, Salt(data), Iv(data))
  {
  }
}
