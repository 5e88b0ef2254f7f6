// Restoring a manifest chain.

module StateRestorer {
  import opened Wrappers
  import opened SoulTypes
  import opened Merkle
  import opened Paths
  import opened FileSystem
  import opened Downloader
  import opened IntegrityChecker
  import opened Chain

  /** What the chain client answers to getLatestBackup, if there is a client at all. */
  datatype ChainView = NoClient | Unreachable | Latest(record: OnChainBackup)

  datatype AnchorReason =
    | Verified | MerkleRootMismatch | ManifestNotLatest | MissingAgentId | VerificationUnavailable | NoSoulClient

  datatype RestoreError =
    | EmptyChain
    | ChainFailed(error: ChainError)
    | TamperedManifest(index: nat)
    | KeyRequired
    | AnchorMismatch

  datatype RecoveryResult = RecoveryResult(
    filesRestored: nat,
    totalBytes: nat,
    backupsApplied: nat,
    merkleVerified: bool,
    anchorCheckAttempted: bool,
    anchorCheckPassed: bool,
    anchorCheckReason: AnchorReason)

  /** "0x" followed by 64 zeros */
  predicate ZeroAgentId(id: Text) {
    |id| == 66 && id[0] == '0' && id[1] == 'x' && forall i :: 2 <= i < 66 ==> id[i] == '0'
  }

  /** privateKeyOrPassword.trim() is empty. */
  predicate Blank(s: string) {
    s == "" || (SpaceLength(s) > 0 && Blank(s[SpaceLength(s)..]))
  }

  /** One white-space character, in its UTF-8 form. */
  predicate IsSpace(p: string) {
    |p| > 0 && SpaceLength(p) == |p|
  }

  function Concat(parts: seq<string>): string {
    if parts == [] then "" else parts[0] + Concat(parts[1..])
  }

  ghost predicate AllSpaces(parts: seq<string>) {
    forall p :: p in parts ==> IsSpace(p)
  }

  lemma SpaceStaysSpace(p: string, rest: string)
    requires IsSpace(p)
    ensures SpaceLength(p + rest) == |p|
  {
    assert |p| >= 2 ==> (p + rest)[..2] == p[..2];
    assert |p| >= 3 ==> (p + rest)[..3] == p[..3];
  }

  lemma {:induction false} SpacesAreBlank(parts: seq<string>)
    requires AllSpaces(parts)
    ensures Blank(Concat(parts))
  {
    if parts != [] {
      SpacesAreBlank(parts[1..]);
      SpaceStaysSpace(parts[0], Concat(parts[1..]));
      assert Concat(parts)[|parts[0]|..] == Concat(parts[1..]);
    }
  }

  lemma FirstSpaceIsSpace(s: string)
    requires SpaceLength(s) > 0
    ensures IsSpace(s[..SpaceLength(s)])
  {
    var n := SpaceLength(s);
    assert n >= 2 ==> s[..n][..2] == s[..2];
    assert n >= 3 ==> s[..n][..3] == s[..3];
  }

  lemma {:induction false} BlankIsSpaces(s: string) returns (parts: seq<string>)
    requires Blank(s)
    ensures AllSpaces(parts) && Concat(parts) == s
    decreases |s|
  {
    if s == "" {
      parts := [];
    } else {
      var n := SpaceLength(s);
      var rest := BlankIsSpaces(s[n..]);
      FirstSpaceIsSpace(s);
      parts := [s[..n]] + rest;
      assert parts[1..] == rest && s[..n] + s[n..] == s;
    }
  }

  /** Nothing is left after trimming exactly when there is nothing but white space. */
  lemma BlankIffSpaces(s: string)
    ensures Blank(s) <==> exists parts :: AllSpaces(parts) && Concat(parts) == s
  {
    if Blank(s) {
      var parts := BlankIsSpaces(s);
    }
    if parts :| AllSpaces(parts) && Concat(parts) == s {
      SpacesAreBlank(parts);
    }
  }

  lemma ZeroAgentIdIs(id: Text)
    ensures ZeroAgentId(id) <==> id == "0x" + seq(64, _ => '0')
  {
    if ZeroAgentId(id) {
      assert id[..2] == "0x";
    }
  }

  predicate HasEncryptedFiles(m: Manifest) {
    exists p :: p in m.files && m.files[p].encrypted
  }

  /** Step 2b: whether the chain was asked, whether it agreed, and why. */
  function AnchorCheck(manifestCid: Cid, latest: Manifest, chain: ChainView): (bool, bool, AnchorReason) {
    if chain.NoClient? then (false, false, NoSoulClient)
    else if latest.agentId == "" || ZeroAgentId(latest.agentId) then (false, false, MissingAgentId)
    else if chain.Unreachable? then (true, false, VerificationUnavailable)
    else if chain.record.manifestCid != Keccak(manifestCid) then (true, false, ManifestNotLatest)
    else if latest.merkleRoot != chain.record.dataMerkleRoot then (true, false, MerkleRootMismatch)
    else (true, true, Verified)
  }

  function Fetched(store: Store, manifestCid: Cid): seq<Manifest> {
    match ResolveChain(store, Some(manifestCid), {})
    case Ok(chain) => chain
    case Err(_) => []
  }

  /** Position of the first false, or the length. */
  function FirstFalse(flags: seq<bool>): (i: nat)
    ensures i <= |flags|
    ensures i < |flags| ==> !flags[i]
    ensures forall k :: 0 <= k < i ==> flags[k]
  {
    if flags == [] then 0
    else if !flags[0] then 0
    else 1 + FirstFalse(flags[1..])
  }

  ghost function RootFlags(chain: seq<Manifest>): seq<bool> {
    seq(|chain|, i requires 0 <= i < |chain| => ManifestRootValid(chain[i]))
  }

  /** Index of the first manifest whose own root does not match its entries. */
  ghost function FirstInvalid(chain: seq<Manifest>): nat {
    FirstFalse(RootFlags(chain))
  }

  /** The error thrown before anything is written, if any. */
  ghost function Refusal(manifestCid: Cid, site: Site, soul: ChainView): Option<RestoreError> {
    match ResolveChain(site.store, Some(manifestCid), {})
    case Err(e) => Some(ChainFailed(e))
    case Ok(chain) =>
      if FirstInvalid(chain) < |chain| then Some(TamperedManifest(FirstInvalid(chain)))
      else if chain == [] then Some(EmptyChain)
      else
        var latest := chain[|chain| - 1];
        if HasEncryptedFiles(latest) && Blank(site.key.secret) then Some(KeyRequired)
        else if AnchorCheck(manifestCid, latest, soul).2 == MerkleRootMismatch then Some(AnchorMismatch)
        else None
  }

  ghost function Restored(manifestCid: Cid, site: Site, soul: ChainView, ord: KeyOrder, d: Disk)
    : (Result<RecoveryResult, RestoreError>, Disk)
    requires forall m :: Listed(m, ord)
  {
    match Refusal(manifestCid, site, soul)
    case Some(e) => (Err(e), d)
    case None =>
      var chain := Fetched(site.store, manifestCid);
      var done := AfterChain(site, chain, ord, d);
      var check := AnchorCheck(manifestCid, chain[|chain| - 1], soul);
      (Ok(RecoveryResult(done.result.filesWritten, done.result.totalBytes, |chain|,
                         AllRestored(site.target, done.disk, chain[|chain| - 1]), check.0, check.1, check.2)),
       done.disk)
  }

  lemma FirstInvalidStep(chain: seq<Manifest>, i: nat)
    requires i < |chain| && i <= FirstInvalid(chain)
    ensures ManifestRootValid(chain[i]) ==> i < FirstInvalid(chain)
    ensures !ManifestRootValid(chain[i]) ==> i == FirstInvalid(chain)
  {
    assert RootFlags(chain)[i] == ManifestRootValid(chain[i]);
  }

  // ----- What a restore answers, for every store and every chain client -----

  ghost predicate FirstTampered(chain: seq<Manifest>, i: nat) {
    && i < |chain| && !ManifestRootValid(chain[i])
    && forall j :: 0 <= j < i ==> ManifestRootValid(chain[j])
  }

  ghost predicate AllRootsValid(chain: seq<Manifest>) {
    forall m :: m in chain ==> ManifestRootValid(m)
  }

  predicate NeedsKey(site: Site, chain: seq<Manifest>) {
    && chain != [] && Blank(site.key.secret)
    && var files := chain[|chain| - 1].files; exists p :: p in files && files[p].encrypted
  }

  /** The chain can be asked about the agent, and answers with a record of this very manifest. */
  predicate IsRecorded(c: Cid, latest: Manifest, soul: ChainView) {
    && latest.agentId != "" && !ZeroAgentId(latest.agentId)
    && soul.Latest? && soul.record.manifestCid == Keccak(c)
  }

  predicate Contradicts(c: Cid, chain: seq<Manifest>, soul: ChainView) {
    && chain != [] && IsRecorded(c, chain[|chain| - 1], soul)
    && soul.record.dataMerkleRoot != chain[|chain| - 1].merkleRoot
  }

  lemma FirstInvalidIsFirst(chain: seq<Manifest>, i: nat)
    ensures i < |chain| ==> (FirstTampered(chain, i) <==> FirstInvalid(chain) == i)
    ensures AllRootsValid(chain) <==> FirstInvalid(chain) == |chain|
  {
    forall k | 0 <= k < |chain| ensures RootFlags(chain)[k] == ManifestRootValid(chain[k]) {
    }
    if FirstInvalid(chain) < |chain| {
      assert chain[FirstInvalid(chain)] in chain && !ManifestRootValid(chain[FirstInvalid(chain)]);
    }
  }

  lemma RefusedUntouched(c: Cid, site: Site, soul: ChainView, ord: KeyOrder, d: Disk, e: RestoreError)
    requires forall m :: Listed(m, ord)
    ensures var (r, after) := Restored(c, site, soul, ord, d);
            (r == Err(e) <==> Refusal(c, site, soul) == Some(e)) && (r.Err? ==> after == d)
  {
  }

  lemma AnchorRefusalIsExact(c: Cid, site: Site, soul: ChainView)
    ensures var resolved := ResolveChain(site.store, Some(c), {});
            Refusal(c, site, soul) == Some(AnchorMismatch) <==>
              && resolved.Ok? && AllRootsValid(resolved.value) && !NeedsKey(site, resolved.value)
              && Contradicts(c, resolved.value, soul)
  {
    var resolved := ResolveChain(site.store, Some(c), {});
    if resolved.Ok? {
      FirstInvalidIsFirst(resolved.value, 0);
    }
  }

  lemma OtherRefusalsAreExact(c: Cid, site: Site, soul: ChainView, i: nat, e: ChainError)
    ensures var resolved, refusal := ResolveChain(site.store, Some(c), {}), Refusal(c, site, soul);
            && (refusal == Some(ChainFailed(e)) <==> resolved == Err(e))
            && (refusal == Some(TamperedManifest(i)) <==> resolved.Ok? && FirstTampered(resolved.value, i))
            && (refusal == Some(EmptyChain) <==> resolved == Ok([]))
            && (refusal == Some(KeyRequired) <==>
                  resolved.Ok? && AllRootsValid(resolved.value) && NeedsKey(site, resolved.value))
  {
    var resolved := ResolveChain(site.store, Some(c), {});
    if resolved.Ok? {
      FirstInvalidIsFirst(resolved.value, i);
    }
  }

  /** Which error is thrown, exactly; and an error leaves the disk as it was. */
  lemma RefusalsAreExact(c: Cid, site: Site, soul: ChainView, ord: KeyOrder, d: Disk, i: nat, e: ChainError)
    requires forall m :: Listed(m, ord)
    ensures var resolved, (r, after) := ResolveChain(site.store, Some(c), {}), Restored(c, site, soul, ord, d);
            && (r.Err? ==> after == d)
            && (r == Err(ChainFailed(e)) <==> resolved == Err(e))
            && (r == Err(TamperedManifest(i)) <==> resolved.Ok? && FirstTampered(resolved.value, i))
            && (r == Err(EmptyChain) <==> resolved == Ok([]))
            && (r == Err(KeyRequired) <==>
                  resolved.Ok? && AllRootsValid(resolved.value) && NeedsKey(site, resolved.value))
            && (r == Err(AnchorMismatch) <==>
                  && resolved.Ok? && AllRootsValid(resolved.value) && !NeedsKey(site, resolved.value)
                  && Contradicts(c, resolved.value, soul))
  {
    OtherRefusalsAreExact(c, site, soul, i, e);
    AnchorRefusalIsExact(c, site, soul);
    RefusedUntouched(c, site, soul, ord, d, ChainFailed(e));
    RefusedUntouched(c, site, soul, ord, d, TamperedManifest(i));
    RefusedUntouched(c, site, soul, ord, d, EmptyChain);
    RefusedUntouched(c, site, soul, ord, d, KeyRequired);
    RefusedUntouched(c, site, soul, ord, d, AnchorMismatch);
  }

  /** Which anchor reason is reported with a restore, exactly, and what the two flags mean. */
  lemma AnchorReasonIsExact(c: Cid, site: Site, soul: ChainView, ord: KeyOrder, d: Disk)
    requires forall m :: Listed(m, ord)
    requires Restored(c, site, soul, ord, d).0.Ok?
    ensures ResolveChain(site.store, Some(c), {}).Ok? && ResolveChain(site.store, Some(c), {}).value != []
    ensures var r, chain := Restored(c, site, soul, ord, d).0.value, ResolveChain(site.store, Some(c), {}).value;
            var latest := chain[|chain| - 1];
            var named := latest.agentId != "" && !ZeroAgentId(latest.agentId);
            && (r.anchorCheckReason == NoSoulClient <==> soul == NoClient)
            && (r.anchorCheckReason == MissingAgentId <==> soul != NoClient && !named)
            && (r.anchorCheckReason == VerificationUnavailable <==> soul == Unreachable && named)
            && (r.anchorCheckReason == ManifestNotLatest <==>
                  soul.Latest? && named && soul.record.manifestCid != Keccak(c))
            && (r.anchorCheckReason == Verified <==> IsRecorded(c, latest, soul))
            && (r.anchorCheckReason == Verified ==> soul.record.dataMerkleRoot == latest.merkleRoot)
            && (r.anchorCheckPassed <==> r.anchorCheckReason == Verified)
            && (r.anchorCheckAttempted <==> r.anchorCheckReason !in {NoSoulClient, MissingAgentId})
  {
  }

  method CheckManifests(chain: seq<Manifest>, ord: KeyOrder) returns (invalid: Option<nat>)
    requires forall m :: Listed(m, ord)
    ensures invalid == if FirstInvalid(chain) < |chain| then Some(FirstInvalid(chain)) else None
  {
    for i := 0 to |chain|
      invariant i <= FirstInvalid(chain)
    {
      var valid := VerifyManifestMerkleRoot(chain[i], ord);
      FirstInvalidStep(chain, i);
      if !valid {
        return Some(i);
      }
    }
    return None;
  }

  method RestoreFromManifestCid(manifestCid: Cid, site: Site, soul: ChainView, ord: KeyOrder, fs: FileStore)
    returns (r: Result<RecoveryResult, RestoreError>)
    requires forall m :: Listed(m, ord)
    modifies fs
    ensures (r, fs.View()) == Restored(manifestCid, site, soul, ord, old(fs.View()))
  {
    var resolved := ResolveChainFromCid(manifestCid, site.store);
    if resolved.Err? {
      return Err(ChainFailed(resolved.error));
    }
    var chain := resolved.value;
    var invalid := CheckManifests(chain, ord);
    if invalid.Some? {
      return Err(TamperedManifest(invalid.value));
    }
    if |chain| == 0 {
      return Err(EmptyChain);
    }
    var latestManifest := chain[|chain| - 1];
    if HasEncryptedFiles(latestManifest) && Blank(site.key.secret) {
      return Err(KeyRequired);
    }
    var check := AnchorCheck(manifestCid, latestManifest, soul);
    if check.2 == MerkleRootMismatch {
      return Err(AnchorMismatch);
    }
    var download := ApplyManifestChain(chain, site, ord, fs);
    var valid, _ := VerifyRestoredFiles(latestManifest, site.target, ord, fs);
    return Ok(RecoveryResult(download.filesWritten, download.totalBytes, |chain|, valid, check.0, check.1, check.2));
  }

  lemma EqualRootsRestoreAlike(target: Abs, d: Disk, latest: Manifest, original: Manifest)
    requires ManifestRootValid(original) && latest.merkleRoot == original.merkleRoot
    requires AllRestored(target, d, latest)
    ensures forall p :: p in original.files ==> FileRestored(target, d, p, original.files[p])
  {
    DataMerkleRootBinds(latest.files, original.files);
    forall p | p in original.files ensures FileRestored(target, d, p, original.files[p]) {
      assert FileRestored(target, d, p, latest.files[p]);
    }
  }

  /** A restore reports the anchor check of the manifest it restored. */
  lemma ReportedAnchor(c: Cid, site: Site, soul: ChainView, ord: KeyOrder, d: Disk)
    requires forall m :: Listed(m, ord)
    ensures var r := Restored(c, site, soul, ord, d).0;
            var chain := Fetched(site.store, c);
            r.Ok? ==>
              && Refusal(c, site, soul) == None && chain != []
              && r.value.anchorCheckPassed == AnchorCheck(c, chain[|chain| - 1], soul).1
  {
  }

  lemma AnchoredRootIsRestored(c: Cid, site: Site, record: OnChainBackup, ord: KeyOrder, d: Disk)
    requires forall m :: Listed(m, ord)
    ensures var r := Restored(c, site, Latest(record), ord, d).0;
            r.Ok? && r.value.anchorCheckPassed ==>
              && Fetched(site.store, c) != []
              && Fetched(site.store, c)[|Fetched(site.store, c)| - 1].merkleRoot == record.dataMerkleRoot
  {
    ReportedAnchor(c, site, Latest(record), ord, d);
  }

  /** And the verification of what was then on disk. */
  lemma ReportedVerification(c: Cid, site: Site, soul: ChainView, ord: KeyOrder, d: Disk)
    requires forall m :: Listed(m, ord)
    ensures var (r, e) := Restored(c, site, soul, ord, d);
            r.Ok? && r.value.merkleVerified ==>
              && Fetched(site.store, c) != []
              && AllRestored(site.target, e, Fetched(site.store, c)[|Fetched(site.store, c)| - 1])
  {
  }

  /** Anchored integrity, for any store, however corrupted.  `original` is the manifest
      whose root was anchored.  If the restore reports both that the anchor check passed
      and that the files verified, then the target holds, at every path of the original,
      content with the hash recorded at backup time. */
  lemma AnchoredRestoreIsAuthentic(manifestCid: Cid, site: Site, record: OnChainBackup, original: Manifest,
                                   ord: KeyOrder, d: Disk)
    requires forall m :: Listed(m, ord)
    requires ManifestRootValid(original) && record.dataMerkleRoot == original.merkleRoot
    ensures var (r, e) := Restored(manifestCid, site, Latest(record), ord, d);
            r.Ok? && r.value.anchorCheckPassed && r.value.merkleVerified ==>
              forall p :: p in original.files ==>
                var full := FullPath(site.target, p);
                (full == site.target || Inside(site.target, full))
                && full in e.files && Sha256(e.files[full]) == original.files[p].hash
  {
    var (r, e) := Restored(manifestCid, site, Latest(record), ord, d);
    if r.Ok? && r.value.anchorCheckPassed && r.value.merkleVerified {
      AnchoredRootIsRestored(manifestCid, site, record, ord, d);
      ReportedVerification(manifestCid, site, Latest(record), ord, d);
      var chain := Fetched(site.store, manifestCid);
      EqualRootsRestoreAlike(site.target, e, chain[|chain| - 1], original);
      assert forall p :: p in original.files ==> FileRestored(site.target, e, p, original.files[p]);
    }
  }

  /** Nothing is written before every check has passed, and nothing ever outside the target. */
  lemma RestoreStaysInside(manifestCid: Cid, site: Site, soul: ChainView, ord: KeyOrder, d: Disk, a: Abs)
    requires forall m :: Listed(m, ord)
    requires !Allowed(site.target, a) || Refusal(manifestCid, site, soul).Some?
    ensures var e := Restored(manifestCid, site, soul, ord, d).1;
            (a in e.files <==> a in d.files) && (a in d.files ==> e.files[a] == d.files[a])
  {
    if Refusal(manifestCid, site, soul).None? {
      ChainStaysInside(site, Fetched(site.store, manifestCid), ord, d, a);
    }
  }
}
