// What a completed resurrection guarantees of the files: the flow of the carrier over the
// recovery it calls.

module CompletedResurrection {
  import opened Wrappers
  import opened SoulTypes
  import opened Paths
  import opened FileSystem
  import opened Downloader
  import opened Uploader
  import opened Landing
  import opened CidResolution
  import opened StateRestorer
  import opened SchedulerModel
  import opened SchedulerSafety
  import opened ChainBound
  import opened RoundTrip
  import opened ChainRecovery
  import opened ChainRecoveryProofs
  import opened AutoRestoration

  import ResurrectionFlow

  /** The flow passes on the counts of the recovery, and nothing else of it. */
  function Counts(r: Result<RecoveryResult, AutoRestoreError>): Option<ResurrectionFlow.Restore> {
    match r
    case Ok(v) => Some(ResurrectionFlow.Restore(v.filesRestored, v.totalBytes))
    case Err(_) => None
  }

  /** `e` holds at `p` what was captured there. */
  predicate Intact(target: Abs, e: Disk, seen: map<Text, Blob>, p: Text)
    requires p in seen
  {
    FullPath(target, p) in e.files && e.files[FullPath(target, p)] == seen[p]
  }

  /** The recovery itself does not write there. */
  predicate Untouched(target: Abs, p: Text) {
    FullPath(target, p) != ContextPath(target) && FullPath(target, p) != MarkerPath(target)
  }

  /** The entry of a captured file opens to its captured bytes. */
  lemma EntryOpensToCaptured(cfg: Config, w: World, c: Cid, site: Site, p: Text)
    requires WorldOk(cfg, w) && RankedWorld(w) && c in w.origins
    requires AllComplete(site.store, site.key, ChainOf(w, c)) && p in w.origins[c].seen
    ensures p in LatestFiles(ChainOf(w, c))
    ensures Content(site, LatestFiles(ChainOf(w, c))[p]) == Some(w.origins[c].seen[p])
  {
    assert StoredManifest(cfg, w, c);
    var m := w.store[c].manifest;
    assert m in ChainOf(w, c) && LatestFiles(ChainOf(w, c)) == m.files;
    assert Complete(site.store, site.key, m) && Sound(site.store, site.key, m.files[p]);
  }

  lemma CompleteChainIsApplicable(site: Site, chain: seq<Manifest>, ord: KeyOrder, d: Disk)
    requires AllComplete(site.store, site.key, chain) && AllListed(chain, ord) && FreshTarget(site.target, d)
    ensures Applicable(site, chain, ord, d)
  {
  }

  /** A file of the latest manifest is there, with its content, exactly if it lands. */
  lemma ThereIffLanded(site: Site, chain: seq<Manifest>, ord: KeyOrder, d: Disk, p: Text, content: Blob)
    requires chain != [] && Applicable(site, chain, ord, d)
    requires p in LatestFiles(chain) && Content(site, LatestFiles(chain)[p]) == Some(content)
    ensures var files := AfterChain(site, chain, ord, d).disk.files;
            p in Landed(chain) <==> FullPath(site.target, p) in files && files[FullPath(site.target, p)] == content
  {
    ChainLeaves(site, chain, ord, d);
    MissingUnlessLanded(site, chain, ord, d, p);
  }

  lemma IntactIffLanded(cfg: Config, w: World, c: Cid, site: Site, ord: KeyOrder, d: Disk, p: Text)
    requires WorldOk(cfg, w) && RankedWorld(w) && c in w.origins
    requires AllComplete(site.store, site.key, ChainOf(w, c))
    requires FreshTarget(site.target, d) && AllListed(ChainOf(w, c), ord)
    requires p in w.origins[c].seen
    ensures Intact(site.target, AfterChain(site, ChainOf(w, c), ord, d).disk, w.origins[c].seen, p)
       <==> p in Landed(ChainOf(w, c))
  {
    EntryOpensToCaptured(cfg, w, c, site, p);
    CompleteChainIsApplicable(site, ChainOf(w, c), ord, d);
    ThereIffLanded(site, ChainOf(w, c), ord, d, p, w.origins[c].seen[p]);
  }

  /** Elsewhere the recovery leaves the restored files alone. */
  lemma FinishingTouchesTwo(target: Abs, d: Disk, context: Option<Blob>, marker: Blob, a: Abs)
    requires a != ContextPath(target) && a != MarkerPath(target)
    ensures var e := Finished(target, d, context, marker);
            (a in e.files <==> a in d.files) && (a in d.files ==> e.files[a] == d.files[a])
  {
  }

  lemma {:induction false} PlainNameIsOneSegment(name: string)
    requires '/' !in name
    ensures Split(name) == [name]
  {
    if name != "" {
      PlainNameIsOneSegment(name[1..]);
      assert [name[0]] + name[1..] == name;
    }
  }

  /** The backup rules list this file too. */
  lemma ContextFileResolves(target: Abs, name: Text)
    requires name == "RECOVERY_CONTEXT.md"
    ensures FullPath(target, name) == ContextPath(target)
  {
    PlainNameIsOneSegment(name);
    ResolveOrdinary(target, [name]);
  }

  /** On a tree, a file that is not protected can be written again. */
  lemma FileIsRewritten(target: Abs, d: Disk, context: Blob, marker: Blob)
    requires Tree(d) && ContextPath(target) in d.files && ContextPath(target) !in d.denied
    ensures var e := Finished(target, d, Some(context), marker);
            ContextPath(target) in e.files && e.files[ContextPath(target)] == context
  {
    var a := ContextPath(target);
    assert a[..|a| - 1] == target;
    assert CanWriteAlone(d, a);
  }

  lemma ChainLeavesTree(site: Site, chain: seq<Manifest>, ord: KeyOrder, d: Disk)
    requires chain != [] && Applicable(site, chain, ord, d)
    ensures var e := AfterChain(site, chain, ord, d).disk; Tree(e) && e.denied == d.denied
  {
    ChainLands(site, chain, ord, d);
    var g := AfterManifests(site, chain, ord, d).disk;
    assert Tree(g) && g.denied == d.denied;
  }

  /** A context file of the backup that was restored is overwritten, after it was verified. */
  lemma ContextIsReplaced(site: Site, chain: seq<Manifest>, ord: KeyOrder, d: Disk, p: Text, context: Blob,
                          marker: Blob)
    requires chain != [] && Applicable(site, chain, ord, d)
    requires p in LatestFiles(chain) && p in Landed(chain) && FullPath(site.target, p) == ContextPath(site.target)
    ensures var e := Finished(site.target, AfterChain(site, chain, ord, d).disk, Some(context), marker);
            FullPath(site.target, p) in e.files && e.files[FullPath(site.target, p)] == context
  {
    var a := ContextPath(site.target);
    MissingUnlessLanded(site, chain, ord, d, p);
    ChainLeavesTree(site, chain, ord, d);
    assert a[..|site.target|] == site.target;
    FileIsRewritten(site.target, AfterChain(site, chain, ord, d).disk, context, marker);
  }

  /** The target, after an automatic recovery of the manifest `c`. */
  ghost predicate Recovered(w: World, c: Cid, site: Site, e: Disk, context: Option<Blob>)
    requires RankedWorld(w) && c in w.origins
  {
    var seen := w.origins[c].seen;
    && (forall p :: p in seen && Untouched(site.target, p) ==>
          (Intact(site.target, e, seen, p) <==> p in Landed(ChainOf(w, c))))
    && (forall p :: p in seen && FullPath(site.target, p) == ContextPath(site.target) && context.Some? ==>
          p in Landed(ChainOf(w, c)) ==> (Intact(site.target, e, seen, p) <==> context.value == seen[p]))
  }

  lemma FinishedIsRecovered(cfg: Config, w: World, c: Cid, site: Site, ord: KeyOrder, d: Disk, context: Option<Blob>,
                            marker: Blob)
    requires WorldOk(cfg, w) && RankedWorld(w) && c in w.origins
    requires AllComplete(site.store, site.key, ChainOf(w, c))
    requires FreshTarget(site.target, d) && AllListed(ChainOf(w, c), ord)
    ensures Recovered(w, c, site, Finished(site.target, AfterChain(site, ChainOf(w, c), ord, d).disk, context, marker),
                      context)
  {
    var chain, seen := ChainOf(w, c), w.origins[c].seen;
    var restored := AfterChain(site, chain, ord, d).disk;
    var e := Finished(site.target, restored, context, marker);
    CompleteChainIsApplicable(site, chain, ord, d);
    forall p | p in seen && Untouched(site.target, p)
      ensures Intact(site.target, e, seen, p) <==> p in Landed(chain)
    {
      IntactIffLanded(cfg, w, c, site, ord, d, p);
      FinishingTouchesTwo(site.target, restored, context, marker, FullPath(site.target, p));
    }
    forall p | p in seen && FullPath(site.target, p) == ContextPath(site.target) && context.Some? && p in Landed(chain)
      ensures Intact(site.target, e, seen, p) <==> context.value == seen[p]
    {
      EntryOpensToCaptured(cfg, w, c, site, p);
      ContextIsReplaced(site, chain, ord, d, p, context.value, marker);
    }
  }

  /** What the carrier recovers with: the last anchored record, twice. */
  ghost function Recovery(w: World, v: Layers, info: SoulInfo, site: Site, ord: KeyOrder, context: Option<Blob>,
                          marker: Blob, d: Disk): (Result<RecoveryResult, AutoRestoreError>, Disk)
    requires w.log != [] && forall m :: Listed(m, ord)
  {
    var last := w.log[|w.log| - 1];
    AutoRestored(Some(info), Some(last), Some(v), site, Latest(last), ord, context, marker, d)
  }

  /** What the steps before it amount to, when the automatic recovery goes through. */
  lemma RecoveryFinishes(w: World, v: Layers, info: SoulInfo, site: Site, ord: KeyOrder, context: Option<Blob>,
                         marker: Blob, d: Disk)
    requires w.log != [] && forall m :: Listed(m, ord)
    requires TargetsLast(w, v, info) && DelegatesToLast(w, v, info, site, ord, d)
    ensures var (r, e) := Recovery(w, v, info, site, ord, context, marker, d);
            var c, soul := LastAnchored(w), Latest(w.log[|w.log| - 1]);
            r.Ok? ==>
              && Refusal(c, site, soul) == None && Fetched(site.store, c) != []
              && Restored(c, site, soul, ord, d).0 == Ok(r.value)
              && e == Finished(site.target, AfterChain(site, Fetched(site.store, c), ord, d).disk, context, marker)
  {
  }

  /** A recovery that goes through: how it is verified, and what it leaves. */
  lemma RecoveryLeaves(cfg: Config, w: World, v: Layers, info: SoulInfo, site: Site, ord: KeyOrder,
                       context: Option<Blob>, marker: Blob, d: Disk)
    requires WorldOk(cfg, w) && RankedWorld(w) && w.log != []
    requires Grows(w.store, site.store) && site.key == cfg.key
    requires FreshTarget(site.target, d) && forall m :: Listed(m, ord)
    requires TargetsLast(w, v, info) && DelegatesToLast(w, v, info, site, ord, d) && RestoresLast(w, site, ord, d)
    ensures var (r, e) := Recovery(w, v, info, site, ord, context, marker, d);
            r.Ok? ==>
              && Recovered(w, LastAnchored(w), site, e, context)
              && (r.value.merkleVerified <==> Restorable(ChainOf(w, LastAnchored(w))))
  {
    var c := LastAnchored(w);
    var soul := Latest(w.log[|w.log| - 1]);
    RecoveryFinishes(w, v, info, site, ord, context, marker, d);
    BackupIsAccepted(cfg, w, c, site, soul);
    ChainElsewhere(cfg, w, c, site.store);
    FinishedIsRecovered(cfg, w, c, site, ord, d, context, marker);
  }

  /** What the outcome of a completed flow means, for the world the recovery met. */
  ghost predicate Guarantees(w: World, v: Layers, info: SoulInfo, site: Site, ord: KeyOrder, context: Option<Blob>,
                             marker: Blob, d: Disk, o: ResurrectionFlow.Outcome)
    requires forall m :: Listed(m, ord)
  {
    && RankedWorld(w) && w.log != [] && w.log[|w.log| - 1].manifestCid.Keccak? && LastAnchored(w) in w.origins
    && var (r, e) := Recovery(w, v, info, site, ord, context, marker, d);
       && r.Ok? && o.filesRestored == r.value.filesRestored && o.totalBytes == r.value.totalBytes
       && Recovered(w, LastAnchored(w), site, e, context)
       && (r.value.merkleVerified <==> Restorable(ChainOf(w, LastAnchored(w))))
  }

  lemma CompletionGuarantees(cfg: Config, w: World, v: Layers, info: SoulInfo, site: Site, ord: KeyOrder,
                             context: Option<Blob>, marker: Blob, d: Disk, o: ResurrectionFlow.Outcome)
    requires WorldOk(cfg, w) && RankedWorld(w) && w.log != []
    requires Grows(w.store, site.store) && site.key == cfg.key && Registered(w, v)
    requires info.active && info.backupCount == |w.log|
    requires FreshTarget(site.target, d) && forall m :: Listed(m, ord)
    requires Counts(Recovery(w, v, info, site, ord, context, marker, d).0)
          == Some(ResurrectionFlow.Restore(o.filesRestored, o.totalBytes))
    ensures Guarantees(w, v, info, site, ord, context, marker, d, o)
  {
    LastIsTargeted(cfg, w, v, info);
    TargetedIsDelegated(w, v, info, site, ord, d);
    LastIsRestored(cfg, w, site, ord, d);
    RecoveryLeaves(cfg, w, v, info, site, ord, context, marker, d);
  }

  /** After any run that anchored something: a resurrection that completed has recovered the
      manifest anchored last, with the counts it reports.  Of the captured files, leaving aside
      the two that the recovery writes itself, exactly those are there that land.  Whether that
      is all of them the recovery found out, but the flow does not ask. */
  lemma CompletedResurrectionRestores(cfg: Config, store: Store, evs: seq<Event>, serial: bool, v: Layers,
                                      info: SoulInfo, site: Site, ord: KeyOrder, context: Option<Blob>, marker: Blob,
                                      d: Disk, ctx: ResurrectionFlow.Context, around: ResurrectionFlow.Surroundings,
                                      acts: seq<ResurrectionFlow.Act>, o: ResurrectionFlow.Outcome)
    requires Runs(cfg, Init(store), evs, serial)
    requires After(cfg, Init(store), evs, serial).world.log != []
    requires Grows(After(cfg, Init(store), evs, serial).world.store, site.store) && site.key == cfg.key
    requires Registered(After(cfg, Init(store), evs, serial).world, v)
    requires info.active && info.backupCount == |After(cfg, Init(store), evs, serial).world.log|
    requires FreshTarget(site.target, d) && forall m :: Listed(m, ord)
    requires around.restore == Counts(Recovery(After(cfg, Init(store), evs, serial).world, v, info, site, ord, context,
                                               marker, d).0)
    requires ResurrectionFlow.CompletesOnlyOnceEarned(ctx, acts) && ResurrectionFlow.AllAnswered(around, acts)
    requires ResurrectionFlow.ReportsTruthfully(acts, o) && o.state.ResurrectionComplete?
    ensures Guarantees(After(cfg, Init(store), evs, serial).world, v, info, site, ord, context, marker, d, o)
  {
    EveryRunIsSafe(cfg, store, evs, serial);
    WorldIsRanked(cfg, After(cfg, Init(store), evs, serial).world);
    ResurrectionFlow.CompletionReportsRestore(ctx, around, acts, o);
    CompletionGuarantees(cfg, After(cfg, Init(store), evs, serial).world, v, info, site, ord, context, marker, d, o);
  }
}
