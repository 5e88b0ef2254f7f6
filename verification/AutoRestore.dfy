// Automatic recovery, as the carrier uses it.

module AutoRestoration {
  import opened Wrappers
  import opened SoulTypes
  import opened Paths
  import opened FileSystem
  import opened Downloader
  import opened CidResolution
  import opened StateRestorer
  import opened ChainRecovery

  import ChainResolver

  datatype AutoRestoreError = RecoveryFailed(cause: RecoveryError) | MarkerFailed

  function ContextPath(target: Abs): Abs {
    target + ["RECOVERY_CONTEXT.md"]
  }

  function MarkerPath(target: Abs): Abs {
    target + [".coc-backup", "restore-complete.json"]
  }

  ghost function WithContext(target: Abs, d: Disk, context: Option<Blob>): Disk {
    if context.Some? then AfterWriteAlone(d, ContextPath(target), context.value) else d
  }

  /** After a recovery that went through, the context is written if it can be made and written,
      and then the marker, without which the whole fails. */
  ghost function Finished(target: Abs, d: Disk, context: Option<Blob>, marker: Blob): Disk {
    AfterWrite(WithContext(target, d, context), MarkerPath(target), marker)
  }

  ghost predicate Marks(target: Abs, d: Disk, context: Option<Blob>) {
    CanWrite(WithContext(target, d, context), MarkerPath(target))
  }

  ghost function AutoRestored(info: Option<SoulInfo>, latest: Option<OnChainBackup>, resolver: Option<Layers>,
                              site: Site, again: ChainView, ord: KeyOrder, context: Option<Blob>, marker: Blob, d: Disk)
    : (Result<RecoveryResult, AutoRestoreError>, Disk)
    requires forall m :: Listed(m, ord)
  {
    var (recovery, e) := RestoredFromChain(info, latest, resolver, site, again, ord, d);
    match recovery
    case Err(cause) => (Err(RecoveryFailed(cause)), e)
    case Ok(value) =>
      (if Marks(site.target, e, context) then Ok(value) else Err(MarkerFailed),
       Finished(site.target, e, context, marker))
  }

  /** Exactly what is left: after a refused recovery, the disk as it was; otherwise the recovered
      disk, with the context file where its directory is there, and with the marker, whose place
      alone decides between success and failure. */
  lemma AutoRestoreIsExact(info: Option<SoulInfo>, latest: Option<OnChainBackup>, resolver: Option<Layers>,
                           site: Site, again: ChainView, ord: KeyOrder, context: Option<Blob>, marker: Blob, d: Disk)
    requires forall m :: Listed(m, ord)
    ensures var (recovery, e) := RestoredFromChain(info, latest, resolver, site, again, ord, d);
            var (r, after) := AutoRestored(info, latest, resolver, site, again, ord, context, marker, d);
            && (recovery.Err? ==> r == Err(RecoveryFailed(recovery.error)) && after == d)
            && (recovery.Ok? ==>
                  && (r == Ok(recovery.value) || r == Err(MarkerFailed))
                  && (r.Ok? <==> MarkerPath(site.target) !in e.dirs && MarkerPath(site.target) !in e.denied
                                 && forall k :: 0 <= k < |site.target| + 2 ==>
                                      MarkerPath(site.target)[..k] !in WithContext(site.target, e, context).files)
                  && (r.Ok? ==>
                        MarkerPath(site.target) in after.files && after.files[MarkerPath(site.target)] == marker)
                  && forall a :: a != MarkerPath(site.target) ==>
                       (a in after.files <==> a in WithContext(site.target, e, context).files)
                       && (a in after.files ==> after.files[a] == WithContext(site.target, e, context).files[a]))
  {
    RecoveryErrorsAreExact(info, latest, resolver, site, again, ord, d, "");
  }

  /** autoRestore; `context` is the Markdown made of the restored snapshot, absent when making it threw. */
  method AutoRestore(info: Option<SoulInfo>, latest: Option<OnChainBackup>, resolver: CidResolver?, rereadable: bool,
                     site: Site, again: ChainView, ord: KeyOrder, context: Option<Blob>, marker: Blob, fs: FileStore)
    returns (r: Result<RecoveryResult, AutoRestoreError>)
    requires forall m :: Listed(m, ord)
    modifies fs, resolver
    ensures (r, fs.View()) == AutoRestored(info, latest, old(ChainResolver.ViewOf(resolver)), site, again, ord,
                                           context, marker, old(fs.View()))
  {
    var recovery := RestoreFromChain(info, latest, resolver, rereadable, site, again, ord, fs);
    if recovery.Err? {
      return Err(RecoveryFailed(recovery.error));
    }
    if context.Some? {
      var _ := fs.WriteAlone(ContextPath(site.target), context.value);
    }
    var marked := fs.WriteFile(MarkerPath(site.target), marker);
    return if marked then Ok(recovery.value) else Err(MarkerFailed);
  }
}
