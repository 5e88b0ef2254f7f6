// The archive beside the scheduler.

module ArchiveProofs {
  import opened Wrappers
  import opened SoulTypes
  import opened Chain
  import opened SchedulerModel
  import opened SchedulerSafety
  import opened ChainBound
  import opened Archive

  import Walks

  function RowOf(agentId: Text, m: Manifest): Row {
    Row(agentId, m.parentCid.Some?, m.parentCid)
  }

  /** Rows under this agent id repeat the parent links of manifests of this soul; there may be
      rows of others, and any may be missing. */
  ghost predicate Records(w: World, rows: Table, agentId: Text) {
    forall c {:trigger Hit(rows, agentId, Some(c))} :: Hit(rows, agentId, Some(c)) ==>
      c in w.origins && c in w.store && w.store[c].Json? && rows[c] == RowOf(agentId, w.store[c].manifest)
  }

  // ----- The archive beside the scheduler -----

  /** Steps of the manager: a step of the scheduler; recording an anchored backup, at any later
      time and under whatever agent id could be looked up then; deleting any rows. */
  datatype Act =
    | Scheduled(ev: Event)
    | Recorded(cid: Cid, found: Text)
    | Pruned(gone: set<Cid>)

  ghost predicate ActEnabled(cfg: Config, s: State, act: Act) {
    match act
    case Scheduled(ev) => Enabled(cfg, s, ev) && (ev.Call? ==> s.mem.initialized || s.tasks == map[])
    case Recorded(c, _) =>
      && c in s.world.store && s.world.store[c].Json? && c in s.world.origins && OnChain(s.world.log, c)
    case Pruned(_) => true
  }

  ghost function NextState(cfg: Config, s: State, act: Act): State
    requires ActEnabled(cfg, s, act)
  {
    if act.Scheduled? then Next(cfg, s, act.ev) else s
  }

  /** A second row for the same CID is refused. */
  ghost function NextRows(cfg: Config, s: State, rows: Table, act: Act): Table
    requires ActEnabled(cfg, s, act)
  {
    match act
    case Scheduled(_) => rows
    case Recorded(c, found) => if c in rows then rows else rows[c := RowOf(found, s.world.store[c].manifest)]
    case Pruned(gone) => rows - gone
  }

  /** `acts` lead from `s` and `rows` to `t` and `out`, without overlapping initializations. */
  ghost predicate Leads(cfg: Config, s: State, rows: Table, acts: seq<Act>, t: State, out: Table)
    decreases |acts|
  {
    if acts == [] then t == s && out == rows
    else
      && ActEnabled(cfg, s, acts[0])
      && Leads(cfg, NextState(cfg, s, acts[0]), NextRows(cfg, s, rows, acts[0]), acts[1..], t, out)
  }

  /** The archive stays true as the scheduler goes on. */
  lemma RecordsSurviveGrowth(a: World, b: World, rows: Table, agentId: Text)
    requires WorldGrows(a, b) && Records(a, rows, agentId)
    ensures Records(b, rows, agentId)
  {
  }

  /** It stays true as backups are recorded, also under an empty agent id, and rows deleted. */
  lemma RecordingKeepsRecords(cfg: Config, s: State, rows: Table, agentId: Text, act: Act)
    requires Records(s.world, rows, agentId) && ActEnabled(cfg, s, act) && !act.Scheduled?
    ensures Records(s.world, NextRows(cfg, s, rows, act), agentId)
    ensures act.Recorded? ==>
              var out := NextRows(cfg, s, rows, act);
              var parent := s.world.store[act.cid].manifest.parentCid;
              && act.cid in out
              && (act.cid !in rows ==> out[act.cid] == Row(act.found, parent != None, parent))
              && (forall c :: c in rows ==> c in out && out[c] == rows[c])
    ensures act.Pruned? ==>
              var out := NextRows(cfg, s, rows, act);
              forall c :: (c in out <==> c in rows && c !in act.gone) && (c in out ==> out[c] == rows[c])
  {
    var out := NextRows(cfg, s, rows, act);
    forall c | Hit(out, agentId, Some(c))
      ensures c in s.world.origins && c in s.world.store && s.world.store[c].Json?
      ensures out[c] == RowOf(agentId, s.world.store[c].manifest)
    {
      assert c in rows && out[c] == rows[c] ==> Hit(rows, agentId, Some(c));
    }
  }

  lemma {:induction false} ActsKeepRecords(cfg: Config, s: State, rows: Table, acts: seq<Act>, t: State, out: Table,
                                           agentId: Text)
    requires Inv(cfg, s) && Bounded(cfg, s) && Records(s.world, rows, agentId)
    requires Leads(cfg, s, rows, acts, t, out)
    ensures Inv(cfg, t) && Bounded(cfg, t) && Records(t.world, out, agentId)
    decreases |acts|
  {
    if acts != [] {
      var act := acts[0];
      if act.Scheduled? {
        SafeStepIsOrderly(cfg, s, act.ev);
        StepKeepsInv(cfg, s, act.ev);
        StepKeepsBound(cfg, s, act.ev);
        RecordsSurviveGrowth(s.world, Next(cfg, s, act.ev).world, rows, agentId);
      } else {
        RecordingKeepsRecords(cfg, s, rows, agentId, act);
      }
      ActsKeepRecords(cfg, NextState(cfg, s, act), NextRows(cfg, s, rows, act), acts[1..], t, out, agentId);
    }
  }

  // ----- What is counted -----

  /** How many manifests back from `c` are recorded without a gap. */
  ghost function RecordedFrom(w: World, rows: Table, agentId: Text, c: Cid): nat
    requires RankedWorld(w) && c in w.origins
    decreases Ranks(w.origins)[c]
  {
    assert RankedAt(w.store, Ranks(w.origins), c);
    var p := w.store[c].manifest.parentCid;
    if !Hit(rows, agentId, Some(c)) then 0
    else 1 + if p.Some? then RecordedFrom(w, rows, agentId, p.value) else 0
  }

  ghost predicate AllRecorded(w: World, rows: Table, agentId: Text, c: Cid)
    requires RankedWorld(w) && c in w.origins
    decreases Ranks(w.origins)[c]
  {
    assert RankedAt(w.store, Ranks(w.origins), c);
    && Hit(rows, agentId, Some(c))
    && var p := w.store[c].manifest.parentCid;
       p.Some? ==> AllRecorded(w, rows, agentId, p.value)
  }

  lemma {:induction false} CountFollowsChain(cfg: Config, w: World, rows: Table, agentId: Text, c: Cid)
    requires WorldOk(cfg, w) && RankedWorld(w) && c in w.origins && Records(w, rows, agentId)
    ensures Archive.Stops(rows, agentId, Some(c), Ranks(w.origins)[c])
    ensures CountWithin(rows, agentId, Some(c), Ranks(w.origins)[c]) == RecordedFrom(w, rows, agentId, c)
    decreases Ranks(w.origins)[c]
  {
    assert StoredManifest(cfg, w, c) && RankedAt(w.store, Ranks(w.origins), c);
    var p := w.store[c].manifest.parentCid;
    if Hit(rows, agentId, Some(c)) && p.Some? {
      CountFollowsChain(cfg, w, rows, agentId, p.value);
      StopsLater(rows, agentId, p, Ranks(w.origins)[p.value], Ranks(w.origins)[c] - 1);
      CountNeedsNoMore(rows, agentId, p, Ranks(w.origins)[p.value], Ranks(w.origins)[c] - 1);
    }
  }

  lemma {:induction false} RecordedIsAtMostTheChain(cfg: Config, w: World, rows: Table, agentId: Text, c: Cid)
    requires WorldOk(cfg, w) && RankedWorld(w) && c in w.origins
    ensures RecordedFrom(w, rows, agentId, c) <= |ChainOf(w, c)|
    ensures RecordedFrom(w, rows, agentId, c) == |ChainOf(w, c)| <==> AllRecorded(w, rows, agentId, c)
    decreases Ranks(w.origins)[c]
  {
    assert StoredManifest(cfg, w, c) && RankedAt(w.store, Ranks(w.origins), c);
    var p := w.store[c].manifest.parentCid;
    if p.Some? {
      RecordedIsAtMostTheChain(cfg, w, rows, agentId, p.value);
    }
  }

  ghost predicate CountMatches(cfg: Config, s: State, rows: Table, agentId: Text) {
    var head := s.mem.lastManifestCid;
    head.Some? ==>
      && RankedWorld(s.world) && head.value in s.world.origins
      && s.mem.incrementalCount <= cfg.maxIncrementalChain
      && !Archive.Cyclic(rows, agentId, head.value)
      && var count := Count(rows, agentId, head.value);
         && count <= s.mem.incrementalCount + 1
         && (count == s.mem.incrementalCount + 1 <==> AllRecorded(s.world, rows, agentId, head.value))
  }

  lemma BoundedCountMatches(cfg: Config, s: State, rows: Table, agentId: Text)
    requires Inv(cfg, s) && Bounded(cfg, s) && Records(s.world, rows, agentId)
    ensures CountMatches(cfg, s, rows, agentId)
  {
    if s.mem.lastManifestCid.Some? {
      var c := s.mem.lastManifestCid.value;
      CountFollowsChain(cfg, s.world, rows, agentId, c);
      RecordedIsAtMostTheChain(cfg, s.world, rows, agentId, c);
      assert StoredManifest(cfg, s.world, c);
      StopsSoCounted(rows, agentId, c, Ranks(s.world.origins)[c]);
    }
  }

  /** Scheduler and archive together, from a new soul and a table with rows of others at most,
      over any interleaving of backups without overlapping initializations, of recording and
      of deleting: counting back from the scheduler's head always ends, never finds more than
      `incrementalCount` + 1 rows, and finds exactly that many when, and only when, no backup
      of the chain is missing from the archive. */
  lemma ArchiveCountMatchesScheduler(cfg: Config, store: Store, rows: Table, acts: seq<Act>, t: State, out: Table,
                                     agentId: Text)
    requires forall c :: c in rows ==> rows[c].agentId != agentId
    requires Leads(cfg, Init(store), rows, acts, t, out)
    ensures CountMatches(cfg, t, out, agentId)
  {
    ActsKeepRecords(cfg, Init(store), rows, acts, t, out, agentId);
    BoundedCountMatches(cfg, t, out, agentId);
  }

  /** The shortest cycle: a row that names itself as parent. */
  lemma SelfParentKeepsCounting(rows: Table, agentId: Text, c: Cid, n: nat)
    requires Continues(rows, agentId, Some(c)) && rows[c].parentCid == Some(c)
    ensures Archive.Cyclic(rows, agentId, c) && !Archive.Stops(rows, agentId, Some(c), n)
  {
    assert Walks.Reach(Archive.Links(rows, agentId), c, 0) == Some(c);
    assert Walks.Reach(Archive.Links(rows, agentId), c, 1) == Some(c);
    CyclicNeverStops(rows, agentId, c, n);
  }
}
