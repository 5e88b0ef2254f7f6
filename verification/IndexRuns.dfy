// Calls that read and write the local CID index at the same time.

module IndexRuns {
  import opened SoulTypes
  import opened CidResolution

  /** One cacheLocally, of a register or of a resolve that found its CID elsewhere: it is about
      to read the index file, or holds what it read. */
  datatype Writer = Reading(h: Bytes32, cid: Cid) | Holding(h: Bytes32, cid: Cid, snapshot: map<Bytes32, Cid>)

  datatype State = State(index: map<Bytes32, Cid>, writers: map<nat, Writer>)

  datatype Event =
    | Begun(w: nat, h: Bytes32, cid: Cid)
    | Read(w: nat)
    | ReadFailed(w: nat)
    | Written(w: nat)
    | WriteFailed(w: nat)

  /** Callers check the hash before they cache. */
  predicate Enabled(s: State, ev: Event) {
    match ev
    case Begun(w, h, cid) => w !in s.writers && Keccak(cid) == h
    case Read(w) => w in s.writers && s.writers[w].Reading?
    case ReadFailed(w) => w in s.writers && s.writers[w].Reading?
    case Written(w) => w in s.writers && s.writers[w].Holding?
    case WriteFailed(w) => w in s.writers && s.writers[w].Holding?
  }

  /** An index that cannot be read counts as empty; the file is replaced as a whole. */
  function Next(s: State, ev: Event): State
    requires Enabled(s, ev)
  {
    match ev
    case Begun(w, h, cid) => s.(writers := s.writers[w := Reading(h, cid)])
    case Read(w) => s.(writers := s.writers[w := Holding(s.writers[w].h, s.writers[w].cid, s.index)])
    case ReadFailed(w) => s.(writers := s.writers[w := Holding(s.writers[w].h, s.writers[w].cid, map[])])
    case Written(w) =>
      State(s.writers[w].snapshot[s.writers[w].h := s.writers[w].cid], s.writers - {w})
    case WriteFailed(w) => s.(writers := s.writers - {w})
  }

  /** With `readable`, no read fails; with `serial`, none begins while another writer holds what it read. */
  ghost predicate Runs(s: State, evs: seq<Event>, readable: bool, serial: bool)
    decreases |evs|
  {
    evs == [] ||
    (&& Enabled(s, evs[0])
     && (readable ==> !evs[0].ReadFailed?)
     && (serial && (evs[0].Read? || evs[0].ReadFailed?) ==> NoneHolds(s))
     && Runs(Next(s, evs[0]), evs[1..], readable, serial))
  }

  ghost function After(s: State, evs: seq<Event>, readable: bool, serial: bool): State
    requires Runs(s, evs, readable, serial)
    decreases |evs|
  {
    if evs == [] then s else After(Next(s, evs[0]), evs[1..], readable, serial)
  }

  ghost predicate NoneHolds(s: State) {
    forall w :: w in s.writers ==> s.writers[w].Reading?
  }

  /** A writer that was not overtaken does what one step of the resolver does. */
  lemma UndisturbedWriteIsCached(v: Layers, s: State, w: nat, h: Bytes32, cid: Cid, readable: bool)
    requires s.index == v.local && w in s.writers && s.writers[w] == Reading(h, cid)
    ensures var ev := if readable then Read(w) else ReadFailed(w);
            Enabled(s, ev) && Enabled(Next(s, ev), Written(w))
            && Next(Next(s, ev), Written(w)).index == Cached(v, h, cid, readable).local
  {
  }

  /** Whatever the writers do from here on, `k` stays in the index, as long as it can be read. */
  ghost predicate Lasts(s: State, k: Bytes32) {
    forall evs :: Runs(s, evs, true, false) ==> Matches(After(s, evs, true, false).index, k)
  }

  /** The writer puts back an index that has `k`. */
  predicate Spares(w: Writer, k: Bytes32) {
    w.Reading? || w.h == k || Matches(w.snapshot, k)
  }

  ghost predicate AllSpare(s: State, k: Bytes32) {
    forall w :: w in s.writers ==> Spares(s.writers[w], k)
  }

  ghost predicate Hashed(s: State) {
    forall w :: w in s.writers ==> Keccak(s.writers[w].cid) == s.writers[w].h
  }

  lemma {:induction false} RunKeepsEntry(s: State, evs: seq<Event>, k: Bytes32)
    requires Hashed(s) && Matches(s.index, k) && AllSpare(s, k) && Runs(s, evs, true, false)
    ensures Matches(After(s, evs, true, false).index, k)
    decreases |evs|
  {
    if evs != [] {
      RunKeepsEntry(Next(s, evs[0]), evs[1..], k);
    }
  }

  lemma {:induction false} RunKeepsHashed(s: State, evs: seq<Event>, readable: bool, serial: bool)
    requires Hashed(s) && Runs(s, evs, readable, serial)
    ensures Hashed(After(s, evs, readable, serial))
    decreases |evs|
  {
    if evs != [] {
      RunKeepsHashed(Next(s, evs[0]), evs[1..], readable, serial);
    }
  }

  /** An entry stays, whatever follows, if and only if it is in the index and in everything that
      writers of other entries hold. */
  lemma EntryLastsIff(s: State, k: Bytes32)
    requires Hashed(s)
    ensures Lasts(s, k) <==> Matches(s.index, k) && AllSpare(s, k)
  {
    if Matches(s.index, k) && AllSpare(s, k) {
      forall evs | Runs(s, evs, true, false) ensures Matches(After(s, evs, true, false).index, k) {
        RunKeepsEntry(s, evs, k);
      }
    } else if !Matches(s.index, k) {
      assert Runs(s, [], true, false) && After(s, [], true, false) == s;
    } else {
      var w :| w in s.writers && !Spares(s.writers[w], k);
      var evs := [Written(w)];
      assert evs[1..] == [];
      assert Runs(s, evs, true, false) && After(s, evs, true, false) == Next(s, Written(w));
    }
  }

  /** After any run, with failed reads and writes: what a writer has just put into the index can
      no longer be lost to an overlap if and only if no writer of another entry holds an index
      without it, that is, one read before. */
  lemma WrittenLastsIff(index: map<Bytes32, Cid>, evs: seq<Event>, readable: bool, w: nat)
    requires Runs(State(index, map[]), evs, readable, false)
    requires Enabled(After(State(index, map[]), evs, readable, false), Written(w))
    ensures var s := After(State(index, map[]), evs, readable, false);
            var h := s.writers[w].h;
            Lasts(Next(s, Written(w)), h) <==> forall u :: u in s.writers && u != w ==> Spares(s.writers[u], h)
  {
    RunKeepsHashed(State(index, map[]), evs, readable, false);
    var s := After(State(index, map[]), evs, readable, false);
    var t := Next(s, Written(w));
    EntryLastsIff(t, s.writers[w].h);
    assert forall u :: u in t.writers <==> u in s.writers && u != w;
  }

  /** The only writer past its read holds the index as it is. */
  ghost predicate Current(s: State) {
    && (forall w :: w in s.writers && s.writers[w].Holding? ==> s.writers[w].snapshot == s.index)
    && (forall u, w :: u in s.writers && w in s.writers && s.writers[u].Holding? && s.writers[w].Holding? ==> u == w)
  }

  /** When no read begins while another writer holds what it read, and no read fails, nothing
      that was ever in the index goes. */
  lemma {:induction false} SerialRunsLoseNothing(s: State, evs: seq<Event>, k: Bytes32)
    requires Hashed(s) && Current(s) && Matches(s.index, k) && Runs(s, evs, true, true)
    ensures Matches(After(s, evs, true, true).index, k)
    decreases |evs|
  {
    if evs != [] {
      SerialRunsLoseNothing(Next(s, evs[0]), evs[1..], k);
    }
  }
}
