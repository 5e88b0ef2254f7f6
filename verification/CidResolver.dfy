// From on-chain hashes back to CIDs.

module CidResolution {
  import opened SoulTypes

  /** The three places a CID can be looked up, and which of them answer at the moment.  An index
      file that cannot be read or parsed is taken for an empty one. */
  datatype Layers = Layers(
    local: map<Bytes32, Cid>,
    indexReadable: bool,
    indexWritable: bool,
    mfs: map<Bytes32, Cid>,
    mfsReadable: bool,
    mfsWritable: bool,
    registry: map<Bytes32, Cid>,
    registryUp: bool)

  datatype Answer = Found(cid: Cid) | NotFound | Threw

  predicate Matches(m: map<Bytes32, Cid>, h: Bytes32) {
    h in m && Keccak(m[h]) == h
  }

  /** What readLocalIndex returns. */
  function ReadIndex(v: Layers): map<Bytes32, Cid> {
    if v.indexReadable then v.local else map[]
  }

  /** The answer of MFS and the registry.  A failed write of the local index surfaces as an
      exception after an MFS hit, and as "not found" after a registry hit. */
  function SlowLookup(v: Layers, h: Bytes32): Answer {
    if v.mfsReadable && Matches(v.mfs, h) && v.mfs[h] != "" then
      if v.indexWritable then Found(v.mfs[h]) else Threw
    else if v.registryUp && Matches(v.registry, h) && v.registry[h] != "" && v.indexWritable then Found(v.registry[h])
    else NotFound
  }

  function Lookup(v: Layers, h: Bytes32): Answer {
    if Matches(ReadIndex(v), h) then Found(v.local[h]) else SlowLookup(v, h)
  }

  /** cacheLocally writes back what it could read, and the new entry. */
  function Cached(v: Layers, h: Bytes32, cid: Cid, readable: bool): Layers {
    v.(local := (if readable then v.local else map[])[h := cid])
  }

  /** resolve fills the cache with what MFS or the registry answered. */
  predicate Fills(v: Layers, h: Bytes32) {
    !Matches(ReadIndex(v), h) && SlowLookup(v, h).Found?
  }

  /** `rereadable` is about the second time resolve reads the index, before it writes it. */
  function AfterResolve(v: Layers, h: Bytes32, rereadable: bool): Layers {
    if Fills(v, h) then Cached(v, h, SlowLookup(v, h).cid, rereadable) else v
  }

  /** register succeeds as soon as the local index is written; the other layers are best effort. */
  predicate Registers(v: Layers, h: Bytes32, cid: Cid) {
    Keccak(cid) == h && v.indexWritable
  }

  function AfterRegister(v: Layers, h: Bytes32, cid: Cid): Layers {
    if !Registers(v, h, cid) then v
    else
      Cached(v, h, cid, v.indexReadable).(
        mfs := if v.mfsWritable then (if v.mfsReadable then v.mfs else map[])[h := cid] else v.mfs,
        registry := if v.registryUp && h !in v.registry then v.registry[h := cid] else v.registry)
  }

  class CidResolver {
    var local: map<Bytes32, Cid>
    var indexReadable: bool
    var indexWritable: bool
    var mfs: map<Bytes32, Cid>
    var mfsReadable: bool
    var mfsWritable: bool
    var registry: map<Bytes32, Cid>
    var registryUp: bool

    ghost function View(): Layers
      reads this
    {
      Layers(local, indexReadable, indexWritable, mfs, mfsReadable, mfsWritable, registry, registryUp)
    }

    constructor (v: Layers)
      ensures View() == v
    {
      local, indexReadable, indexWritable := v.local, v.indexReadable, v.indexWritable;
      mfs, mfsReadable, mfsWritable := v.mfs, v.mfsReadable, v.mfsWritable;
      registry, registryUp := v.registry, v.registryUp;
    }

    method ReadLocalIndex(readable: bool) returns (index: map<Bytes32, Cid>)
      ensures index == if readable then local else map[]
    {
      index := if readable then local else map[];
    }

    /** Read-modify-write of the local index file. */
    method CacheLocally(h: Bytes32, cid: Cid, readable: bool) returns (ok: bool)
      modifies this`local
      ensures ok == indexWritable
      ensures View() == if ok then old(Cached(View(), h, cid, readable)) else old(View())
    {
      var index := ReadLocalIndex(readable);
      if indexWritable {
        local := index[h := cid];
      }
      return indexWritable;
    }

    method Resolve(h: Bytes32, rereadable: bool) returns (a: Answer)
      modifies this
      ensures a == old(Lookup(View(), h))
      ensures View() == old(AfterResolve(View(), h, rereadable))
    {
      var index := ReadLocalIndex(indexReadable);
      if h in index && Keccak(index[h]) == h {
        return Found(index[h]);
      }
      if mfsReadable && h in mfs && mfs[h] != "" && Keccak(mfs[h]) == h {
        var ok := CacheLocally(h, mfs[h], rereadable);
        return if ok then Found(mfs[h]) else Threw;
      }
      if registryUp && h in registry && registry[h] != "" && Keccak(registry[h]) == h {
        var ok := CacheLocally(h, registry[h], rereadable);
        if ok {
          return Found(registry[h]);
        }
      }
      return NotFound;
    }

    method Register(h: Bytes32, cid: Cid) returns (ok: bool)
      modifies this
      ensures ok == old(Registers(View(), h, cid))
      ensures View() == old(AfterRegister(View(), h, cid))
    {
      if Keccak(cid) != h {
        return false;
      }
      ok := CacheLocally(h, cid, indexReadable);
      if !ok {
        return false;
      }
      if mfsWritable {
        var existing := if mfsReadable then mfs else map[];
        mfs := existing[h := cid];
      }
      if registryUp && h !in registry {
        registry := registry[h := cid];
      }
    }
  }

  /** Whatever the layers hold, an answer hashes to the request, so any two answers to one
      request agree, warm or cold; and resolving adds nothing unverified to the cache. */
  lemma AnswersAreCoherent(v: Layers, u: Layers, h: Bytes32, rereadable: bool)
    ensures Lookup(v, h).Found? ==> Keccak(Lookup(v, h).cid) == h
    ensures Lookup(v, h).Found? && Lookup(u, h).Found? ==> Lookup(v, h) == Lookup(u, h)
    ensures var u' := AfterResolve(v, h, rereadable);
            && (forall k :: k in u'.local ==> Matches(u'.local, k) || (k in v.local && u'.local[k] == v.local[k]))
            && (Lookup(v, h).Found? ==> Lookup(u', h) == Lookup(v, h))
  {
  }

  /** The map leads from the hash to this CID. */
  predicate Knows(m: map<Bytes32, Cid>, h: Bytes32, c: Cid) {
    h in m && m[h] == c && Keccak(c) == h
  }

  /** MFS or the registry leads from the hash to this CID, and answers. */
  predicate KnownElsewhere(v: Layers, h: Bytes32, c: Cid) {
    c != "" && ((v.mfsReadable && Knows(v.mfs, h, c)) || (v.registryUp && Knows(v.registry, h, c)))
  }

  /** Which layers suffice: the index alone, or either of the others if the index can be written. */
  lemma LayersSuffice(v: Layers, h: Bytes32, c: Cid)
    ensures Lookup(v, h) == Found(c)
       <==> (v.indexReadable && Knows(v.local, h, c)) || (v.indexWritable && KnownElsewhere(v, h, c))
    ensures Keccak(c) == h ==>
              (Lookup(v, h) == Threw <==>
                 && !(v.indexReadable && Knows(v.local, h, c)) && !v.indexWritable
                 && c != "" && v.mfsReadable && Knows(v.mfs, h, c))
  {
  }

  /** What register writes where: the index always, MFS and the registry where they answer; an
      entry of the registry never changes, and a failed registration changes nothing. */
  lemma RegisterReachesLayers(v: Layers, h: Bytes32, cid: Cid, k: Bytes32)
    ensures Registers(v, h, cid) <==> v.indexWritable && Keccak(cid) == h
    ensures var u := AfterRegister(v, h, cid);
            if !Registers(v, h, cid) then u == v
            else
              && Knows(u.local, h, cid)
              && (if v.mfsWritable then Knows(u.mfs, h, cid) else u.mfs == v.mfs)
              && (v.registryUp && h !in v.registry ==> Knows(u.registry, h, cid))
              && (!v.registryUp ==> u.registry == v.registry)
              && (k in v.registry ==> k in u.registry && u.registry[k] == v.registry[k])
              && (k != h ==> (k in u.registry <==> k in v.registry))
  {
  }

  lemma FillsExactly(v: Layers, h: Bytes32, c: Cid)
    ensures v.indexWritable && KnownElsewhere(v, h, c) && !(v.indexReadable && Knows(v.local, h, c))
       ==> Fills(v, h) && SlowLookup(v, h) == Found(c)
    ensures Fills(v, h) && Keccak(c) == h ==>
              v.indexWritable && KnownElsewhere(v, h, c) && !(v.indexReadable && Knows(v.local, h, c))
  {
    LayersSuffice(v, h, c);
  }

  /** What resolve leaves: a CID found elsewhere is in the index; nothing else changes. */
  lemma ResolveFillsIndex(v: Layers, h: Bytes32, rereadable: bool, c: Cid)
    ensures var u := AfterResolve(v, h, rereadable);
            && u == v.(local := u.local)
            && (if v.indexWritable && KnownElsewhere(v, h, c) && !(v.indexReadable && Knows(v.local, h, c))
                then Knows(u.local, h, c) && u.local - {h} == (if rereadable then v.local - {h} else map[])
                else Keccak(c) == h ==> u == v)
  {
    FillsExactly(v, h, c);
  }

  /** Every verified entry of the index `v` is still there in `later`. */
  ghost predicate KeepsIndex(v: Layers, later: Layers) {
    forall k :: Matches(v.local, k) ==> Matches(later.local, k)
  }

  /** The operation has no verified entry to lose besides the one it writes. */
  ghost predicate NothingElseKnown(v: Layers, h: Bytes32) {
    forall k :: Matches(v.local, k) ==> k == h
  }

  /** Registering keeps what the index knows exactly when the index could be read first, or
      knew nothing else. */
  lemma RegisterKeepsIndexIff(v: Layers, h: Bytes32, cid: Cid)
    ensures KeepsIndex(v, AfterRegister(v, h, cid))
       <==> !Registers(v, h, cid) || v.indexReadable || NothingElseKnown(v, h)
  {
    var u := AfterRegister(v, h, cid);
    if Registers(v, h, cid) && !v.indexReadable && KeepsIndex(v, u) {
      forall k | Matches(v.local, k) ensures k == h {
        assert Matches(u.local, k);
      }
    }
  }

  /** And so does resolving, which writes only after an answer from the other layers, and reads
      the index once more before it does. */
  lemma ResolveKeepsIndexIff(v: Layers, h: Bytes32, rereadable: bool)
    ensures KeepsIndex(v, AfterResolve(v, h, rereadable)) <==> !Fills(v, h) || rereadable || NothingElseKnown(v, h)
  {
    var u := AfterResolve(v, h, rereadable);
    if Fills(v, h) && !rereadable && KeepsIndex(v, u) {
      forall k | Matches(v.local, k) ensures k == h {
        assert Matches(u.local, k);
      }
    }
  }

  /** The entry `k` goes when the cache is filled for `h`, and no other layer knows it. */
  predicate Forgets(v: Layers, h: Bytes32, rereadable: bool, k: Bytes32) {
    && Fills(v, h) && v.indexReadable && !rereadable
    && k != h && Matches(v.local, k) && SlowLookup(v, k) != Found(v.local[k])
  }

  /** Filling the cache changes the answer to another request exactly when the index could be read
      first and not a second time, and only the index knew that answer.  What is lost while the
      index cannot be read at all shows when it can be read again. */
  lemma ResolvingChangesNoAnswer(v: Layers, h: Bytes32, rereadable: bool, k: Bytes32)
    ensures Lookup(AfterResolve(v, h, rereadable), k) == Lookup(v, k) <==> !Forgets(v, h, rereadable, k)
    ensures KeepsIndex(v, AfterResolve(v, h, rereadable)) && Matches(v.local, k) ==>
              Lookup(AfterResolve(v, h, rereadable).(indexReadable := true), k) == Lookup(v.(indexReadable := true), k)
  {
    AnswersAreCoherent(v, v, h, rereadable);
    AnswersAreCoherent(v, v, k, rereadable);
  }

  /** After a successful register, and whatever becomes of the other layers, the CID resolves
      from the index whenever the index can be read, and otherwise if they answer.  The other
      verified entries resolve as before if the index could be read when registering. */
  lemma RegisteredStaysResolvable(v: Layers, h: Bytes32, cid: Cid, k: Bytes32, later: Layers)
    requires Registers(v, h, cid)
    requires KeepsIndex(AfterRegister(v, h, cid), later)
    ensures Lookup(later, h) == if later.indexReadable then Found(cid) else SlowLookup(later, h)
    ensures Lookup(later, h).Found? ==> Lookup(later, h) == Found(cid)
    ensures Matches(v.local, k) && v.indexReadable && later.indexReadable ==> Lookup(later, k) == Found(v.local[k])
  {
    assert Matches(AfterRegister(v, h, cid).local, h);
    AnswersAreCoherent(later, later, h, true);
    if Matches(v.local, k) && v.indexReadable {
      assert Matches(AfterRegister(v, h, cid).local, k);
    }
  }

  /** One failed read, one successful write: the CID registered before is gone. */
  lemma FailedReadLosesEntry(v: Layers)
    requires v.local == map[Keccak("a") := "a"] && v.indexWritable && !v.indexReadable
    requires v.mfs == map[] && v.registry == map[]
    ensures Lookup(v.(indexReadable := true), Keccak("a")) == Found("a")
    ensures Registers(v, Keccak("b"), "b")
    ensures Lookup(AfterRegister(v, Keccak("b"), "b").(indexReadable := true), Keccak("a")) == NotFound
  {
  }

  /** The MFS copy is lost in the same way: the other entries survive a registration exactly
      when the map could be read, or had none. */
  lemma UnreadableMapIsReplaced(v: Layers, h: Bytes32, cid: Cid)
    requires Registers(v, h, cid) && v.mfsWritable
    ensures AfterRegister(v, h, cid).mfs == v.mfs[h := cid] <==> v.mfsReadable || v.mfs.Keys <= {h}
  {
    if v.mfs.Keys <= {h} {
      assert v.mfs[h := cid].Keys == {h};
    } else if !v.mfsReadable {
      var k :| k in v.mfs && k != h;
      assert k in v.mfs[h := cid];
    }
  }
}
