/** The shared cache stays coherent with the best block through reorganisations and commits. */
module CacheCoherence {
  import opened Basics
  import opened LruMap
  import opened BlockStates
  import opened CacheModel

  // ----- marking blocks

  /** The same entries up to their canonical flags. */
  ghost predicate SameBlocks(mods: seq<BlockChanges>, mods': seq<BlockChanges>)
  {
    && |mods| == |mods'|
    && forall i :: 0 <= i < |mods| ==> mods'[i] == mods[i].(isCanon := mods'[i].isCanon)
  }

  lemma SameBlocksFacts(mods: seq<BlockChanges>, mods': seq<BlockChanges>, h: Hash)
    requires SameBlocks(mods, mods')
    ensures IndexOfBlock(mods', h) == IndexOfBlock(mods, h)
  {
  }

  /** No entry of the cache is for a key that the block changes. */
  ghost predicate Untouched(b: Block, c: Cache)
  {
    && (forall e <- c.storage :: !Changed(b, Top(e.0)))
    && (forall e <- c.hashes :: !Changed(b, Top(e.0)))
    && (forall e <- c.child :: !Changed(b, Child(e.0)))
  }

  /** `c'` holds no entry that `c` does not hold. */
  ghost predicate Fewer(c': Cache, c: Cache)
  {
    && (forall e <- c'.storage :: e in c.storage)
    && (forall e <- c'.hashes :: e in c.hashes)
    && (forall e <- c'.child :: e in c.child)
    && (DistinctKeys(c.storage) ==> DistinctKeys(c'.storage))
    && (DistinctKeys(c.hashes) ==> DistinctKeys(c'.hashes))
    && (DistinctKeys(c.child) ==> DistinctKeys(c'.child))
  }

  lemma FewerKeepsCoherent(w: World, h: Hash, c: Cache, c': Cache)
    requires Coherent(w, h, c) && Fewer(c', c)
    ensures Coherent(w, h, c')
  {
  }

  lemma PurgeFacts(w: World, c: Cache, h: Hash, canon: bool)
    requires Listed(c.mods, h) && Faithful(w, c.mods[IndexOfBlock(c.mods, h)])
    ensures var c' := Purge(c, IndexOfBlock(c.mods, h), canon);
            && SameBlocks(c.mods, c'.mods)
            && Fewer(c', c)
            && Untouched(w.blocks[h], c')
            && forall g :: CanonFlag(c'.mods, g) == if g == h then canon else CanonFlag(c.mods, g)
  {
    var i := IndexOfBlock(c.mods, h);
    var m, c' := c.mods[i], Purge(c, i, canon);
    if DistinctKeys(c.storage) {
      WithoutKeepsDistinct(c.storage, m.storage);
    }
    if DistinctKeys(c.hashes) {
      WithoutKeepsDistinct(c.hashes, m.storage);
    }
    if DistinctKeys(c.child) {
      WithoutKeepsDistinct(c.child, m.childStorage);
    }
    forall g
      ensures CanonFlag(c'.mods, g) == if g == h then canon else CanonFlag(c.mods, g)
    {
      SameBlocksFacts(c.mods, c'.mods, g);
    }
  }

  lemma FewerFacts(b: Block, c: Cache, c1: Cache, c2: Cache)
    requires Fewer(c1, c) && Fewer(c2, c1)
    ensures Fewer(c2, c)
    ensures Untouched(b, c1) ==> Untouched(b, c2)
  {
  }

  lemma SameBlocksKeepsFaithful(w: World, mods: seq<BlockChanges>, mods': seq<BlockChanges>)
    requires SameBlocks(mods, mods') && forall m <- mods :: Faithful(w, m)
    ensures forall m <- mods' :: Faithful(w, m)
  {
    forall m <- mods'
      ensures Faithful(w, m)
    {
      var i :| 0 <= i < |mods'| && mods'[i] == m;
      assert Faithful(w, mods[i]);
    }
  }

  lemma {:induction false} MarkFacts(w: World, c: Cache, blocks: seq<Hash>, canon: bool)
    requires (forall m <- c.mods :: Faithful(w, m)) && Mark(c, blocks, canon).Some?
    ensures var c' := Mark(c, blocks, canon).value;
            && SameBlocks(c.mods, c'.mods)
            && Fewer(c', c)
            && (forall h <- blocks :: Listed(c.mods, h) && h in w.blocks && Untouched(w.blocks[h], c'))
            && forall g :: CanonFlag(c'.mods, g) == if g in blocks then canon else CanonFlag(c.mods, g)
    decreases |blocks|
  {
    if blocks != [] {
      hide Fewer, Untouched, Faithful, CanonFlag;
      var h, rest := blocks[0], blocks[1..];
      assert Faithful(w, c.mods[IndexOfBlock(c.mods, h)]);
      PurgeFacts(w, c, h, canon);
      var c1 := Purge(c, IndexOfBlock(c.mods, h), canon);
      SameBlocksKeepsFaithful(w, c.mods, c1.mods);
      MarkFacts(w, c1, rest, canon);
      var c2 := Mark(c1, rest, canon).value;
      assert h in w.blocks by {
        hide *;
        HashInWorld(w, c.mods, h);
      }
      FewerFacts(w.blocks[h], c, c1, c2);
      forall g <- blocks
        ensures Listed(c.mods, g) && g in w.blocks && Untouched(w.blocks[g], c2)
      {
        if g != h {
          assert g in rest;
          SameBlocksFacts(c.mods, c1.mods, g);
        }
      }
      assert forall g :: g in blocks <==> g == h || g in rest;
    }
  }

  lemma HashInWorld(w: World, mods: seq<BlockChanges>, h: Hash)
    requires Listed(mods, h) && forall m <- mods :: Faithful(w, m)
    ensures h in w.blocks
  {
    assert Faithful(w, mods[IndexOfBlock(mods, h)]);
  }

  // ----- walking the tree over listed blocks

  lemma {:induction false} ReachesTransitive(w: World, mods: seq<BlockChanges>, a: Hash, b: Hash, t: Hash)
    requires Reaches(w, mods, a, b) && Reaches(w, mods, b, t)
    ensures Reaches(w, mods, a, t)
    decreases if a in w.blocks then w.blocks[a].number + 1 else 0
  {
    if a != b {
      ReachesTransitive(w, mods, w.blocks[a].parent, b, t);
    }
  }

  lemma {:induction false} ReachesMonotone(w: World, mods: seq<BlockChanges>, mods': seq<BlockChanges>, b: Hash, t: Hash)
    requires Reaches(w, mods, b, t) && forall h :: Listed(mods, h) ==> Listed(mods', h)
    ensures Reaches(w, mods', b, t)
    decreases if b in w.blocks then w.blocks[b].number + 1 else 0
  {
    if b != t {
      ReachesMonotone(w, mods, mods', w.blocks[b].parent, t);
    }
  }

  /** From the upper end of a path of listed blocks one reaches its lower end and every block on it. */
  lemma {:induction false} PathReaches(w: World, mods: seq<BlockChanges>, c: Hash, path: seq<Hash>, n: Hash)
    requires PathUp(w, c, path, n) && forall h <- path :: Listed(mods, h)
    ensures Reaches(w, mods, n, c)
    ensures forall h <- path :: Reaches(w, mods, n, h)
    decreases |path|
  {
    if path != [] {
      var lower := path[..|path| - 1];
      assert path == lower + [n];
      PathReaches(w, mods, c, lower, w.blocks[n].parent);
    }
  }

  /** What is reached from the upper end of a path, and not on the path, is reached from its lower end. */
  lemma {:induction false} ReachesBelowPath(w: World, mods: seq<BlockChanges>, o: Hash, path: seq<Hash>, c: Hash, t: Hash)
    requires PathDown(w, o, path, c) && Reaches(w, mods, o, t) && t !in path
    ensures Reaches(w, mods, c, t)
    decreases |path|
  {
    if path != [] {
      assert o in path;
      ReachesBelowPath(w, mods, w.blocks[o].parent, path[1..], c, t);
    }
  }

  // ----- synchronising along a route

  /** As `Structured`, except that blocks in `extra` may count as canonical without being reached. */
  ghost predicate StructuredExcept(w: World, best: Hash, extra: seq<Hash>, mods: seq<BlockChanges>)
  {
    && (forall m <- mods :: Faithful(w, m))
    && Descending(mods)
    && (forall h :: CanonFlag(mods, h) ==> h in extra || Reaches(w, mods, best, h))
  }

  lemma CanonAfterRoute(w: World, mods: seq<BlockChanges>, o: Hash, n: Hash, enacted: seq<Hash>, retracted: seq<Hash>, h: Hash)
    requires IsRoute(w, o, n, enacted, retracted) && forall g <- enacted :: Listed(mods, g)
    requires h in enacted || (h !in retracted && Reaches(w, mods, o, h))
    ensures Reaches(w, mods, n, h)
  {
    var c :| RouteVia(w, o, n, c, enacted, retracted);
    PathReaches(w, mods, c, enacted, n);
    if h !in enacted {
      ReachesBelowPath(w, mods, o, retracted, c, h);
      ReachesTransitive(w, mods, n, c, h);
    }
  }

  lemma CoherentAfterRoute(w: World, o: Hash, n: Hash, c: Cache, enacted: seq<Hash>, retracted: seq<Hash>)
    requires Coherent(w, o, c) && IsRoute(w, o, n, enacted, retracted)
    requires forall h <- enacted :: h in w.blocks && Untouched(w.blocks[h], c)
    requires forall h <- retracted :: h in w.blocks && Untouched(w.blocks[h], c)
    ensures Coherent(w, n, c)
  {
    forall e <- c.storage {
      UnchangedAlongRoute(w, o, n, enacted, retracted, Top(e.0));
    }
    forall e <- c.hashes {
      UnchangedAlongRoute(w, o, n, enacted, retracted, Top(e.0));
    }
    forall e <- c.child {
      UnchangedAlongRoute(w, o, n, enacted, retracted, Child(e.0));
    }
  }

  lemma SameBlocksKeepsStructure(w: World, best: Hash, mods: seq<BlockChanges>, mods': seq<BlockChanges>)
    requires SameBlocks(mods, mods') && Descending(mods)
    ensures Descending(mods')
    ensures forall b, h :: Reaches(w, mods, b, h) ==> Reaches(w, mods', b, h)
  {
    forall b, h | Reaches(w, mods, b, h)
      ensures Reaches(w, mods', b, h)
    {
      forall g
        ensures Listed(mods, g) ==> Listed(mods', g)
      {
        SameBlocksFacts(mods, mods', g);
      }
      ReachesMonotone(w, mods, mods', b, h);
    }
  }

  /** Synchronising along the route from the old best block to `n` makes the cache coherent with `n`. */
  lemma SyncMoves(w: World, o: Hash, n: Hash, c: Cache, enacted: seq<Hash>, extra: seq<Hash>, retracted: seq<Hash>)
    requires Structured(w, o, c.mods) && Coherent(w, o, c) && IsRoute(w, o, n, enacted, retracted)
    ensures var c' := Sync(c, enacted + extra, retracted);
            Coherent(w, n, c') && |c'.mods| <= |c.mods| && StructuredExcept(w, n, extra, c'.mods)
  {
    var r1 := Mark(c, enacted + extra, true);
    if r1.Some? {
      MarkFacts(w, c, enacted + extra, true);
      var c1 := r1.value;
      SameBlocksKeepsFaithful(w, c.mods, c1.mods);
      var r2 := Mark(c1, retracted, false);
      if r2.Some? {
        MarkFacts(w, c1, retracted, false);
        SyncMovesMarked(w, o, n, c, c1, r2.value, enacted, extra, retracted);
      }
    }
  }

  lemma SyncMovesMarked(w: World, o: Hash, n: Hash, c: Cache, c1: Cache, c2: Cache,
                        enacted: seq<Hash>, extra: seq<Hash>, retracted: seq<Hash>)
    requires Structured(w, o, c.mods) && Coherent(w, o, c) && IsRoute(w, o, n, enacted, retracted)
    requires SameBlocks(c.mods, c1.mods) && SameBlocks(c1.mods, c2.mods) && Fewer(c1, c) && Fewer(c2, c1)
    requires forall h <- enacted + extra :: Listed(c.mods, h) && h in w.blocks && Untouched(w.blocks[h], c1)
    requires forall h <- retracted :: h in w.blocks && Untouched(w.blocks[h], c2)
    requires forall g :: CanonFlag(c1.mods, g) == if g in enacted + extra then true else CanonFlag(c.mods, g)
    requires forall g :: CanonFlag(c2.mods, g) == if g in retracted then false else CanonFlag(c1.mods, g)
    ensures Coherent(w, n, c2) && StructuredExcept(w, n, extra, c2.mods)
  {
    hide Coherent, Fewer, Untouched, Faithful, CanonFlag, Reaches, IsRoute;
    var some := Block(n, 0, [], []);
    FewerFacts(some, c, c1, c2);
    FewerKeepsCoherent(w, o, c, c2);
    forall h <- enacted
      ensures h in w.blocks && Untouched(w.blocks[h], c2)
    {
      assert h in enacted + extra;
      FewerFacts(w.blocks[h], c, c1, c2);
    }
    CoherentAfterRoute(w, o, n, c2, enacted, retracted);
    SameBlocksKeepsFaithful(w, c.mods, c1.mods);
    SameBlocksKeepsFaithful(w, c1.mods, c2.mods);
    SameBlocksKeepsStructure(w, o, c.mods, c1.mods);
    SameBlocksKeepsStructure(w, o, c1.mods, c2.mods);
    forall h | CanonFlag(c2.mods, h) && h !in extra
      ensures Reaches(w, c2.mods, n, h)
    {
      CanonAfterRoute(w, c.mods, o, n, enacted, retracted, h);
    }
  }

  // ----- a full list makes room, and a block is inserted

  lemma {:induction false} ReachesHasNumber(w: World, mods: seq<BlockChanges>, b: Hash, t: Hash)
    requires Reaches(w, mods, b, t) && t in w.blocks
    ensures b in w.blocks && w.blocks[b].number >= w.blocks[t].number
    ensures b != t ==> w.blocks[b].number > w.blocks[t].number
    decreases if b in w.blocks then w.blocks[b].number + 1 else 0
  {
    if b != t {
      ReachesHasNumber(w, mods, w.blocks[b].parent, t);
    }
  }

  /** Dropping the entry at the back unlists no block above one that stays listed. */
  lemma {:induction false} ReachesAfterTrim(w: World, mods: seq<BlockChanges>, b: Hash, i: nat)
    requires (forall m <- mods :: Faithful(w, m)) && Descending(mods)
    requires i < |mods| - 1 && Reaches(w, mods, b, mods[i].hash)
    ensures Reaches(w, mods[..|mods| - 1], b, mods[i].hash)
    decreases if b in w.blocks then w.blocks[b].number + 1 else 0
  {
    var t, rest := mods[i].hash, mods[..|mods| - 1];
    assert Faithful(w, mods[i]);
    if b != t {
      ReachesAfterTrim(w, mods, w.blocks[b].parent, i);
      ReachesHasNumber(w, mods, b, t);
      var j := IndexOfBlock(mods, b);
      assert Faithful(w, mods[j]);
      assert j < i;
      assert rest[j].hash == b;
    }
  }

  lemma TrimKeepsStructure(w: World, best: Hash, extra: seq<Hash>, mods: seq<BlockChanges>)
    requires StructuredExcept(w, best, extra, mods)
    ensures StructuredExcept(w, best, extra, Trimmed(mods))
  {
    if |mods| == STATE_CACHE_BLOCKS {
      var rest := Trimmed(mods);
      forall h | CanonFlag(rest, h)
        ensures h in extra || Reaches(w, rest, best, h)
      {
        var i := IndexOfBlock(rest, h);
        assert rest[i] == mods[i];
        assert IndexOfBlock(mods, h) == i;
        assert CanonFlag(mods, h);
        if h !in extra {
          ReachesAfterTrim(w, mods, best, i);
        }
      }
    }
  }

  lemma InsertedAt(mods: seq<BlockChanges>, m: BlockChanges, p: nat, r: seq<BlockChanges>)
    requires p <= |mods| && r == mods[..p] + [m] + mods[p..]
    ensures |r| == |mods| + 1 && r[p] == m
    ensures forall i :: 0 <= i < p ==> r[i] == mods[i]
    ensures forall i :: p < i < |r| ==> r[i] == mods[i - 1]
  {
  }

  lemma BelowInserted(mods: seq<BlockChanges>, number: nat)
    requires Descending(mods)
    ensures forall i :: InsertPosition(mods, number) <= i < |mods| ==> mods[i].number < number
  {
  }

  lemma InsertFlag(w: World, mods: seq<BlockChanges>, m: BlockChanges, h: Hash)
    requires (forall n <- mods :: Faithful(w, n)) && Descending(mods) && Faithful(w, m)
    ensures Listed(Insert(mods, m), h) <==> h == m.hash || Listed(mods, h)
    ensures CanonFlag(Insert(mods, m), h) == if h == m.hash && !Listed(mods, h) then m.isCanon else CanonFlag(mods, h)
  {
    var p, r := InsertPosition(mods, m.number), Insert(mods, m);
    InsertedAt(mods, m, p, r);
    BelowInserted(mods, m.number);
    var i, j := IndexOfBlock(mods, h), IndexOfBlock(r, h);
    if i < |mods| {
      assert Faithful(w, mods[i]);
      var l := if i < p then i else i + 1;
      assert r[l] == mods[i];
      assert j == l;
    } else if h == m.hash {
      assert j == p;
    }
  }

  lemma InsertFacts(w: World, mods: seq<BlockChanges>, m: BlockChanges)
    requires (forall n <- mods :: Faithful(w, n)) && Descending(mods) && Faithful(w, m)
    ensures forall n <- Insert(mods, m) :: Faithful(w, n)
    ensures Descending(Insert(mods, m))
    ensures forall h :: Listed(Insert(mods, m), h) <==> h == m.hash || Listed(mods, h)
    ensures forall h :: CanonFlag(Insert(mods, m), h) ==
                        if h == m.hash && !Listed(mods, h) then m.isCanon else CanonFlag(mods, h)
  {
    hide Faithful, CanonFlag, Listed;
    forall h
      ensures Listed(Insert(mods, m), h) <==> h == m.hash || Listed(mods, h)
      ensures CanonFlag(Insert(mods, m), h) == if h == m.hash && !Listed(mods, h) then m.isCanon else CanonFlag(mods, h)
    {
      InsertFlag(w, mods, m, h);
    }
  }

  /** A new best block on top of `n`, or `n` itself again, is recorded as canonical. */
  lemma RecordBestStructured(w: World, n: Hash, best: Hash, extra: seq<Hash>, mods: seq<BlockChanges>, m: BlockChanges)
    requires StructuredExcept(w, n, extra, mods) && forall h <- extra :: h == best
    requires Faithful(w, m) && m.hash == best && (n == best || n == m.parent)
    ensures Structured(w, best, Insert(Trimmed(mods), m))
  {
    hide Faithful, CanonFlag, Listed;
    TrimKeepsStructure(w, n, extra, mods);
    var rest := Trimmed(mods);
    InsertFacts(w, rest, m);
    var r := Insert(rest, m);
    assert best in w.blocks && w.blocks[best].parent == m.parent by {
      FaithfulParent(w, m);
    }
    forall h | CanonFlag(r, h)
      ensures Reaches(w, r, best, h)
    {
      if h != best {
        ReachesMonotone(w, rest, r, n, h);
      }
    }
  }

  lemma FaithfulParent(w: World, m: BlockChanges)
    requires Faithful(w, m)
    ensures m.hash in w.blocks && w.blocks[m.hash].parent == m.parent
  {
  }

  /** A block that does not become best is recorded without disturbing the canonical chain. */
  lemma RecordForkStructured(w: World, best: Hash, mods: seq<BlockChanges>, m: BlockChanges)
    requires Structured(w, best, mods) && Faithful(w, m) && !m.isCanon
    ensures Structured(w, best, Insert(Trimmed(mods), m))
  {
    hide Faithful, CanonFlag, Listed;
    assert StructuredExcept(w, best, [], mods);
    TrimKeepsStructure(w, best, [], mods);
    var rest := Trimmed(mods);
    InsertFacts(w, rest, m);
    var r := Insert(rest, m);
    forall h | CanonFlag(r, h)
      ensures Reaches(w, r, best, h)
    {
      ReachesMonotone(w, rest, r, best, h);
    }
  }

  // ----- values handed to the cache

  lemma {:induction false} AddAllFrom<K, V>(entries: seq<(K, V)>, more: seq<(K, V)>, sizes: Sizes<K, V>, limit: nat)
    requires DistinctKeys(entries)
    ensures DistinctKeys(AddAll(entries, more, sizes, limit))
    ensures forall e <- AddAll(entries, more, sizes, limit) :: e in more || e in entries
    decreases |more|
  {
    if more != [] {
      hide Added;
      var last := |more| - 1;
      AddAllFrom(entries, more[..last], sizes, limit);
      AddFacts(AddAll(entries, more[..last], sizes, limit), more[last].0, more[last].1, sizes, limit);
      assert more[last] in more;
    }
  }

  lemma KeysOfLast<K>(changes: seq<(K, Option<Value>)>)
    requires changes != []
    ensures Keys(changes) == Keys(changes[..|changes| - 1]) + {changes[|changes| - 1].0}
  {
  }

  /** After a list of changes, an entry for a changed key holds the last change, and any other entry is old. */
  lemma {:induction false} AddAllLastWins<K>(entries: seq<(K, Option<Value>)>, changes: seq<(K, Option<Value>)>,
                                             sizes: Sizes<K, Option<Value>>, limit: nat)
    requires DistinctKeys(entries)
    ensures DistinctKeys(AddAll(entries, changes, sizes, limit))
    ensures forall e <- AddAll(entries, changes, sizes, limit) ::
              if e.0 in Keys(changes) then e.1 == After(changes, e.0, None) else e in entries
    decreases |changes|
  {
    if changes != [] {
      hide Added, Keys;
      var last := |changes| - 1;
      var before, k, v := changes[..last], changes[last].0, changes[last].1;
      AddAllLastWins(entries, before, sizes, limit);
      AddFacts(AddAll(entries, before, sizes, limit), k, v, sizes, limit);
      KeysOfLast(changes);
    }
  }

  /** The values were read at block `p`. */
  ghost predicate DrainedCoherent(w: World, p: Hash, local: Drained)
  {
    && (forall e <- local.storage :: e.1 == State(w, p, Top(e.0)))
    && (forall e <- local.hashes :: e.1 == w.digest(State(w, p, Top(e.0))))
    && (forall e <- local.child :: e.1 == State(w, p, Child(e.0)))
  }

  lemma AddDrainedCoherent(w: World, cfg: Config, h: Hash, c: Cache, local: Drained)
    requires Coherent(w, h, c) && DrainedCoherent(w, h, local)
    ensures Coherent(w, h, AddLocal(cfg, c, local))
  {
    AddAllFrom(c.storage, local.storage, cfg.storageSizes, cfg.storageLimit);
    AddAllFrom(c.hashes, local.hashes, cfg.hashSizes, cfg.hashLimit);
    AddAllFrom(c.child, local.child, cfg.childSizes, cfg.childLimit);
  }

  /** Every entry holds the value at block `h`, or is for a key that the block changes. */
  ghost predicate CoherentUpToChanges(w: World, h: Hash, c: Cache)
    requires h in w.blocks
  {
    && DistinctKeys(c.storage) && DistinctKeys(c.hashes) && DistinctKeys(c.child)
    && (forall e <- c.storage :: Changed(w.blocks[h], Top(e.0)) || e.1 == State(w, h, Top(e.0)))
    && (forall e <- c.hashes :: Changed(w.blocks[h], Top(e.0)) || e.1 == w.digest(State(w, h, Top(e.0))))
    && (forall e <- c.child :: Changed(w.blocks[h], Child(e.0)) || e.1 == State(w, h, Child(e.0)))
  }

  lemma ParentOrSelf(w: World, h: Hash, n: Hash, k: StateKey)
    requires h in w.blocks && (n == h || n == w.blocks[h].parent)
    ensures Changed(w.blocks[h], k) || State(w, n, k) == State(w, h, k)
  {
    if !Changed(w.blocks[h], k) {
      UnchangedState(w, h, k);
    }
  }

  lemma AddLocalUpToChanges(w: World, cfg: Config, h: Hash, n: Hash, c: Cache, local: Drained)
    requires h in w.blocks && (n == h || n == w.blocks[h].parent)
    requires Coherent(w, n, c) && DrainedCoherent(w, w.blocks[h].parent, local)
    ensures CoherentUpToChanges(w, h, AddLocal(cfg, c, local))
  {
    hide AddAll, Changed, State;
    AddAllFrom(c.storage, local.storage, cfg.storageSizes, cfg.storageLimit);
    AddAllFrom(c.hashes, local.hashes, cfg.hashSizes, cfg.hashLimit);
    AddAllFrom(c.child, local.child, cfg.childSizes, cfg.childLimit);
    var p, c' := w.blocks[h].parent, AddLocal(cfg, c, local);
    forall e <- c'.storage
      ensures Changed(w.blocks[h], Top(e.0)) || e.1 == State(w, h, Top(e.0))
    {
      ParentOrSelf(w, h, if e in c.storage then n else p, Top(e.0));
    }
    forall e <- c'.hashes
      ensures Changed(w.blocks[h], Top(e.0)) || e.1 == w.digest(State(w, h, Top(e.0)))
    {
      ParentOrSelf(w, h, if e in c.hashes then n else p, Top(e.0));
    }
    forall e <- c'.child
      ensures Changed(w.blocks[h], Child(e.0)) || e.1 == State(w, h, Child(e.0))
    {
      ParentOrSelf(w, h, if e in c.child then n else p, Child(e.0));
    }
  }

  /** Adding the block's own changes completes the move to the block. */
  lemma RecordBestCoherent(w: World, cfg: Config, h: Hash, c: Cache)
    requires h in w.blocks && CoherentUpToChanges(w, h, c)
    ensures var b := w.blocks[h];
            Coherent(w, h, Record(cfg, c, b.number, h, b.parent, b.changes, b.childChanges, true))
  {
    var b := w.blocks[h];
    var flat := Flatten(b.childChanges);
    AddAllLastWins(c.storage, b.changes, cfg.storageSizes, cfg.storageLimit);
    AddAllLastWins(c.child, flat, cfg.childSizes, cfg.childLimit);
    WithoutKeepsDistinct(c.hashes, Keys(b.changes));
    var c' := Record(cfg, c, b.number, h, b.parent, b.changes, b.childChanges, true);
    forall e <- c'.storage
      ensures e.1 == State(w, h, Top(e.0))
    {
      if e.0 in Keys(b.changes) {
        AfterChanged(b.changes, e.0, None, State(w, b.parent, Top(e.0)));
      }
    }
    forall e <- c'.child
      ensures e.1 == State(w, h, Child(e.0))
    {
      if e.0 in Keys(flat) {
        AfterChanged(flat, e.0, None, State(w, b.parent, Child(e.0)));
      }
    }
  }
}
