/** Whole runs of the cache: states are opened on any block, read, committed or dropped, and the best
    block moves by commits and by reorganisations. */
module CacheRuns {
  import opened Basics
  import opened LruMap
  import opened BlockStates
  import opened CacheModel
  import opened CacheCoherence

  // ----- each way of using the cache keeps the invariant

  lemma {:induction false} PathNumbers(w: World, c: Hash, path: seq<Hash>, n: Hash)
    requires PathUp(w, c, path, n)
    ensures path != [] ==> n in w.blocks
    ensures forall h <- path :: h in w.blocks && w.blocks[h].number <= w.blocks[n].number
    decreases |path|
  {
    if path != [] {
      var lower := path[..|path| - 1];
      assert path == lower + [n];
      PathNumbers(w, c, lower, w.blocks[n].parent);
    }
  }

  lemma {:induction false} FilterOutAbsent(path: seq<Hash>, h: Hash)
    requires h !in path
    ensures FilterOut(path, Some(h)) == path
  {
    if path != [] {
      FilterOutAbsent(path[1..], h);
    }
  }

  lemma {:induction false} FilterOutLast(path: seq<Hash>, h: Hash)
    requires h !in path
    ensures FilterOut(path + [h], Some(h)) == path
  {
    if path != [] {
      assert (path + [h])[1..] == path[1..] + [h];
      FilterOutLast(path[1..], h);
    }
  }

  /** The route given with a best commit leads to the block or to its parent. */
  ghost predicate CommitRoute(w: World, o: Hash, b: Hash, enacted: seq<Hash>, retracted: seq<Hash>)
    requires b in w.blocks
  {
    IsRoute(w, o, b, enacted, retracted) || IsRoute(w, o, w.blocks[b].parent, enacted, retracted)
  }

  /** Without the committed block itself, the route leads to its parent, or to the block if that was an
      ancestor of the old best block. */
  lemma FilteredRoute(w: World, o: Hash, b: Hash, enacted: seq<Hash>, retracted: seq<Hash>) returns (n: Hash)
    requires b in w.blocks && CommitRoute(w, o, b, enacted, retracted)
    ensures n == b || n == w.blocks[b].parent
    ensures IsRoute(w, o, n, FilterOut(enacted, Some(b)), retracted)
  {
    var p := w.blocks[b].parent;
    if IsRoute(w, o, b, enacted, retracted) {
      var c :| RouteVia(w, o, b, c, enacted, retracted);
      if enacted == [] {
        n := b;
        assert RouteVia(w, o, b, c, [], retracted);
      } else {
        n := p;
        var lower := enacted[..|enacted| - 1];
        assert enacted == lower + [b];
        PathNumbers(w, c, lower, p);
        FilterOutLast(lower, b);
        assert RouteVia(w, o, p, c, lower, retracted);
      }
    } else {
      n := p;
      var c :| RouteVia(w, o, p, c, enacted, retracted);
      PathNumbers(w, c, enacted, p);
      FilterOutAbsent(enacted, b);
    }
  }

  lemma LengthAfterInsert(mods: seq<BlockChanges>, m: BlockChanges)
    requires |mods| <= STATE_CACHE_BLOCKS
    ensures |Insert(Trimmed(mods), m)| <= STATE_CACHE_BLOCKS
  {
  }

  /** The cache after a block has been committed on top of a state of its parent. */
  function Commit(w: World, cfg: Config, c: Cache, local: Drained, b: Hash,
                  enacted: seq<Hash>, retracted: seq<Hash>, isBest: bool): (c': Cache)
    requires b in w.blocks
  {
    var block := w.blocks[b];
    SyncCache(cfg, c, Some(block.parent), local, enacted, retracted, block.changes, block.childChanges,
              Some(b), Some(block.number), isBest)
  }

  lemma CommitBestKeepsInv(w: World, cfg: Config, o: Hash, c: Cache, local: Drained, b: Hash,
                           enacted: seq<Hash>, retracted: seq<Hash>)
    requires Inv(w, o, c) && b in w.blocks && CommitRoute(w, o, b, enacted, retracted)
    requires DrainedCoherent(w, w.blocks[b].parent, local)
    ensures Inv(w, b, Commit(w, cfg, c, local, b, enacted, retracted, true))
  {
    hide Structured, StructuredExcept, Coherent, CoherentUpToChanges, DrainedCoherent, Faithful, IsRoute, Sync, AddAll, Insert, Relisted, FilterOut;
    var block := w.blocks[b];
    var n := FilteredRoute(w, o, b, enacted, retracted);
    var extra := if Relisted(c.mods, Some(b), true) then [b] else [];
    var route := FilterOut(enacted, Some(b));
    SyncMoves(w, o, n, c, route, extra, retracted);
    var c1 := Sync(c, route + extra, retracted);
    assert retracted + [] == retracted;
    var c2 := AddLocal(cfg, c1, local);
    AddLocalUpToChanges(w, cfg, b, n, c1, local);
    RecordBestCoherent(w, cfg, b, c2);
    var m := BlockChanges(block.number, b, block.parent, Keys(block.changes), Keys(Flatten(block.childChanges)), true);
    assert Faithful(w, m) by {
      RecordIsFaithful(w, b, true);
    }
    RecordBestStructured(w, n, b, extra, c1.mods, m);
    LengthAfterInsert(c1.mods, m);
  }

  lemma RecordIsFaithful(w: World, b: Hash, isCanon: bool)
    requires b in w.blocks
    ensures var block := w.blocks[b];
            Faithful(w, BlockChanges(block.number, b, block.parent, Keys(block.changes), Keys(Flatten(block.childChanges)), isCanon))
  {
  }

  /** Treating a listed block as retracted keeps the invariant, wherever the block is. */
  lemma DemoteKeepsInv(w: World, best: Hash, c: Cache, b: Hash)
    requires Inv(w, best, c) && Listed(c.mods, b)
    ensures Inv(w, best, Sync(c, [], [b]))
  {
    hide Coherent, Fewer, Untouched, Faithful, CanonFlag, Reaches;
    assert Faithful(w, c.mods[IndexOfBlock(c.mods, b)]);
    PurgeFacts(w, c, b, false);
    var c' := Purge(c, IndexOfBlock(c.mods, b), false);
    assert Sync(c, [], [b]) == c' by {
      assert Mark(c, [], true) == Some(c);
      assert Mark(c', [], false) == Some(c');
      assert [b][1..] == [];
    }
    FewerKeepsCoherent(w, best, c, c');
    SameBlocksKeepsFaithful(w, c.mods, c'.mods);
    SameBlocksKeepsStructure(w, best, c.mods, c'.mods);
  }

  lemma CommitForkKeepsInv(w: World, cfg: Config, best: Hash, c: Cache, local: Drained, b: Hash)
    requires Inv(w, best, c) && b in w.blocks
    ensures Inv(w, best, Commit(w, cfg, c, local, b, [], [], false))
  {
    hide Structured, Coherent, Faithful, Insert, Relisted, CanonFlag, Sync;
    var block := w.blocks[b];
    var c1 := Sync(c, [], [] + if Relisted(c.mods, Some(b), false) then [b] else []);
    assert FilterOut([], Some(b)) + [] == [];
    if Relisted(c.mods, Some(b), false) {
      RelistedIsListed(c.mods, b, false);
      DemoteKeepsInv(w, best, c, b);
      assert [] + [b] == [b];
    } else {
      SyncNothing(c);
    }
    var m := BlockChanges(block.number, b, block.parent, Keys(block.changes), Keys(Flatten(block.childChanges)), false);
    assert Faithful(w, m) by {
      RecordIsFaithful(w, b, false);
    }
    RecordForkStructured(w, best, c1.mods, m);
    LengthAfterInsert(c1.mods, m);
    var r := Record(cfg, c1, block.number, b, block.parent, block.changes, block.childChanges, false);
    FewerKeepsCoherent(w, best, c1, r);
  }

  lemma RelistedIsListed(mods: seq<BlockChanges>, b: Hash, isBest: bool)
    requires Relisted(mods, Some(b), isBest)
    ensures Listed(mods, b)
  {
  }

  lemma SyncNothing(c: Cache)
    ensures Sync(c, [], []) == c
  {
  }

  /** The cache after a state has been dropped: its values are shared if it was a state of the best block. */
  function Drop(cfg: Config, c: Cache, parent: Hash, local: Drained, best: Hash): (c': Cache)
  {
    SyncCache(cfg, c, Some(parent), local, [], [], [], [], None, None, parent == best)
  }

  lemma DropKeepsInv(w: World, cfg: Config, best: Hash, c: Cache, parent: Hash, local: Drained)
    requires Inv(w, best, c) && DrainedCoherent(w, parent, local)
    ensures Inv(w, best, Drop(cfg, c, parent, local, best))
  {
    hide Structured, Coherent, DrainedCoherent, AddAll;
    SyncNothing(c);
    if parent == best {
      AddDrainedCoherent(w, cfg, best, c, local);
    }
  }

  lemma ReorgKeepsInv(w: World, o: Hash, n: Hash, c: Cache, enacted: seq<Hash>, retracted: seq<Hash>)
    requires Inv(w, o, c) && IsRoute(w, o, n, enacted, retracted)
    ensures Inv(w, n, Sync(c, enacted, retracted))
  {
    hide Coherent, Faithful, IsRoute, Sync;
    SyncMoves(w, o, n, c, enacted, [], retracted);
    assert enacted + [] == enacted;
  }

  // ----- reading through a state

  /** Values read through one state and not yet shared. */
  datatype Local = Local(
    storage: map<Key, Option<Value>>, hashes: map<Key, Option<Digest>>, child: map<ChildKey, Option<Value>>)

  const NOTHING: Local := Local(map[], map[], map[])

  /** The values were read at block `p`. */
  ghost predicate LocalCoherent(w: World, p: Hash, local: Local)
  {
    && (forall k <- local.storage :: local.storage[k] == State(w, p, Top(k)))
    && (forall k <- local.hashes :: local.hashes[k] == w.digest(State(w, p, Top(k))))
    && (forall k <- local.child :: local.child[k] == State(w, p, Child(k)))
  }

  /** The entries of a hash map in some order, each once. */
  ghost predicate Enumerates<K, V>(entries: seq<(K, V)>, m: map<K, V>)
  {
    && DistinctKeys(entries)
    && (forall e <- entries :: e.0 in m && m[e.0] == e.1)
    && (forall k <- m :: (k, m[k]) in entries)
  }

  ghost predicate Drains(drained: Drained, local: Local)
  {
    && Enumerates(drained.storage, local.storage)
    && Enumerates(drained.hashes, local.hashes)
    && Enumerates(drained.child, local.child)
  }

  /** A read returns a value and may refresh the shared cache or fill the local one. */
  datatype ReadOutcome<+T> = ReadOutcome(value: T, cache: Cache, local: Local)

  /** `storage`: local value, else shared value if allowed, else the value of the backing state. */
  function ReadStorage(c: Cache, local: Local, parent: Option<Hash>, key: Key, backing: Option<Value>): (r: ReadOutcome<Option<Value>>)
  {
    var shared := Lookup(c.storage, key);
    if key in local.storage then ReadOutcome(local.storage[key], c, local)
    else if IsAllowed(c.mods, parent, Top(key)) && shared.Some? then
      ReadOutcome(shared.value, c.(storage := Refresh(c.storage, key)), local)
    else ReadOutcome(backing, c, local.(storage := local.storage[key := backing]))
  }

  function ReadStorageHash(c: Cache, local: Local, parent: Option<Hash>, key: Key, backing: Option<Digest>): (r: ReadOutcome<Option<Digest>>)
  {
    var shared := Lookup(c.hashes, key);
    if key in local.hashes then ReadOutcome(local.hashes[key], c, local)
    else if IsAllowed(c.mods, parent, Top(key)) && shared.Some? then
      ReadOutcome(shared.value, c.(hashes := Refresh(c.hashes, key)), local)
    else ReadOutcome(backing, c, local.(hashes := local.hashes[key := backing]))
  }

  function ReadChildStorage(c: Cache, local: Local, parent: Option<Hash>, key: ChildKey, backing: Option<Value>): (r: ReadOutcome<Option<Value>>)
  {
    var shared := Lookup(c.child, key);
    if key in local.child then ReadOutcome(local.child[key], c, local)
    else if IsAllowed(c.mods, parent, Child(key)) && shared.Some? then
      ReadOutcome(shared.value, c.(child := Refresh(c.child, key)), local)
    else ReadOutcome(backing, c, local.(child := local.child[key := backing]))
  }

  lemma ReadStorageIsTrue(w: World, best: Hash, c: Cache, local: Local, p: Hash, key: Key)
    requires Inv(w, best, c) && LocalCoherent(w, p, local)
    ensures var r := ReadStorage(c, local, Some(p), key, State(w, p, Top(key)));
            r.value == State(w, p, Top(key)) && Inv(w, best, r.cache) && LocalCoherent(w, p, r.local)
  {
    hide Structured, State;
    RefreshFacts(c.storage, key);
    if IsAllowed(c.mods, Some(p), Top(key)) {
      AllowedIsSound(w, best, c.mods, p, Top(key));
    }
  }

  lemma ReadStorageHashIsTrue(w: World, best: Hash, c: Cache, local: Local, p: Hash, key: Key)
    requires Inv(w, best, c) && LocalCoherent(w, p, local)
    ensures var r := ReadStorageHash(c, local, Some(p), key, w.digest(State(w, p, Top(key))));
            r.value == w.digest(State(w, p, Top(key))) && Inv(w, best, r.cache) && LocalCoherent(w, p, r.local)
  {
    hide Structured, State;
    RefreshFacts(c.hashes, key);
    if IsAllowed(c.mods, Some(p), Top(key)) {
      AllowedIsSound(w, best, c.mods, p, Top(key));
    }
  }

  lemma ReadChildStorageIsTrue(w: World, best: Hash, c: Cache, local: Local, p: Hash, key: ChildKey)
    requires Inv(w, best, c) && LocalCoherent(w, p, local)
    ensures var r := ReadChildStorage(c, local, Some(p), key, State(w, p, Child(key)));
            r.value == State(w, p, Child(key)) && Inv(w, best, r.cache) && LocalCoherent(w, p, r.local)
  {
    hide Structured, State;
    RefreshFacts(c.child, key);
    if IsAllowed(c.mods, Some(p), Child(key)) {
      AllowedIsSound(w, best, c.mods, p, Child(key));
    }
  }

  // ----- runs

  datatype View = View(parent: Hash, local: Local)

  /** The shared cache, the best block, and the states that are open on some block each. */
  datatype System = System(cache: Cache, best: Hash, views: map<nat, View>)

  // A state whose block does not become best keeps its values to itself.
  const NOTHING_DRAINED: Drained := Drained([], [], [])

  datatype Op =
    | Open(id: nat, parent: Hash)
    | Read(id: nat, key: Key)
    | ReadHash(id: nat, key: Key)
    | ReadChild(id: nat, child: ChildKey)
    | CommitBest(id: nat, block: Hash, enacted: seq<Hash>, retracted: seq<Hash>, drained: Drained)
    | CommitFork(id: nat, block: Hash)
    | DropState(id: nat, drained: Drained)
    | Reorg(newBest: Hash, enacted: seq<Hash>, retracted: seq<Hash>)

  /** Blocks are committed on a state of their parent, and routes are routes of the tree. */
  ghost predicate Enabled(w: World, s: System, op: Op)
  {
    match op
    case Open(id, _) => id !in s.views
    case Read(id, _) => id in s.views
    case ReadHash(id, _) => id in s.views
    case ReadChild(id, _) => id in s.views
    case CommitBest(id, b, enacted, retracted, drained) =>
      id in s.views && b in w.blocks && s.views[id].parent == w.blocks[b].parent
      && CommitRoute(w, s.best, b, enacted, retracted) && Drains(drained, s.views[id].local)
    case CommitFork(id, b) => id in s.views && b in w.blocks && s.views[id].parent == w.blocks[b].parent
    case DropState(id, drained) => id in s.views && Drains(drained, s.views[id].local)
    case Reorg(n, enacted, retracted) => IsRoute(w, s.best, n, enacted, retracted)
  }

  function AfterRead<T>(s: System, id: nat, r: ReadOutcome<T>): (s': System)
    requires id in s.views
  {
    s.(cache := r.cache, views := s.views[id := s.views[id].(local := r.local)])
  }

  ghost function Step(w: World, cfg: Config, s: System, op: Op): (s': System)
    requires Enabled(w, s, op)
  {
    match op
    case Open(id, parent) => s.(views := s.views[id := View(parent, NOTHING)])
    case Read(id, key) =>
      var v := s.views[id];
      AfterRead(s, id, ReadStorage(s.cache, v.local, Some(v.parent), key, State(w, v.parent, Top(key))))
    case ReadHash(id, key) =>
      var v := s.views[id];
      AfterRead(s, id, ReadStorageHash(s.cache, v.local, Some(v.parent), key, w.digest(State(w, v.parent, Top(key)))))
    case ReadChild(id, child) =>
      var v := s.views[id];
      AfterRead(s, id, ReadChildStorage(s.cache, v.local, Some(v.parent), child, State(w, v.parent, Child(child))))
    case CommitBest(id, b, enacted, retracted, drained) =>
      System(Commit(w, cfg, s.cache, drained, b, enacted, retracted, true), b, s.views[id := s.views[id].(local := NOTHING)])
    case CommitFork(id, b) =>
      s.(cache := Commit(w, cfg, s.cache, NOTHING_DRAINED, b, [], [], false))
    case DropState(id, drained) =>
      s.(cache := Drop(cfg, s.cache, s.views[id].parent, drained, s.best), views := s.views - {id})
    case Reorg(n, enacted, retracted) =>
      s.(cache := Sync(s.cache, enacted, retracted), best := n)
  }

  ghost predicate SystemInv(w: World, s: System)
  {
    && Inv(w, s.best, s.cache)
    && forall id <- s.views :: LocalCoherent(w, s.views[id].parent, s.views[id].local)
  }

  lemma DrainsCoherent(w: World, p: Hash, drained: Drained, local: Local)
    requires LocalCoherent(w, p, local) && Drains(drained, local)
    ensures DrainedCoherent(w, p, drained)
  {
  }

  lemma StepKeepsInv(w: World, cfg: Config, s: System, op: Op)
    requires SystemInv(w, s) && Enabled(w, s, op)
    ensures SystemInv(w, Step(w, cfg, s, op))
  {
    hide CacheModel.Inv, LocalCoherent, DrainedCoherent, Drains, CommitRoute, IsRoute, ReadStorage, ReadStorageHash, ReadChildStorage, Commit, Drop, Sync;
    match op
    case Open(_, parent) =>
      assert LocalCoherent(w, parent, NOTHING) by {
        NothingIsCoherent(w, parent);
      }
    case Read(id, key) => ReadStorageIsTrue(w, s.best, s.cache, s.views[id].local, s.views[id].parent, key);
    case ReadHash(id, key) => ReadStorageHashIsTrue(w, s.best, s.cache, s.views[id].local, s.views[id].parent, key);
    case ReadChild(id, child) => ReadChildStorageIsTrue(w, s.best, s.cache, s.views[id].local, s.views[id].parent, child);
    case CommitBest(id, b, enacted, retracted, drained) =>
      DrainsCoherent(w, s.views[id].parent, drained, s.views[id].local);
      CommitBestKeepsInv(w, cfg, s.best, s.cache, drained, b, enacted, retracted);
      NothingIsCoherent(w, s.views[id].parent);
    case CommitFork(id, b) => CommitForkKeepsInv(w, cfg, s.best, s.cache, NOTHING_DRAINED, b);
    case DropState(id, drained) =>
      DrainsCoherent(w, s.views[id].parent, drained, s.views[id].local);
      DropKeepsInv(w, cfg, s.best, s.cache, s.views[id].parent, drained);
    case Reorg(n, enacted, retracted) => ReorgKeepsInv(w, s.best, n, s.cache, enacted, retracted);
  }

  lemma NothingIsCoherent(w: World, p: Hash)
    ensures LocalCoherent(w, p, NOTHING)
  {
  }

  ghost predicate EnabledRun(w: World, cfg: Config, s: System, ops: seq<Op>)
    decreases |ops|
  {
    ops == [] || (Enabled(w, s, ops[0]) && EnabledRun(w, cfg, Step(w, cfg, s, ops[0]), ops[1..]))
  }

  ghost function Run(w: World, cfg: Config, s: System, ops: seq<Op>): (s': System)
    requires EnabledRun(w, cfg, s, ops)
    decreases |ops|
  {
    if ops == [] then s else Run(w, cfg, Step(w, cfg, s, ops[0]), ops[1..])
  }

  lemma {:induction false} RunKeepsInv(w: World, cfg: Config, s: System, ops: seq<Op>)
    requires SystemInv(w, s) && EnabledRun(w, cfg, s, ops)
    ensures SystemInv(w, Run(w, cfg, s, ops))
    decreases |ops|
  {
    if ops != [] {
      hide SystemInv, Step, Enabled;
      StepKeepsInv(w, cfg, s, ops[0]);
      RunKeepsInv(w, cfg, Step(w, cfg, s, ops[0]), ops[1..]);
    }
  }

  /** The main theorem. Start with an empty cache and any best block; open states on any blocks, read
      through them, commit best and fork blocks, reorganise and drop states, in any order. Then any read
      through an open state returns exactly what the block of that state holds. */
  lemma CacheIsCoherent(w: World, cfg: Config, best: Hash, ops: seq<Op>, id: nat, key: Key, child: ChildKey)
    requires EnabledRun(w, cfg, System(EMPTY, best, map[]), ops)
    requires id in Run(w, cfg, System(EMPTY, best, map[]), ops).views
    ensures var s := Run(w, cfg, System(EMPTY, best, map[]), ops);
            var View(p, local) := s.views[id];
            && ReadStorage(s.cache, local, Some(p), key, State(w, p, Top(key))).value == State(w, p, Top(key))
            && ReadStorageHash(s.cache, local, Some(p), key, w.digest(State(w, p, Top(key)))).value == w.digest(State(w, p, Top(key)))
            && ReadChildStorage(s.cache, local, Some(p), child, State(w, p, Child(child))).value == State(w, p, Child(child))
            && |s.cache.mods| <= STATE_CACHE_BLOCKS && Descending(s.cache.mods)
  {
    assert SystemInv(w, System(EMPTY, best, map[]));
    RunKeepsInv(w, cfg, System(EMPTY, best, map[]), ops);
    var s := Run(w, cfg, System(EMPTY, best, map[]), ops);
    ReadStorageIsTrue(w, s.best, s.cache, s.views[id].local, s.views[id].parent, key);
    ReadStorageHashIsTrue(w, s.best, s.cache, s.views[id].local, s.views[id].parent, key);
    ReadChildStorageIsTrue(w, s.best, s.cache, s.views[id].local, s.views[id].parent, child);
  }
}
