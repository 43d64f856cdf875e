/** The cache is of use: what it drops and keeps on a reorganisation, what a commit puts into it, and which
    reads it serves without asking the backing state. */
module CacheEffects {
  import opened Basics
  import opened LruMap
  import opened BlockStates
  import opened CacheModel
  import opened CacheCoherence
  import opened CacheRuns

  // ----- reorganisations

  /** The keys changed by some listed blocks. */
  function StorageKeys(mods: seq<BlockChanges>, blocks: seq<Hash>): (ks: set<Key>)
  {
    if blocks == [] then {}
    else (if Listed(mods, blocks[0]) then mods[IndexOfBlock(mods, blocks[0])].storage else {}) + StorageKeys(mods, blocks[1..])
  }

  function ChildKeys(mods: seq<BlockChanges>, blocks: seq<Hash>): (ks: set<ChildKey>)
  {
    if blocks == [] then {}
    else (if Listed(mods, blocks[0]) then mods[IndexOfBlock(mods, blocks[0])].childStorage else {}) + ChildKeys(mods, blocks[1..])
  }

  ghost predicate AllListed(mods: seq<BlockChanges>, blocks: seq<Hash>)
  {
    forall h <- blocks :: Listed(mods, h)
  }

  /** What is left of a cache without the keys that some blocks changed. */
  ghost predicate Stripped(c: Cache, c': Cache, blocks: seq<Hash>)
  {
    && c'.storage == Without(c.storage, StorageKeys(c.mods, blocks))
    && c'.hashes == Without(c.hashes, StorageKeys(c.mods, blocks))
    && c'.child == Without(c.child, ChildKeys(c.mods, blocks))
  }

  lemma {:induction false} SameKeys(mods: seq<BlockChanges>, mods': seq<BlockChanges>, blocks: seq<Hash>)
    requires SameBlocks(mods, mods')
    ensures StorageKeys(mods', blocks) == StorageKeys(mods, blocks) && ChildKeys(mods', blocks) == ChildKeys(mods, blocks)
    ensures AllListed(mods', blocks) <==> AllListed(mods, blocks)
    decreases |blocks|
  {
    if blocks != [] {
      SameKeys(mods, mods', blocks[1..]);
      SameBlocksFacts(mods, mods', blocks[0]);
      assert blocks == [blocks[0]] + blocks[1..];
    }
  }

  lemma {:induction false} KeysOfTwo(mods: seq<BlockChanges>, a: seq<Hash>, b: seq<Hash>)
    ensures StorageKeys(mods, a + b) == StorageKeys(mods, a) + StorageKeys(mods, b)
    ensures ChildKeys(mods, a + b) == ChildKeys(mods, a) + ChildKeys(mods, b)
    ensures AllListed(mods, a + b) <==> AllListed(mods, a) && AllListed(mods, b)
    decreases |a|
  {
    if a == [] {
      assert a + b == b;
    } else {
      KeysOfTwo(mods, a[1..], b);
      assert (a + b)[1..] == a[1..] + b;
    }
  }

  lemma StrippedTwice(c: Cache, c1: Cache, c2: Cache, a: seq<Hash>, b: seq<Hash>)
    requires SameBlocks(c.mods, c1.mods) && Stripped(c, c1, a) && Stripped(c1, c2, b)
    ensures Stripped(c, c2, a + b)
  {
    hide StorageKeys, ChildKeys, SameBlocks;
    SameKeys(c.mods, c1.mods, b);
    KeysOfTwo(c.mods, a, b);
    WithoutTwice(c.storage, StorageKeys(c.mods, a), StorageKeys(c.mods, b));
    WithoutTwice(c.hashes, StorageKeys(c.mods, a), StorageKeys(c.mods, b));
    WithoutTwice(c.child, ChildKeys(c.mods, a), ChildKeys(c.mods, b));
  }

  lemma PurgeStrips(c: Cache, h: Hash, canon: bool)
    requires Listed(c.mods, h)
    ensures var c' := Purge(c, IndexOfBlock(c.mods, h), canon);
            && SameBlocks(c.mods, c'.mods) && Stripped(c, c', [h])
            && forall g :: CanonFlag(c'.mods, g) == if g == h then canon else CanonFlag(c.mods, g)
  {
    var i := IndexOfBlock(c.mods, h);
    var c' := Purge(c, i, canon);
    assert StorageKeys(c.mods, [h]) == c.mods[i].storage;
    assert ChildKeys(c.mods, [h]) == c.mods[i].childStorage;
    forall g
      ensures CanonFlag(c'.mods, g) == if g == h then canon else CanonFlag(c.mods, g)
    {
      SameBlocksFacts(c.mods, c'.mods, g);
    }
  }

  lemma NothingStripped(c: Cache)
    ensures Stripped(c, c, [])
  {
    assert StorageKeys(c.mods, []) == {} && ChildKeys(c.mods, []) == {};
    KeptWithoutNone(c.storage);
    KeptWithoutNone(c.hashes);
    KeptWithoutNone(c.child);
  }

  lemma {:induction false} KeptWithoutNone<K, V>(entries: seq<(K, V)>)
    ensures Without(entries, {}) == entries
  {
    if entries != [] {
      KeptWithoutNone(entries[1..]);
    }
  }

  /** Marking blocks succeeds exactly if all of them are listed. Then exactly the entries for keys they changed
      are dropped, and exactly their flags are set. */
  lemma {:induction false} MarkExactly(c: Cache, blocks: seq<Hash>, canon: bool)
    ensures Mark(c, blocks, canon).Some? <==> AllListed(c.mods, blocks)
    ensures Mark(c, blocks, canon).Some? ==>
              var c' := Mark(c, blocks, canon).value;
              && SameBlocks(c.mods, c'.mods) && Stripped(c, c', blocks)
              && forall g :: CanonFlag(c'.mods, g) == if g in blocks then canon else CanonFlag(c.mods, g)
    decreases |blocks|
  {
    hide Stripped, CanonFlag, Purge, Listed, SameBlocks;
    if blocks == [] {
      NothingStripped(c);
      SameBlocksSelf(c.mods);
    } else {
      var h, rest := blocks[0], blocks[1..];
      assert blocks == [h] + rest;
      assert forall g :: g in blocks <==> g == h || g in rest;
      if Listed(c.mods, h) {
        PurgeStrips(c, h, canon);
        ListedBelow(c.mods, h);
        var c1 := Purge(c, IndexOfBlock(c.mods, h), canon);
        SameKeys(c.mods, c1.mods, rest);
        MarkExactly(c1, rest, canon);
        if Mark(c1, rest, canon).Some? {
          StrippedTwice(c, c1, Mark(c1, rest, canon).value, [h], rest);
          SameBlocksTwice(c.mods, c1.mods, Mark(c1, rest, canon).value.mods);
        }
      }
    }
  }

  lemma ListedBelow(mods: seq<BlockChanges>, h: Hash)
    requires Listed(mods, h)
    ensures IndexOfBlock(mods, h) < |mods|
  {
  }

  lemma SameBlocksSelf(mods: seq<BlockChanges>)
    ensures SameBlocks(mods, mods)
  {
  }

  lemma SameBlocksTwice(a: seq<BlockChanges>, b: seq<BlockChanges>, c: seq<BlockChanges>)
    requires SameBlocks(a, b) && SameBlocks(b, c)
    ensures SameBlocks(a, c)
  {
  }

  /** Synchronising wipes the cache if a block of the route is not listed. Otherwise exactly the entries for
      keys changed on the route are dropped, and enacted blocks count as canonical, retracted ones not. */
  lemma SyncExactly(c: Cache, enacted: seq<Hash>, retracted: seq<Hash>)
    ensures !AllListed(c.mods, enacted + retracted) ==> Sync(c, enacted, retracted) == Cache([], [], [], [])
    ensures AllListed(c.mods, enacted + retracted) ==>
              var c' := Sync(c, enacted, retracted);
              && SameBlocks(c.mods, c'.mods) && Stripped(c, c', enacted + retracted)
              && forall g :: CanonFlag(c'.mods, g) <==> g !in retracted && (g in enacted || CanonFlag(c.mods, g))
  {
    hide Stripped, CanonFlag, Mark, AllListed, SameBlocks;
    KeysOfTwo(c.mods, enacted, retracted);
    MarkExactly(c, enacted, true);
    if Mark(c, enacted, true).Some? {
      var c1 := Mark(c, enacted, true).value;
      SameKeys(c.mods, c1.mods, retracted);
      MarkExactly(c1, retracted, false);
      if Mark(c1, retracted, false).Some? {
        StrippedTwice(c, c1, Mark(c1, retracted, false).value, enacted, retracted);
        SameBlocksTwice(c.mods, c1.mods, Mark(c1, retracted, false).value.mods);
      }
    }
  }

  // ----- adding values

  /** The last value given for a key. */
  function LastFor<K(==), V>(entries: seq<(K, V)>, k: K): (v: Option<V>)
  {
    if entries == [] then None
    else
      var last := |entries| - 1;
      if entries[last].0 == k then Some(entries[last].1) else LastFor(entries[..last], k)
  }

  function OrElse<T>(first: Option<T>, second: Option<T>): (r: Option<T>)
  {
    if first.Some? then first else second
  }

  lemma {:induction false} AddAllFits<K, V>(entries: seq<(K, V)>, more: seq<(K, V)>, sizes: Sizes<K, V>, limit: nat)
    requires Weight(entries, sizes) + Weight(more, sizes) <= limit
    ensures Weight(AddAll(entries, more, sizes, limit), sizes) <= Weight(entries, sizes) + Weight(more, sizes)
    decreases |more|
  {
    hide Added, Put;
    if more != [] {
      var last := |more| - 1;
      var some := more[..last];
      assert more == some + [more[last]];
      WeightAppend(some, [more[last]], sizes);
      AddAllFits(entries, some, sizes, limit);
      AddedWithRoom(AddAll(entries, some, sizes, limit), more[last].0, more[last].1, sizes, limit);
    }
  }

  /** With room for all of them, added values replace old ones, the last one for a key counts, and every
      other entry stays. */
  lemma {:induction false} AddAllExactly<K, V>(entries: seq<(K, V)>, more: seq<(K, V)>, sizes: Sizes<K, V>, limit: nat, k: K)
    requires Weight(entries, sizes) + Weight(more, sizes) <= limit
    ensures Lookup(AddAll(entries, more, sizes, limit), k) == OrElse(LastFor(more, k), Lookup(entries, k))
    decreases |more|
  {
    hide Lookup, Added, Put;
    if more != [] {
      var last := |more| - 1;
      var some := more[..last];
      assert more == some + [more[last]];
      WeightAppend(some, [more[last]], sizes);
      AddAllExactly(entries, some, sizes, limit, k);
      AddAllFits(entries, some, sizes, limit);
      var before := AddAll(entries, some, sizes, limit);
      AddedWithRoom(before, more[last].0, more[last].1, sizes, limit);
      PutLookup(before, more[last].0, more[last].1, k);
    }
  }

  lemma {:induction false} LastForIsAfter<K>(changes: seq<(K, Option<Value>)>, k: K, before: Option<Value>)
    ensures LastFor(changes, k) == if k in Keys(changes) then Some(After(changes, k, before)) else None
  {
    if changes != [] {
      var last := |changes| - 1;
      KeysOfLast(changes);
      LastForIsAfter(changes[..last], k, before);
    }
  }

  /** The three maps have room for some more values. */
  ghost predicate Room(cfg: Config, c: Cache, local: Drained, changes: Changes, childChanges: ChildChanges)
  {
    && Weight(c.storage, cfg.storageSizes) + Weight(local.storage, cfg.storageSizes) + Weight(changes, cfg.storageSizes) <= cfg.storageLimit
    && Weight(c.hashes, cfg.hashSizes) + Weight(local.hashes, cfg.hashSizes) <= cfg.hashLimit
    && Weight(c.child, cfg.childSizes) + Weight(local.child, cfg.childSizes) + Weight(Flatten(childChanges), cfg.childSizes) <= cfg.childLimit
  }

  /** What a read of the shared maps finds. */
  ghost predicate Finds(c: Cache, key: Key, child: ChildKey, value: Option<Option<Value>>, hash: Option<Option<Digest>>, childValue: Option<Option<Value>>)
  {
    Lookup(c.storage, key) == value && Lookup(c.hashes, key) == hash && Lookup(c.child, child) == childValue
  }

  /** With room, sharing the values read through a state adds every one of them and keeps the rest. */
  lemma AddLocalExactly(cfg: Config, c: Cache, local: Drained, key: Key, child: ChildKey)
    requires Room(cfg, c, local, [], [])
    ensures Finds(AddLocal(cfg, c, local), key, child,
                  OrElse(LastFor(local.storage, key), Lookup(c.storage, key)),
                  OrElse(LastFor(local.hashes, key), Lookup(c.hashes, key)),
                  OrElse(LastFor(local.child, child), Lookup(c.child, child)))
  {
    hide Lookup, LastFor, OrElse, AddAll;
    AddAllExactly(c.storage, local.storage, cfg.storageSizes, cfg.storageLimit, key);
    AddAllExactly(c.hashes, local.hashes, cfg.hashSizes, cfg.hashLimit, key);
    AddAllExactly(c.child, local.child, cfg.childSizes, cfg.childLimit, child);
  }

  lemma AddLocalLeavesRoom(cfg: Config, c: Cache, local: Drained, changes: Changes, childChanges: ChildChanges)
    requires Room(cfg, c, local, changes, childChanges)
    ensures Room(cfg, AddLocal(cfg, c, local), Drained([], [], []), changes, childChanges) && Room(cfg, c, local, [], [])
  {
    hide AddAll;
    AddAllFits(c.storage, local.storage, cfg.storageSizes, cfg.storageLimit);
    AddAllFits(c.hashes, local.hashes, cfg.hashSizes, cfg.hashLimit);
    AddAllFits(c.child, local.child, cfg.childSizes, cfg.childLimit);
  }

  lemma SyncLeavesRoom(cfg: Config, c: Cache, enacted: seq<Hash>, retracted: seq<Hash>, local: Drained, changes: Changes, childChanges: ChildChanges)
    requires Room(cfg, c, local, changes, childChanges)
    ensures Room(cfg, Sync(c, enacted, retracted), local, changes, childChanges)
  {
    hide Sync, StorageKeys, ChildKeys, Without, AllListed, CanonFlag, Flatten;
    SyncExactly(c, enacted, retracted);
    var blocks := enacted + retracted;
    WeightWithout(c.storage, StorageKeys(c.mods, blocks), cfg.storageSizes);
    WeightWithout(c.hashes, StorageKeys(c.mods, blocks), cfg.hashSizes);
    WeightWithout(c.child, ChildKeys(c.mods, blocks), cfg.childSizes);
  }

  // ----- commits

  ghost predicate ListsAt(mods: seq<BlockChanges>, mods': seq<BlockChanges>, m: BlockChanges, i: nat)
  {
    && i < |mods'| && mods'[i] == m && mods'[..i] + mods'[i + 1..] == (if |mods| == 12 then mods[..11] else mods)
    && (forall j :: 0 <= j < i ==> mods'[j].number >= m.number)
    && (i + 1 < |mods'| ==> mods'[i + 1].number < m.number)
  }

  /** A block is entered behind those with its number or a higher one; of twelve blocks the last goes first. */
  ghost predicate Lists(mods: seq<BlockChanges>, mods': seq<BlockChanges>, m: BlockChanges)
  {
    exists i: nat :: ListsAt(mods, mods', m, i)
  }

  lemma InsertLists(mods: seq<BlockChanges>, m: BlockChanges)
    ensures Lists(mods, Insert(Trimmed(mods), m), m)
  {
    var rest := Trimmed(mods);
    var i, r := InsertPosition(rest, m.number), Insert(rest, m);
    InsertedAt(rest, m, i, r);
    assert r[..i] == rest[..i] && r[i + 1..] == rest[i..];
    assert ListsAt(mods, r, m, i);
  }

  /** Recording a new best block, with room, replaces the values it changed, drops the hashes of those, keeps
      everything else and lists the block. */
  lemma RecordExactly(cfg: Config, c: Cache, m: BlockChanges, changes: Changes, childChanges: ChildChanges, key: Key, child: ChildKey)
    requires Room(cfg, c, Drained([], [], []), changes, childChanges)
    requires m == BlockChanges(m.number, m.hash, m.parent, Keys(changes), Keys(Flatten(childChanges)), true)
    ensures var c' := Record(cfg, c, m.number, m.hash, m.parent, changes, childChanges, true);
            && Finds(c', key, child,
                     OrElse(LastFor(changes, key), Lookup(c.storage, key)),
                     if key in Keys(changes) then None else Lookup(c.hashes, key),
                     OrElse(LastFor(Flatten(childChanges), child), Lookup(c.child, child)))
            && Lists(c.mods, c'.mods, m)
  {
    hide Lookup, LastFor, OrElse, AddAll, Without, Keys, Flatten, Insert, Trimmed, Lists;
    AddAllExactly(c.storage, changes, cfg.storageSizes, cfg.storageLimit, key);
    WithoutLookup(c.hashes, Keys(changes), key);
    AddAllExactly(c.child, Flatten(childChanges), cfg.childSizes, cfg.childLimit, child);
    InsertLists(c.mods, m);
  }

  /** The cache as a commit leaves it before it adds anything: moved along the route, from which the block
      itself is taken out unless it is listed as not canonical. */
  ghost function Moved(c: Cache, hash: Hash, enacted: seq<Hash>, retracted: seq<Hash>): (c': Cache)
  {
    var again := if Listed(c.mods, hash) && !CanonFlag(c.mods, hash) then [hash] else [];
    Sync(c, FilterOut(enacted, Some(hash)) + again, retracted)
  }

  lemma CommitInTurn(cfg: Config, c: Cache, m: BlockChanges, local: Drained, enacted: seq<Hash>, retracted: seq<Hash>,
                     changes: Changes, childChanges: ChildChanges)
    ensures SyncCache(cfg, c, Some(m.parent), local, enacted, retracted, changes, childChanges, Some(m.hash), Some(m.number), true) ==
            Record(cfg, AddLocal(cfg, Moved(c, m.hash, enacted, retracted), local), m.number, m.hash, m.parent, changes, childChanges, true)
  {
    hide Sync, AddLocal, Record, FilterOut, Listed, CanonFlag;
    assert retracted + [] == retracted;
  }

  /** After a block is committed as best, with room, its changes are in the shared maps, then the values read
      through its state, then what is left of the cache after the move; the hashes of changed keys are gone. */
  lemma CommitExactly(cfg: Config, c: Cache, m: BlockChanges, local: Drained, enacted: seq<Hash>, retracted: seq<Hash>,
                      changes: Changes, childChanges: ChildChanges, key: Key, child: ChildKey)
    requires Room(cfg, c, local, changes, childChanges)
    requires m == BlockChanges(m.number, m.hash, m.parent, Keys(changes), Keys(Flatten(childChanges)), true)
    ensures var c1 := Moved(c, m.hash, enacted, retracted);
            var c' := SyncCache(cfg, c, Some(m.parent), local, enacted, retracted, changes, childChanges, Some(m.hash), Some(m.number), true);
            && Finds(c', key, child,
                     OrElse(LastFor(changes, key), OrElse(LastFor(local.storage, key), Lookup(c1.storage, key))),
                     if key in Keys(changes) then None else OrElse(LastFor(local.hashes, key), Lookup(c1.hashes, key)),
                     OrElse(LastFor(Flatten(childChanges), child), OrElse(LastFor(local.child, child), Lookup(c1.child, child))))
            && Lists(c1.mods, c'.mods, m)
  {
    hide Lookup, LastFor, OrElse, Keys, Flatten, Lists, Sync, AddLocal, Record, SyncCache, FilterOut, Room, Listed, CanonFlag;
    var c1 := Moved(c, m.hash, enacted, retracted);
    MovedLeavesRoom(cfg, c, m.hash, enacted, retracted, local, changes, childChanges);
    AddLocalLeavesRoom(cfg, c1, local, changes, childChanges);
    AddLocalExactly(cfg, c1, local, key, child);
    RecordExactly(cfg, AddLocal(cfg, c1, local), m, changes, childChanges, key, child);
    CommitInTurn(cfg, c, m, local, enacted, retracted, changes, childChanges);
    AddLocalKeepsList(cfg, c1, local);
  }

  lemma MovedLeavesRoom(cfg: Config, c: Cache, hash: Hash, enacted: seq<Hash>, retracted: seq<Hash>, local: Drained,
                        changes: Changes, childChanges: ChildChanges)
    requires Room(cfg, c, local, changes, childChanges)
    ensures Room(cfg, Moved(c, hash, enacted, retracted), local, changes, childChanges)
  {
    hide Room, Sync, FilterOut;
    var again := if Listed(c.mods, hash) && !CanonFlag(c.mods, hash) then [hash] else [];
    SyncLeavesRoom(cfg, c, FilterOut(enacted, Some(hash)) + again, retracted, local, changes, childChanges);
  }

  lemma AddLocalKeepsList(cfg: Config, c: Cache, local: Drained)
    ensures AddLocal(cfg, c, local).mods == c.mods
  {
  }

  /** A fork block that is new is listed as not canonical and changes nothing else. */
  lemma ForkExactly(cfg: Config, c: Cache, m: BlockChanges, local: Drained, changes: Changes, childChanges: ChildChanges)
    requires !Listed(c.mods, m.hash)
    requires m == BlockChanges(m.number, m.hash, m.parent, Keys(changes), Keys(Flatten(childChanges)), false)
    ensures var c' := SyncCache(cfg, c, Some(m.parent), local, [], [], changes, childChanges, Some(m.hash), Some(m.number), false);
            c' == c.(mods := c'.mods) && Lists(c.mods, c'.mods, m)
  {
    hide Lists, Insert, Trimmed;
    SyncNothing(c);
    InsertLists(c.mods, m);
  }

  /** Dropping a state of the best block shares what was read through it; any other state leaves no trace. */
  lemma DropExactly(cfg: Config, c: Cache, parent: Hash, local: Drained, best: Hash, key: Key, child: ChildKey)
    requires Room(cfg, c, local, [], [])
    ensures parent != best ==> Drop(cfg, c, parent, local, best) == c
    ensures parent == best ==>
              Finds(Drop(cfg, c, parent, local, best), key, child,
                    OrElse(LastFor(local.storage, key), Lookup(c.storage, key)),
                    OrElse(LastFor(local.hashes, key), Lookup(c.hashes, key)),
                    OrElse(LastFor(local.child, child), Lookup(c.child, child)))
  {
    hide Lookup, LastFor, OrElse, AddLocal, Room;
    SyncNothing(c);
    AddLocalExactly(cfg, c, local, key, child);
  }

  // ----- reads

  lemma RefreshLookup<K, V>(entries: seq<(K, V)>, k: K)
    requires DistinctKeys(entries)
    ensures Lookup(Refresh(entries, k), k) == Lookup(entries, k)
  {
    var i, r := IndexOf(entries, k), Refresh(entries, k);
    RefreshFacts(entries, k);
    if i < |entries| {
      assert r[|r| - 1] == entries[i];
    }
  }

  /** What was read once through a state is not asked of the backing state again. */
  lemma SecondReadIsServed(c: Cache, local: Local, parent: Option<Hash>, key: Key, value: Option<Value>, again: Option<Value>)
    requires DistinctKeys(c.storage)
    ensures var first := ReadStorage(c, local, parent, key, value);
            ReadStorage(first.cache, first.local, parent, key, again).value == first.value
  {
    hide Lookup, Refresh, IsAllowed;
    RefreshLookup(c.storage, key);
  }

  lemma SecondHashReadIsServed(c: Cache, local: Local, parent: Option<Hash>, key: Key, value: Option<Digest>, again: Option<Digest>)
    requires DistinctKeys(c.hashes)
    ensures var first := ReadStorageHash(c, local, parent, key, value);
            ReadStorageHash(first.cache, first.local, parent, key, again).value == first.value
  {
    hide Lookup, Refresh, IsAllowed;
    RefreshLookup(c.hashes, key);
  }

  lemma SecondChildReadIsServed(c: Cache, local: Local, parent: Option<Hash>, key: ChildKey, value: Option<Value>, again: Option<Value>)
    requires DistinctKeys(c.child)
    ensures var first := ReadChildStorage(c, local, parent, key, value);
            ReadChildStorage(first.cache, first.local, parent, key, again).value == first.value
  {
    hide Lookup, Refresh, IsAllowed;
    RefreshLookup(c.child, key);
  }

  /** A read through a new state is served by the shared maps exactly if they have the key and the scan allows
      it; a served entry becomes the most recent one, otherwise the value read is kept with the state. */
  lemma FirstReadExactly(c: Cache, parent: Option<Hash>, key: Key, backing: Option<Value>)
    ensures var r, shared := ReadStorage(c, NOTHING, parent, key, backing), Lookup(c.storage, key);
            if IsAllowed(c.mods, parent, Top(key)) && shared.Some? then
              r.value == shared.value && r.local == NOTHING && r.cache == c.(storage := Refresh(c.storage, key))
            else
              r.value == backing && r.local == NOTHING.(storage := map[key := backing]) && r.cache == c
  {
  }

  lemma NewBlockIsAllowed(mods: seq<BlockChanges>, mods': seq<BlockChanges>, m: BlockChanges, k: StateKey)
    requires Lists(mods, mods', m) && !Listed(mods, m.hash) && m.isCanon
    requires forall e <- mods :: e.number >= m.number ==> !Modifies(e, k)
    ensures IsAllowed(mods', Some(m.hash), k)
  {
    var i: nat :| ListsAt(mods, mods', m, i);
    forall j | 0 <= j < i
      ensures mods'[j] in mods && mods'[j].hash != m.hash
    {
      assert (mods'[..i] + mods'[i + 1..])[j] == mods'[j];
    }
    assert IndexOfBlock(mods', m.hash) == i;
    ScanRunsToBlock(mods', 0, m.hash, k);
  }

  lemma MovedList(c: Cache, hash: Hash, enacted: seq<Hash>, retracted: seq<Hash>)
    requires !Listed(c.mods, hash)
    ensures var c1 := Moved(c, hash, enacted, retracted);
            c1.mods == [] || SameBlocks(c.mods, c1.mods)
  {
    hide Sync, SameBlocks, Stripped, AllListed, CanonFlag;
    SyncExactly(c, FilterOut(enacted, Some(hash)) + [], retracted);
  }

  lemma StillUnchanged(mods: seq<BlockChanges>, mods': seq<BlockChanges>, hash: Hash, number: nat, k: StateKey)
    requires mods' == [] || SameBlocks(mods, mods')
    requires !Listed(mods, hash) && forall e <- mods :: e.number >= number ==> !Modifies(e, k)
    ensures !Listed(mods', hash) && forall e <- mods' :: e.number >= number ==> !Modifies(e, k)
  {
    if mods' != [] {
      SameBlocksFacts(mods, mods', hash);
      forall e <- mods' | e.number >= number
        ensures !Modifies(e, k)
      {
        var i :| 0 <= i < |mods'| && mods'[i] == e;
        assert mods[i] in mods;
      }
    }
  }

  lemma EntryHolds(w: World, best: Hash, c: Cache, key: Key)
    requires Inv(w, best, c) && Lookup(c.storage, key).Some?
    ensures Lookup(c.storage, key) == Some(State(w, best, Top(key)))
  {
  }

  /** A block committed as best is served from the cache, with room: whatever the backing state says, a read
      on top of it finds the values the block changed and those read through its state, unless a listed block
      of its number or above changes the key too. */
  lemma CommitIsServed(w: World, cfg: Config, o: Hash, c: Cache, local: Drained, b: Hash, enacted: seq<Hash>, retracted: seq<Hash>,
                       key: Key, backing: Option<Value>)
    requires Inv(w, o, c) && b in w.blocks && CommitRoute(w, o, b, enacted, retracted)
    requires DrainedCoherent(w, w.blocks[b].parent, local) && Room(cfg, c, local, w.blocks[b].changes, w.blocks[b].childChanges)
    requires !Listed(c.mods, b) && forall e <- c.mods :: e.number >= w.blocks[b].number ==> !Modifies(e, Top(key))
    requires LastFor(w.blocks[b].changes, key).Some? || LastFor(local.storage, key).Some?
    ensures ReadStorage(Commit(w, cfg, c, local, b, enacted, retracted, true), NOTHING, Some(b), key, backing).value == State(w, b, Top(key))
  {
    hide *;
    var block := w.blocks[b];
    var m := BlockChanges(block.number, b, block.parent, Keys(block.changes), Keys(Flatten(block.childChanges)), true);
    var c1, c' := Moved(c, b, enacted, retracted), Commit(w, cfg, c, local, b, enacted, retracted, true);
    var child: ChildKey := (key, key);
    CommitExactly(cfg, c, m, local, enacted, retracted, block.changes, block.childChanges, key, child);
    CommitIs(w, cfg, c, local, b, enacted, retracted);
    CommitBestKeepsInv(w, cfg, o, c, local, b, enacted, retracted);
    MovedList(c, b, enacted, retracted);
    StillUnchanged(c.mods, c1.mods, b, block.number, Top(key));
    NewBlockIsAllowed(c1.mods, c'.mods, m, Top(key));
    FoundFirst(c', key, child, LastFor(block.changes, key), LastFor(local.storage, key), Lookup(c1.storage, key),
               if key in Keys(block.changes) then None else OrElse(LastFor(local.hashes, key), Lookup(c1.hashes, key)),
               OrElse(LastFor(Flatten(block.childChanges), child), OrElse(LastFor(local.child, child), Lookup(c1.child, child))));
    EntryHolds(w, b, c', key);
    FirstReadExactly(c', Some(b), key, backing);
  }

  lemma CommitIs(w: World, cfg: Config, c: Cache, local: Drained, b: Hash, enacted: seq<Hash>, retracted: seq<Hash>)
    requires b in w.blocks
    ensures var block := w.blocks[b];
            Commit(w, cfg, c, local, b, enacted, retracted, true) ==
            SyncCache(cfg, c, Some(block.parent), local, enacted, retracted, block.changes, block.childChanges, Some(b), Some(block.number), true)
  {
  }

  lemma FoundFirst(c: Cache, key: Key, child: ChildKey, a: Option<Option<Value>>, b: Option<Option<Value>>, rest: Option<Option<Value>>,
                   hash: Option<Option<Digest>>, childValue: Option<Option<Value>>)
    requires Finds(c, key, child, OrElse(a, OrElse(b, rest)), hash, childValue) && (a.Some? || b.Some?)
    ensures Lookup(c.storage, key).Some?
  {
  }
}
