/** The shared cache and the states that read through it, as objects; each method is proved against the
    functions of `CacheModel` and `CacheRuns`. */
module StorageCache {
  import opened Basics
  import opened LruMap
  import opened BlockStates
  import opened CacheModel
  import opened CacheRuns

  lemma {:induction false} MarkAppend(c: Cache, blocks: seq<Hash>, h: Hash, canon: bool)
    ensures Mark(c, blocks + [h], canon) ==
            match Mark(c, blocks, canon)
            case None => None
            case Some(c1) => if Listed(c1.mods, h) then Some(Purge(c1, IndexOfBlock(c1.mods, h), canon)) else None
    decreases |blocks|
  {
    var all := blocks + [h];
    if blocks == [] {
      assert all[1..] == [];
    } else {
      assert all[0] == blocks[0] && all[1..] == blocks[1..] + [h];
      if Listed(c.mods, blocks[0]) {
        MarkAppend(Purge(c, IndexOfBlock(c.mods, blocks[0]), canon), blocks[1..], h, canon);
      }
    }
  }

  class SharedCache {
    const lruStorage: LRUMap<Key, Option<Value>>
    const lruHashes: LRUMap<Key, Option<Digest>>
    const lruChildStorage: LRUMap<ChildKey, Option<Value>>
    var modifications: seq<BlockChanges>

    ghost predicate Valid()
      reads this, lruStorage, lruHashes, lruChildStorage
    {
      && lruStorage as object != lruHashes && lruStorage as object != lruChildStorage && lruHashes as object != lruChildStorage
      && lruStorage.Valid() && lruHashes.Valid() && lruChildStorage.Valid()
    }

    ghost function View(): (c: Cache)
      reads this, lruStorage, lruHashes, lruChildStorage
    {
      Cache(lruStorage.entries, lruHashes.entries, lruChildStorage.entries, modifications)
    }

    ghost function Configuration(): (cfg: Config)
    {
      Config(lruStorage.limit, lruStorage.sizes, lruHashes.limit, lruHashes.sizes, lruChildStorage.limit, lruChildStorage.sizes)
    }

    constructor (cfg: Config)
      ensures Valid() && fresh(lruStorage) && fresh(lruHashes) && fresh(lruChildStorage)
      ensures View() == EMPTY && Configuration() == cfg
    {
      lruStorage := new LRUMap(cfg.storageLimit, cfg.storageSizes);
      lruHashes := new LRUMap(cfg.hashLimit, cfg.hashSizes);
      lruChildStorage := new LRUMap(cfg.childLimit, cfg.childSizes);
      modifications := [];
    }

    /** Marks the listed blocks one by one; stops changing anything once a block is unknown. */
    method MarkAll(blocks: seq<Hash>, canon: bool, wipe: bool) returns (clear: bool)
      requires Valid()
      modifies `modifications, lruStorage, lruHashes, lruChildStorage
      ensures Valid()
      ensures wipe ==> clear
      ensures !wipe ==> match Mark(old(View()), blocks, canon)
                        case None => clear
                        case Some(c) => !clear && View() == c
    {
      clear := wipe;
      for i := 0 to |blocks|
        invariant Valid()
        invariant wipe ==> clear
        invariant !wipe ==> match Mark(old(View()), blocks[..i], canon)
                            case None => clear
                            case Some(c) => !clear && View() == c
      {
        assert blocks[..i + 1] == blocks[..i] + [blocks[i]];
        MarkAppend(old(View()), blocks[..i], blocks[i], canon);
        if !clear {
          var at := IndexOfBlock(modifications, blocks[i]);
          if at < |modifications| {
            var m := modifications[at];
            modifications := modifications[at := m.(isCanon := canon)];
            RemoveEach(lruStorage, m.storage);
            RemoveEach(lruHashes, m.storage);
            RemoveEach(lruChildStorage, m.childStorage);
          } else {
            clear := true;
          }
        }
      }
      assert blocks[..|blocks|] == blocks;
    }

    method Sync(enacted: seq<Hash>, retracted: seq<Hash>)
      requires Valid()
      modifies `modifications, lruStorage, lruHashes, lruChildStorage
      ensures Valid() && View() == CacheModel.Sync(old(View()), enacted, retracted)
    {
      var clear := MarkAll(enacted, true, false);
      clear := MarkAll(retracted, false, clear);
      if clear {
        lruStorage.Clear();
        lruChildStorage.Clear();
        lruHashes.Clear();
        modifications := [];
      }
    }
  }

  /** A state on top of a block: reads go to its own values, then to the shared cache, then to the backing state. */
  class CachingState {
    const shared: SharedCache
    const parentHash: Option<Hash>
    var local: Local

    ghost predicate Valid()
      reads this, shared, shared.lruStorage, shared.lruHashes, shared.lruChildStorage
    {
      && shared.lruStorage as object != this && shared.lruHashes as object != this && shared.lruChildStorage as object != this
      && shared as object != this
      && shared.Valid()
    }

    constructor (shared: SharedCache, parentHash: Option<Hash>)
      requires shared.Valid()
      ensures Valid() && this.shared == shared && this.parentHash == parentHash && local == NOTHING
    {
      this.shared, this.parentHash, local := shared, parentHash, NOTHING;
    }

    /** The scan over recent blocks that decides whether a lookup may use the shared cache. */
    static method IsAllowed(mods: seq<BlockChanges>, parentHash: Option<Hash>, k: StateKey) returns (allowed: bool)
      ensures allowed == CacheModel.IsAllowed(mods, parentHash, k)
    {
      if parentHash.None? {
        return false;
      }
      var parent := parentHash.value;
      for i := 0 to |mods|
        invariant AllowedFrom(mods, i, parent, k) == AllowedFrom(mods, 0, parentHash.value, k)
      {
        var m := mods[i];
        if m.hash == parent {
          if m.isCanon {
            return true;
          }
          parent := m.parent;
        }
        if Modifies(m, k) {
          return false;
        }
      }
      return false;
    }

    method Storage(key: Key, backing: Option<Value>) returns (value: Option<Value>)
      requires Valid()
      modifies `local, shared.lruStorage`entries, shared.lruStorage`used
      ensures Valid()
      ensures ReadOutcome(value, shared.View(), local) == ReadStorage(old(shared.View()), old(local), parentHash, key, backing)
    {
      if key in local.storage {
        return local.storage[key];
      }
      var allowed := IsAllowed(shared.modifications, parentHash, Top(key));
      if allowed {
        var entry := shared.lruStorage.Get(key);
        if entry.Some? {
          return entry.value;
        }
        RefreshAbsent(old(shared.lruStorage.entries), key);
      }
      local := local.(storage := local.storage[key := backing]);
      return backing;
    }

    method StorageHash(key: Key, backing: Option<Digest>) returns (hash: Option<Digest>)
      requires Valid()
      modifies `local, shared.lruHashes`entries, shared.lruHashes`used
      ensures Valid()
      ensures ReadOutcome(hash, shared.View(), local) == ReadStorageHash(old(shared.View()), old(local), parentHash, key, backing)
    {
      if key in local.hashes {
        return local.hashes[key];
      }
      var allowed := IsAllowed(shared.modifications, parentHash, Top(key));
      if allowed {
        var entry := shared.lruHashes.Get(key);
        if entry.Some? {
          return entry.value;
        }
        RefreshAbsent(old(shared.lruHashes.entries), key);
      }
      local := local.(hashes := local.hashes[key := backing]);
      return backing;
    }

    method ChildStorage(key: ChildKey, backing: Option<Value>) returns (value: Option<Value>)
      requires Valid()
      modifies `local, shared.lruChildStorage`entries, shared.lruChildStorage`used
      ensures Valid()
      ensures ReadOutcome(value, shared.View(), local) == ReadChildStorage(old(shared.View()), old(local), parentHash, key, backing)
    {
      if key in local.child {
        return local.child[key];
      }
      var allowed := IsAllowed(shared.modifications, parentHash, Child(key));
      if allowed {
        var entry := shared.lruChildStorage.Get(key);
        if entry.Some? {
          return entry.value;
        }
        RefreshAbsent(old(shared.lruChildStorage.entries), key);
      }
      local := local.(child := local.child[key := backing]);
      return backing;
    }

    /** Hands the local values to the shared cache, in the order in which the hash maps yield them. */
    method ShareLocal(drained: Drained)
      requires Valid() && Drains(drained, local)
      modifies `local, shared.lruStorage, shared.lruHashes, shared.lruChildStorage
      ensures Valid() && local == NOTHING
      ensures shared.View() == AddLocal(shared.Configuration(), old(shared.View()), drained)
    {
      AddEach(shared.lruStorage, drained.storage);
      AddEach(shared.lruChildStorage, drained.child);
      AddEach(shared.lruHashes, drained.hashes);
      local := NOTHING;
    }

    /** Adds the changes of a committed block: to the shared values if it is the best block, and always
        to the list of recent blocks. */
    method RecordBlock(number: nat, hash: Hash, parent: Hash, changes: Changes, childChanges: ChildChanges, isBest: bool)
      requires Valid()
      modifies shared`modifications, shared.lruStorage, shared.lruHashes, shared.lruChildStorage
      ensures Valid()
      ensures shared.View() == Record(shared.Configuration(), old(shared.View()), number, hash, parent, changes, childChanges, isBest)
    {
      var flat := Flatten(childChanges);
      if |shared.modifications| == STATE_CACHE_BLOCKS {
        shared.modifications := shared.modifications[..|shared.modifications| - 1];
      }
      if isBest {
        AddEach(shared.lruChildStorage, flat);
        RemoveEach(shared.lruHashes, Keys(changes));
        AddEach(shared.lruStorage, changes);
      }
      var m := BlockChanges(number, hash, parent, Keys(changes), Keys(flat), isBest);
      var at := InsertPosition(shared.modifications, number);
      shared.modifications := shared.modifications[..at] + [m] + shared.modifications[at..];
    }

    method SyncCache(drained: Drained, enacted: seq<Hash>, retracted: seq<Hash>, changes: Changes, childChanges: ChildChanges,
                     commitHash: Option<Hash>, commitNumber: Option<nat>, isBest: bool)
      requires Valid() && Drains(drained, local)
      modifies `local, shared`modifications, shared.lruStorage, shared.lruHashes, shared.lruChildStorage
      ensures Valid()
      ensures shared.View() == CacheModel.SyncCache(shared.Configuration(), old(shared.View()), parentHash, drained, enacted, retracted,
                                                    changes, childChanges, commitHash, commitNumber, isBest)
      ensures local == if parentHash.Some? && isBest then NOTHING else old(local)
    {
      var enacted', retracted' := FilterOut(enacted, commitHash), retracted;
      if commitHash.Some? {
        var at := IndexOfBlock(shared.modifications, commitHash.value);
        if at < |shared.modifications| && shared.modifications[at].isCanon != isBest {
          if isBest {
            enacted' := enacted' + [commitHash.value];
          } else {
            retracted' := retracted' + [commitHash.value];
          }
        }
      }
      assert enacted' == FilterOut(enacted, commitHash) + (if Relisted(shared.modifications, commitHash, isBest) && isBest then [commitHash.value] else []);
      assert retracted' == retracted + (if Relisted(shared.modifications, commitHash, isBest) && !isBest then [commitHash.value] else []);
      shared.Sync(enacted', retracted');
      if parentHash.Some? && isBest {
        ShareLocal(drained);
      }
      if commitNumber.Some? && commitHash.Some? && parentHash.Some? {
        RecordBlock(commitNumber.value, commitHash.value, parentHash.value, changes, childChanges, isBest);
      }
    }

    /** Dropping a state shares what it read if it was a state of the best block. */
    method DropState(drained: Drained, best: Hash)
      requires Valid() && Drains(drained, local)
      modifies `local, shared`modifications, shared.lruStorage, shared.lruHashes, shared.lruChildStorage
      ensures Valid()
      ensures shared.View() == if parentHash.Some? then Drop(shared.Configuration(), old(shared.View()), parentHash.value, drained, best)
                               else old(shared.View())
    {
      if parentHash.Some? {
        SyncCache(drained, [], [], [], [], None, None, parentHash.value == best);
      }
    }
  }

  lemma RefreshAbsent<K, V>(entries: seq<(K, V)>, k: K)
    requires Lookup(entries, k).None?
    ensures Refresh(entries, k) == entries
  {
  }

  method RemoveEach<K(==), V>(lru: LRUMap<K, V>, keys: set<K>)
    requires lru.Valid()
    modifies lru
    ensures lru.Valid() && lru.entries == Without(old(lru.entries), keys)
  {
    hide Without, DistinctKeys, Weight;
    WithoutNone(lru.entries);
    var rest := keys;
    assert keys - rest == {};
    while rest != {}
      invariant lru.Valid() && rest <= keys
      invariant lru.entries == Without(old(lru.entries), keys - rest)
      decreases |rest|
    {
      var k :| k in rest;
      WithoutTwice(old(lru.entries), keys - rest, {k});
      assert keys - (rest - {k}) == keys - rest + {k};
      lru.Remove(k);
      rest := rest - {k};
    }
    assert keys - rest == keys;
  }

  method AddEach<K(==), V>(lru: LRUMap<K, V>, more: seq<(K, V)>)
    requires lru.Valid()
    modifies lru
    ensures lru.Valid() && lru.entries == AddAll(old(lru.entries), more, lru.sizes, lru.limit)
  {
    for i := 0 to |more|
      invariant lru.Valid() && lru.entries == AddAll(old(lru.entries), more[..i], lru.sizes, lru.limit)
    {
      assert more[..i + 1][..i] == more[..i];
      lru.Add(more[i].0, more[i].1);
    }
    assert more[..|more|] == more;
  }

  lemma {:induction false} WithoutNone<K, V>(entries: seq<(K, V)>)
    ensures Without(entries, {}) == entries
  {
    if entries != [] {
      WithoutNone(entries[1..]);
    }
  }
}
