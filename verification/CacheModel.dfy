/** The shared state cache as a value: three bounded maps of canonical values and the changes of recent
    blocks. Synchronising, committing and looking up are functions on it. */
module CacheModel {
  import opened Basics
  import opened LruMap
  import opened BlockStates

  const STATE_CACHE_BLOCKS: nat := 12

  /** The keys changed by a recently committed block. */
  datatype BlockChanges = BlockChanges(
    number: nat, hash: Hash, parent: Hash, storage: set<Key>, childStorage: set<ChildKey>, isCanon: bool)

  datatype Cache = Cache(
    storage: seq<(Key, Option<Value>)>,
    hashes: seq<(Key, Option<Digest>)>,
    child: seq<(ChildKey, Option<Value>)>,
    mods: seq<BlockChanges>)

  /** Size limits and size estimates of the three maps. */
  datatype Config = Config(
    storageLimit: nat, storageSizes: Sizes<Key, Option<Value>>,
    hashLimit: nat, hashSizes: Sizes<Key, Option<Digest>>,
    childLimit: nat, childSizes: Sizes<ChildKey, Option<Value>>)

  const EMPTY: Cache := Cache([], [], [], [])

  // ----- the list of recent blocks

  /** Position of the first entry for a block, or the length of the list. */
  function IndexOfBlock(mods: seq<BlockChanges>, h: Hash): (i: nat)
    ensures i <= |mods|
    ensures i < |mods| ==> mods[i].hash == h
    ensures forall j :: 0 <= j < i ==> mods[j].hash != h
  {
    if mods == [] || mods[0].hash == h then 0 else 1 + IndexOfBlock(mods[1..], h)
  }

  predicate Listed(mods: seq<BlockChanges>, h: Hash)
  {
    IndexOfBlock(mods, h) < |mods|
  }

  /** The block counts as canonical: the first entry for it says so. */
  predicate CanonFlag(mods: seq<BlockChanges>, h: Hash)
  {
    Listed(mods, h) && mods[IndexOfBlock(mods, h)].isCanon
  }

  predicate Modifies(m: BlockChanges, k: StateKey)
  {
    match k
    case Top(key) => key in m.storage
    case Child(child) => child in m.childStorage
  }

  // ----- lookups

  /** The scan of `is_allowed` from position `i` on, looking for `parent`. */
  predicate AllowedFrom(mods: seq<BlockChanges>, i: nat, parent: Hash, k: StateKey)
    requires i <= |mods|
    decreases |mods| - i
  {
    if i == |mods| then false
    else
      var m := mods[i];
      if m.hash == parent && m.isCanon then true
      else if Modifies(m, k) then false
      else AllowedFrom(mods, i + 1, if m.hash == parent then m.parent else parent, k)
  }

  predicate IsAllowed(mods: seq<BlockChanges>, parent: Option<Hash>, k: StateKey)
  {
    parent.Some? && AllowedFrom(mods, 0, parent.value, k)
  }

  // ----- synchronising with the best block

  function Purge(c: Cache, i: nat, canon: bool): (c': Cache)
    requires i < |c.mods|
  {
    var m := c.mods[i];
    Cache(Without(c.storage, m.storage), Without(c.hashes, m.storage), Without(c.child, m.childStorage),
          c.mods[i := m.(isCanon := canon)])
  }

  /** Marks blocks as canonical or not and drops what they changed; fails at a block that is not listed. */
  function Mark(c: Cache, blocks: seq<Hash>, canon: bool): (r: Option<Cache>)
    decreases |blocks|
  {
    if blocks == [] then Some(c)
    else if !Listed(c.mods, blocks[0]) then None
    else Mark(Purge(c, IndexOfBlock(c.mods, blocks[0]), canon), blocks[1..], canon)
  }

  function Sync(c: Cache, enacted: seq<Hash>, retracted: seq<Hash>): (c': Cache)
  {
    match Mark(c, enacted, true)
    case None => EMPTY
    case Some(c1) =>
      match Mark(c1, retracted, false)
      case None => EMPTY
      case Some(c2) => c2
  }

  // ----- committing a block

  function AddAll<K(==), V>(entries: seq<(K, V)>, more: seq<(K, V)>, sizes: Sizes<K, V>, limit: nat): (r: seq<(K, V)>)
    decreases |more|
  {
    if more == [] then entries
    else
      var last := |more| - 1;
      Added(AddAll(entries, more[..last], sizes, limit), more[last].0, more[last].1, sizes, limit)
  }

  function InsertPosition(mods: seq<BlockChanges>, number: nat): (i: nat)
    ensures i <= |mods|
    ensures i < |mods| ==> mods[i].number < number
    ensures forall j :: 0 <= j < i ==> mods[j].number >= number
  {
    if mods == [] || mods[0].number < number then 0 else 1 + InsertPosition(mods[1..], number)
  }

  function Insert(mods: seq<BlockChanges>, m: BlockChanges): (r: seq<BlockChanges>)
  {
    var i := InsertPosition(mods, m.number);
    mods[..i] + [m] + mods[i..]
  }

  /** Room for one more block: the entry at the back goes if the list is full. */
  function Trimmed(mods: seq<BlockChanges>): (r: seq<BlockChanges>)
  {
    if |mods| == STATE_CACHE_BLOCKS then mods[..|mods| - 1] else mods
  }

  function Record(cfg: Config, c: Cache, number: nat, hash: Hash, parent: Hash,
                  changes: Changes, childChanges: ChildChanges, isBest: bool): (c': Cache)
  {
    var flat := Flatten(childChanges);
    var m := BlockChanges(number, hash, parent, Keys(changes), Keys(flat), isBest);
    var mods := Insert(Trimmed(c.mods), m);
    if isBest then
      Cache(AddAll(c.storage, changes, cfg.storageSizes, cfg.storageLimit),
            Without(c.hashes, Keys(changes)),
            AddAll(c.child, flat, cfg.childSizes, cfg.childLimit),
            mods)
    else c.(mods := mods)
  }

  /** Values read through one state, in the order in which its hash maps hand them over. */
  datatype Drained = Drained(
    storage: seq<(Key, Option<Value>)>, hashes: seq<(Key, Option<Digest>)>, child: seq<(ChildKey, Option<Value>)>)

  function AddLocal(cfg: Config, c: Cache, local: Drained): (c': Cache)
  {
    Cache(AddAll(c.storage, local.storage, cfg.storageSizes, cfg.storageLimit),
          AddAll(c.hashes, local.hashes, cfg.hashSizes, cfg.hashLimit),
          AddAll(c.child, local.child, cfg.childSizes, cfg.childLimit),
          c.mods)
  }

  function FilterOut(blocks: seq<Hash>, h: Option<Hash>): (r: seq<Hash>)
    ensures |r| <= |blocks|
  {
    if blocks == [] then []
    else (if h == Some(blocks[0]) then [] else [blocks[0]]) + FilterOut(blocks[1..], h)
  }

  /** The committed block is already listed, with the other flag. */
  predicate Relisted(mods: seq<BlockChanges>, hash: Option<Hash>, isBest: bool)
  {
    hash.Some? && Listed(mods, hash.value) && CanonFlag(mods, hash.value) != isBest
  }

  function SyncCache(cfg: Config, c: Cache, parent: Option<Hash>, local: Drained,
                     enacted: seq<Hash>, retracted: seq<Hash>, changes: Changes, childChanges: ChildChanges,
                     hash: Option<Hash>, number: Option<nat>, isBest: bool): (c': Cache)
  {
    var relisted := Relisted(c.mods, hash, isBest);
    var enacted' := FilterOut(enacted, hash) + (if relisted && isBest then [hash.value] else []);
    var retracted' := retracted + (if relisted && !isBest then [hash.value] else []);
    var c1 := Sync(c, enacted', retracted');
    var c2 := if parent.Some? && isBest then AddLocal(cfg, c1, local) else c1;
    if number.Some? && hash.Some? && parent.Some? then
      Record(cfg, c2, number.value, hash.value, parent.value, changes, childChanges, isBest)
    else c2
  }

  // ----- the invariant

  ghost predicate Faithful(w: World, m: BlockChanges)
  {
    && m.hash in w.blocks
    && var b := w.blocks[m.hash];
       && m.number == b.number && m.parent == b.parent
       && m.storage == Keys(b.changes) && m.childStorage == Keys(Flatten(b.childChanges))
  }

  ghost predicate Descending(mods: seq<BlockChanges>)
  {
    forall i, j :: 0 <= i < j < |mods| ==> mods[i].number >= mods[j].number
  }

  /** Walking down from `b` one meets `t`, and every block on the way there is listed. */
  ghost predicate Reaches(w: World, mods: seq<BlockChanges>, b: Hash, t: Hash)
    decreases if b in w.blocks then w.blocks[b].number + 1 else 0
  {
    b == t || (b in w.blocks && Listed(mods, b) && Reaches(w, mods, w.blocks[b].parent, t))
  }

  /** The list is ordered by number, holds true facts, and a block that counts as canonical lies on the
      canonical chain with all canonical blocks above it listed. */
  ghost predicate Structured(w: World, best: Hash, mods: seq<BlockChanges>)
  {
    && (forall m <- mods :: Faithful(w, m))
    && Descending(mods)
    && (forall h :: CanonFlag(mods, h) ==> Reaches(w, mods, best, h))
  }

  /** Every cached value is the value at block `h`. */
  ghost predicate Coherent(w: World, h: Hash, c: Cache)
  {
    && DistinctKeys(c.storage) && DistinctKeys(c.hashes) && DistinctKeys(c.child)
    && (forall e <- c.storage :: e.1 == State(w, h, Top(e.0)))
    && (forall e <- c.hashes :: e.1 == w.digest(State(w, h, Top(e.0))))
    && (forall e <- c.child :: e.1 == State(w, h, Child(e.0)))
  }

  ghost predicate Inv(w: World, best: Hash, c: Cache)
  {
    Structured(w, best, c.mods) && |c.mods| <= STATE_CACHE_BLOCKS && Coherent(w, best, c)
  }

  // ----- the scan, read as a walk in the tree

  ghost predicate NoneModifies(mods: seq<BlockChanges>, from: nat, to: nat, k: StateKey)
    requires to <= |mods|
  {
    forall j :: from <= j < to ==> !Modifies(mods[j], k)
  }

  /** A lookup at block `p`, said without the scan: `p` is listed, nothing listed before it changes the
      key, and it is canonical, or leaves the key alone and its parent may be looked up. */
  ghost predicate TreeAllowed(w: World, mods: seq<BlockChanges>, p: Hash, k: StateKey)
    decreases if p in w.blocks then w.blocks[p].number + 1 else 0
  {
    && Listed(mods, p) && p in w.blocks
    && NoneModifies(mods, 0, IndexOfBlock(mods, p), k)
    && (CanonFlag(mods, p) || (!Modifies(mods[IndexOfBlock(mods, p)], k) && TreeAllowed(w, mods, w.blocks[p].parent, k)))
  }

  /** From any position before the first entry for `p`, the scan runs on to that entry. */
  lemma {:induction false} ScanRunsToBlock(mods: seq<BlockChanges>, i: nat, p: Hash, k: StateKey)
    requires i <= IndexOfBlock(mods, p)
    ensures var at := IndexOfBlock(mods, p);
            AllowedFrom(mods, i, p, k) <==>
            && at < |mods| && NoneModifies(mods, i, at, k)
            && (mods[at].isCanon || (!Modifies(mods[at], k) && AllowedFrom(mods, at + 1, mods[at].parent, k)))
    decreases |mods| - i
  {
    if i < IndexOfBlock(mods, p) {
      ScanRunsToBlock(mods, i + 1, p, k);
    }
  }

  lemma ParentComesLater(w: World, mods: seq<BlockChanges>, i: nat)
    requires (forall m <- mods :: Faithful(w, m)) && Descending(mods) && i < |mods|
    ensures i < IndexOfBlock(mods, mods[i].parent)
  {
    var j := IndexOfBlock(mods, mods[i].parent);
    assert Faithful(w, mods[i]);
    if j < |mods| {
      assert Faithful(w, mods[j]);
    }
  }

  /** The single pass over the list decides exactly the walk from the block up to the canonical chain. */
  lemma {:induction false} ScanIsTreeWalk(w: World, mods: seq<BlockChanges>, p: Hash, k: StateKey)
    requires (forall m <- mods :: Faithful(w, m)) && Descending(mods)
    ensures IsAllowed(mods, Some(p), k) <==> TreeAllowed(w, mods, p, k)
    decreases if p in w.blocks then w.blocks[p].number + 1 else 0
  {
    ScanRunsToBlock(mods, 0, p, k);
    var at := IndexOfBlock(mods, p);
    if at < |mods| {
      var parent := mods[at].parent;
      assert Faithful(w, mods[at]);
      ParentComesLater(w, mods, at);
      ScanIsTreeWalk(w, mods, parent, k);
      ScanRunsToBlock(mods, 0, parent, k);
      ScanRunsToBlock(mods, at + 1, parent, k);
    }
  }

  // ----- an allowed lookup sees the state of its own block

  lemma FaithfulModifies(w: World, m: BlockChanges, k: StateKey)
    requires Faithful(w, m) && !Modifies(m, k)
    ensures State(w, m.hash, k) == State(w, m.parent, k)
  {
    UnchangedState(w, m.hash, k);
  }

  /** If the entries before position `i` leave a key alone, so does every block on the way down to entry `i`. */
  lemma {:induction false} UnchangedDownTo(w: World, mods: seq<BlockChanges>, b: Hash, i: nat, k: StateKey)
    requires (forall m <- mods :: Faithful(w, m)) && Descending(mods)
    requires i < |mods| && Reaches(w, mods, b, mods[i].hash)
    requires forall j :: 0 <= j < i ==> !Modifies(mods[j], k)
    ensures State(w, b, k) == State(w, mods[i].hash, k)
    ensures b in w.blocks && w.blocks[b].number >= mods[i].number
    decreases if b in w.blocks then w.blocks[b].number + 1 else 0
  {
    assert Faithful(w, mods[i]);
    if b != mods[i].hash {
      UnchangedDownTo(w, mods, w.blocks[b].parent, i, k);
      var j := IndexOfBlock(mods, b);
      assert Faithful(w, mods[j]);
      assert mods[j].number > mods[i].number;
      FaithfulModifies(w, mods[j], k);
    }
  }

  lemma {:induction false} AllowedFromIsSound(w: World, best: Hash, mods: seq<BlockChanges>, i: nat, p: Hash, k: StateKey)
    requires Structured(w, best, mods) && i <= |mods|
    requires AllowedFrom(mods, i, p, k)
    requires forall j :: 0 <= j < i ==> mods[j].hash != p && !Modifies(mods[j], k)
    ensures State(w, p, k) == State(w, best, k)
    decreases |mods| - i
  {
    var m := mods[i];
    assert Faithful(w, m);
    if m.hash == p && m.isCanon {
      assert IndexOfBlock(mods, p) == i;
      assert CanonFlag(mods, p);
      UnchangedDownTo(w, mods, best, i, k);
    } else if m.hash == p {
      FaithfulModifies(w, m, k);
      forall j | 0 <= j < i + 1
        ensures mods[j].hash != m.parent
      {
        assert Faithful(w, mods[j]);
        if j < i {
          assert mods[j].number >= mods[i].number;
        }
      }
      AllowedFromIsSound(w, best, mods, i + 1, m.parent, k);
    } else {
      AllowedFromIsSound(w, best, mods, i + 1, p, k);
    }
  }

  /** Whenever the scan lets a lookup at block `p` use the shared cache, `p` and the best block agree on the key. */
  lemma AllowedIsSound(w: World, best: Hash, mods: seq<BlockChanges>, p: Hash, k: StateKey)
    requires Structured(w, best, mods) && IsAllowed(mods, Some(p), k)
    ensures State(w, p, k) == State(w, best, k)
  {
    AllowedFromIsSound(w, best, mods, 0, p, k);
  }
}
