/** The block tree and the storage state of every block, against which the shared cache is judged. */
module BlockStates {
  import opened Basics
  import opened LruMap

  type Key(==, !new)
  type Value(==, !new)
  type Digest(==, !new)
  type ChildKey = (Key, Key)

  /** A key of the main trie, or of a child trie. */
  datatype StateKey = Top(key: Key) | Child(child: ChildKey)

  type Changes = seq<(Key, Option<Value>)>
  type ChildChanges = seq<(Key, Changes)>

  datatype Block = Block(parent: Hash, number: nat, changes: Changes, childChanges: ChildChanges)

  /** All blocks there are, by hash: a hash determines its block, so its number, parent and changes.
      `origin` is the state of whatever lies outside the tree, such as the parent of its root. */
  datatype RawWorld = RawWorld(
    blocks: map<Hash, Block>,
    origin: (Hash, StateKey) -> Option<Value>,
    digest: Option<Value> -> Option<Digest>)

  ghost predicate NumbersFollowParents(w: RawWorld)
  {
    forall h <- w.blocks :: w.blocks[h].parent in w.blocks ==>
      w.blocks[h].number == w.blocks[w.blocks[h].parent].number + 1
  }

  type World = w: RawWorld | NumbersFollowParents(w)
    witness RawWorld(map[], (h: Hash, k: StateKey) => None, (v: Option<Value>) => None)

  // ----- the state of a block

  /** The value of a key after a list of changes, the last of which wins. */
  function After<K(==)>(changes: seq<(K, Option<Value>)>, k: K, before: Option<Value>): (v: Option<Value>)
  {
    if changes == [] then before
    else if changes[|changes| - 1].0 == k then changes[|changes| - 1].1
    else After(changes[..|changes| - 1], k, before)
  }

  function Keys<K(==)>(changes: seq<(K, Option<Value>)>): (ks: set<K>)
  {
    set c <- changes :: c.0
  }

  /** Changes of several child tries as one list. */
  function Flatten(childChanges: ChildChanges): (changes: seq<(ChildKey, Option<Value>)>)
  {
    if childChanges == [] then []
    else Tagged(childChanges[0].0, childChanges[0].1) + Flatten(childChanges[1..])
  }

  function Tagged(trie: Key, changes: Changes): (r: seq<(ChildKey, Option<Value>)>)
    ensures |r| == |changes|
    ensures forall i :: 0 <= i < |r| ==> r[i] == ((trie, changes[i].0), changes[i].1)
  {
    if changes == [] then [] else [((trie, changes[0].0), changes[0].1)] + Tagged(trie, changes[1..])
  }

  ghost function State(w: World, h: Hash, k: StateKey): (v: Option<Value>)
    decreases if h in w.blocks then w.blocks[h].number + 1 else 0
  {
    if h !in w.blocks then w.origin(h, k)
    else
      var b := w.blocks[h];
      var before := State(w, b.parent, k);
      match k
      case Top(key) => After(b.changes, key, before)
      case Child(child) => After(Flatten(b.childChanges), child, before)
  }

  predicate Changed(b: Block, k: StateKey)
  {
    match k
    case Top(key) => key in Keys(b.changes)
    case Child(child) => child in Keys(Flatten(b.childChanges))
  }

  lemma {:induction false} AfterUnchanged<K>(changes: seq<(K, Option<Value>)>, k: K, before: Option<Value>)
    requires k !in Keys(changes)
    ensures After(changes, k, before) == before
  {
    if changes != [] {
      assert changes[|changes| - 1] in changes;
      AfterUnchanged(changes[..|changes| - 1], k, before);
    }
  }

  lemma {:induction false} AfterChanged<K>(changes: seq<(K, Option<Value>)>, k: K, before: Option<Value>, before': Option<Value>)
    requires k in Keys(changes)
    ensures After(changes, k, before) == After(changes, k, before')
  {
    var n := |changes| - 1;
    if changes[n].0 != k {
      assert changes == changes[..n] + [changes[n]];
      AfterChanged(changes[..n], k, before, before');
    }
  }

  /** A block that does not change a key has its parent's value there. */
  lemma UnchangedState(w: World, h: Hash, k: StateKey)
    requires h in w.blocks && !Changed(w.blocks[h], k)
    ensures State(w, h, k) == State(w, w.blocks[h].parent, k)
  {
    var b := w.blocks[h];
    match k
    case Top(key) => AfterUnchanged(b.changes, key, State(w, b.parent, k));
    case Child(child) => AfterUnchanged(Flatten(b.childChanges), child, State(w, b.parent, k));
  }

  // ----- routes in the tree

  /** `path` leads from `c`, exclusive, up to `n`, inclusive, parents first. */
  ghost predicate PathUp(w: World, c: Hash, path: seq<Hash>, n: Hash)
    decreases |path|
  {
    if path == [] then c == n
    else
      var last := |path| - 1;
      path[last] == n && n in w.blocks && PathUp(w, c, path[..last], w.blocks[n].parent)
  }

  /** `path` leads from `o`, inclusive, down to `c`, exclusive, children first. */
  ghost predicate PathDown(w: World, o: Hash, path: seq<Hash>, c: Hash)
    decreases |path|
  {
    if path == [] then o == c
    else path[0] == o && o in w.blocks && PathDown(w, w.blocks[o].parent, path[1..], c)
  }

  /** The tree route from `o` to `n`: `retracted` leads down from `o` to a common ancestor,
      `enacted` up from there to `n`. */
  ghost predicate RouteVia(w: World, o: Hash, n: Hash, c: Hash, enacted: seq<Hash>, retracted: seq<Hash>)
  {
    PathDown(w, o, retracted, c) && PathUp(w, c, enacted, n)
  }

  ghost predicate IsRoute(w: World, o: Hash, n: Hash, enacted: seq<Hash>, retracted: seq<Hash>)
  {
    exists c :: RouteVia(w, o, n, c, enacted, retracted)
  }

  lemma {:induction false} UnchangedUp(w: World, c: Hash, path: seq<Hash>, n: Hash, k: StateKey)
    requires PathUp(w, c, path, n)
    requires forall h <- path :: h in w.blocks ==> !Changed(w.blocks[h], k)
    ensures State(w, n, k) == State(w, c, k)
    decreases |path|
  {
    if path != [] {
      assert n in path;
      UnchangedState(w, n, k);
      UnchangedUp(w, c, path[..|path| - 1], w.blocks[n].parent, k);
    }
  }

  lemma {:induction false} UnchangedDown(w: World, o: Hash, path: seq<Hash>, c: Hash, k: StateKey)
    requires PathDown(w, o, path, c)
    requires forall h <- path :: h in w.blocks ==> !Changed(w.blocks[h], k)
    ensures State(w, o, k) == State(w, c, k)
    decreases |path|
  {
    if path != [] {
      UnchangedState(w, o, k);
      UnchangedDown(w, w.blocks[o].parent, path[1..], c, k);
    }
  }

  /** If no block of the route changes a key, both ends of the route have the same value there. */
  lemma UnchangedAlongRoute(w: World, o: Hash, n: Hash, enacted: seq<Hash>, retracted: seq<Hash>, k: StateKey)
    requires IsRoute(w, o, n, enacted, retracted)
    requires forall h <- enacted :: h in w.blocks ==> !Changed(w.blocks[h], k)
    requires forall h <- retracted :: h in w.blocks ==> !Changed(w.blocks[h], k)
    ensures State(w, o, k) == State(w, n, k)
  {
    var c :| RouteVia(w, o, n, c, enacted, retracted);
    UnchangedDown(w, o, retracted, c, k);
    UnchangedUp(w, c, enacted, n, k);
  }
}
