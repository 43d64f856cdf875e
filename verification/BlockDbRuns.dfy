/** Every run of the block database keeps leaves, children, index and finality in order. */
module BlockDbRuns {
  import opened Basics
  import opened Leaves
  import opened BlockTree
  import opened BlockDb

  // ----- the tree

  /** A block the database has not seen, nor any child of it, right above a known block or the first of all. */
  ghost predicate Fresh(db: Db, hash: Hash, header: Header)
  {
    && hash !in db.headers && hash !in db.children && header.parent != hash
    && (header.number == 0 <==> db.headers == map[])
    && (header.number > 0 ==> header.parent in db.headers && header.number == db.headers[header.parent].number + 1)
  }

  lemma TreeGrows(db: Db, hash: Hash, header: Header)
    requires Tree(db.headers) && Kin(db.headers, db.children) && Fresh(db, hash, header)
    ensures Tree(db.headers[hash := header])
  {
    var t, t' := db.headers, db.headers[hash := header];
    forall h | h in t'
      ensures Above(t', h)
    {
      if h != hash {
        assert Above(t, h) && t[h].parent in db.children;
      }
    }
  }

  lemma ChainInGrownTree(db: Db, hash: Hash, header: Header, h: Hash)
    requires Tree(db.headers) && Fresh(db, hash, header) && Tree(db.headers[hash := header]) && h in db.headers
    ensures Chain(db.headers[hash := header], h) == Chain(db.headers, h)
  {
    ChainStays(db.headers, db.headers[hash := header], h);
  }

  lemma ChainOfNewBlock(db: Db, hash: Hash, header: Header)
    requires Tree(db.headers) && Fresh(db, hash, header) && Tree(db.headers[hash := header])
    ensures Chain(db.headers[hash := header], hash) == (if header.number == 0 then [] else Chain(db.headers, header.parent)) + [hash]
  {
    if header.number > 0 {
      ChainInGrownTree(db, hash, header, header.parent);
    }
  }

  lemma {:induction false} ChainLinks(t: Headers, h: Hash, i: nat)
    requires Tree(t) && h in t && 0 < i <= t[h].number
    ensures t[Chain(t, h)[i]].parent == Chain(t, h)[i - 1]
    decreases t[h].number
  {
    assert Above(t, h);
    if i < t[h].number {
      ChainLinks(t, t[h].parent, i);
    }
  }

  /** A childless block is on the chain of no other block. */
  lemma ChildlessIsNoAncestor(t: Headers, children: map<Hash, seq<Hash>>, h: Hash, x: Hash)
    requires Tree(t) && Kin(t, children) && h in t && h !in children && x in t && x != h
    ensures h !in Chain(t, x)
  {
    var c := Chain(t, x);
    if h in c {
      var i :| 0 <= i < |c| && c[i] == h;
      ChainLinks(t, x, i + 1);
    }
  }

  lemma TreeShrinks(t: Headers, children: map<Hash, seq<Hash>>, h: Hash)
    requires Tree(t) && Kin(t, children) && h in t && h !in children
    ensures Tree(t - {h})
  {
    forall x | x in t - {h}
      ensures Above(t - {h}, x)
    {
      assert Above(t, x) && t[x].parent in children;
    }
  }

  lemma ChainInShrunkTree(t: Headers, children: map<Hash, seq<Hash>>, h: Hash, x: Hash)
    requires Tree(t) && Kin(t, children) && h in t && h !in children && x in t && x != h && Tree(t - {h})
    ensures Chain(t - {h}, x) == Chain(t, x)
  {
    ChildlessIsNoAncestor(t, children, h, x);
    ChainStays(t, t - {h}, x);
  }

  // ----- children

  lemma KinGrows(db: Db, hash: Hash, header: Header)
    requires Kin(db.headers, db.children) && Fresh(db, hash, header)
    ensures Kin(db.headers[hash := header], AddChild(db.children, header.parent, hash))
  {
  }

  lemma {:induction false} ExcludingElements(s: seq<Hash>, h: Hash)
    ensures h !in Excluding(s, h)
    ensures forall x :: x != h ==> (x in Excluding(s, h) <==> x in s)
  {
    if s != [] {
      ExcludingElements(s[1..], h);
    }
  }

  lemma KinShrinks(db: Db, h: Hash)
    requires Kin(db.headers, db.children) && h in db.headers && h !in db.children && db.headers[h].parent != h
    ensures var p, siblings := db.headers[h].parent, Siblings(db, h);
            Kin(db.headers - {h}, if siblings == [] then db.children - {p} else db.children[p := siblings])
  {
    ExcludingElements(Children(db, db.headers[h].parent), h);
  }

  // ----- head changes

  /** After a successful head change over a known block, the index is that of the new best chain, and
      the finalized block is still on it. */
  lemma HeadChangeIsExact(db: Db, routeTo: Hash, number: nat, hash: Hash)
    requires Tree(db.headers) && Canonical(db) && db.best.Some? && routeTo in db.headers
    requires SetHead(db, routeTo, number, hash).Ok?
    ensures var c, was := Chain(db.headers, routeTo), Chain(db.headers, db.best.value);
            && SetHead(db, routeTo, number, hash).value == AsIndex(c)[number := hash]
            && db.finalizedNumber < |c| && c[..db.finalizedNumber + 1] == was[..db.finalizedNumber + 1]
            && c[0] == was[0]
  {
    hide AsIndex, InsertNumbers, RemoveNumbers, TreeRoute;
    ReorgIsExact(db.headers, db.best.value, routeTo);
    RetractedOrKept(db.headers, db.best.value, routeTo, db.finalizedNumber);
    var c, was := Chain(db.headers, routeTo), Chain(db.headers, db.best.value);
    assert c[..db.finalizedNumber + 1][0] == c[0] && was[..db.finalizedNumber + 1][0] == was[0];
  }

  /** A block is on the chain of another exactly if everything up to it is. */
  lemma OnChainIsPrefix(t: Headers, a: Hash, b: Hash, i: nat)
    requires Tree(t) && a in t && b in t && i <= t[a].number
    ensures OnChain(Chain(t, b), i, Chain(t, a)[i]) <==> i <= t[b].number && Chain(t, a)[..i + 1] == Chain(t, b)[..i + 1]
  {
    hide Tree, Chain;
    var ca, cb := Chain(t, a), Chain(t, b);
    if OnChain(cb, i, ca[i]) {
      ChainPrefix(t, a, i);
      ChainPrefix(t, b, i);
    } else if i <= t[b].number {
      assert ca[..i + 1][i] == ca[i] && cb[..i + 1][i] == cb[i];
    }
  }

  /** A head change over a known block succeeds exactly if it does not go back too far and the finalized
      block is on the chain of that block. */
  lemma HeadChangeSucceedsExactly(db: Db, routeTo: Hash, number: nat, hash: Hash)
    requires Tree(db.headers) && Canonical(db) && db.best.Some? && routeTo in db.headers
    ensures SetHead(db, routeTo, number, hash).Ok? <==>
            db.bestNumber <= number + db.delay && OnChain(Chain(db.headers, routeTo), db.finalizedNumber, db.finalized.value)
  {
    hide Tree, Chain, AsIndex, InsertNumbers, RemoveNumbers, TreeRoute;
    RetractedOrKept(db.headers, db.best.value, routeTo, db.finalizedNumber);
    OnChainIsPrefix(db.headers, db.best.value, routeTo, db.finalizedNumber);
  }

  // ----- leaves

  lemma EmptyDb(db: Db)
    requires Tree(db.headers) && Canonical(db) && db.headers == map[]
    ensures db.finalizedNumber == 0 && db.finalized.None? && db.genesis.None? && db.index == map[] && db.best.None?
  {
  }

  lemma FinalizedLeaves(t: Headers, children: map<Hash, seq<Hash>>, leaves: Levels, f: nat, f': nat)
    requires Refines(t, children, leaves, f) && f <= f'
    ensures Refines(t, children, FinalizeHeight(leaves, f'), f')
  {
    hide FinalizeHeight, Count;
    FinalizationSplits(leaves, f');
  }

  lemma TrackedLeaf(db: Db, leaves: Levels, f: nat, hash: Hash, header: Header)
    requires Refines(db.headers, db.children, leaves, f) && Fresh(db, hash, header) && header.number >= f
    ensures Refines(db.headers[hash := header], AddChild(db.children, header.parent, hash),
                    Import(leaves, hash, header.number, header.parent).0, f)
  {
    hide Import, Count;
    ImportCounts(leaves, hash, header.number, header.parent);
    assert AddChild(db.children, header.parent, hash).Keys == db.children.Keys + {header.parent};
  }

  lemma UntrackedLeaf(db: Db, hash: Hash, header: Header)
    requires LeavesRefine(db) && Fresh(db, hash, header) && Kin(db.headers, db.children) && 0 < header.number <= db.finalizedNumber
    ensures Refines(db.headers[hash := header], AddChild(db.children, header.parent, hash), db.leaves, db.finalizedNumber)
  {
  }

  lemma LeavesGrow(db: Db, hash: Hash, header: Header, state: LeafState, index: map<nat, Hash>)
    requires DbInv(db) && Fresh(db, hash, header) && (state == Final ==> TracksLeaf(db, header.number))
    ensures LeavesRefine(Imported(db, hash, header, state, index))
  {
    hide Tree, Canonical, Import, FinalizeHeight, Refines, Kin, AddChild;
    var n := header.number;
    if n == 0 {
      EmptyDb(db);
    }
    if state == Final || n == 0 {
      FinalizedLeaves(db.headers, db.children, db.leaves, db.finalizedNumber, n);
      TrackedLeaf(db, FinalizeHeight(db.leaves, n), n, hash, header);
    } else if TracksLeaf(db, n) {
      TrackedLeaf(db, db.leaves, db.finalizedNumber, hash, header);
    } else {
      UntrackedLeaf(db, hash, header);
    }
  }

  lemma LastChildGone(t: Headers, children: map<Hash, seq<Hash>>, leaves: Levels, f: nat, h: Hash)
    requires Refines(t, children, leaves, f) && h in t && t[h].number > 0 && t[h].parent in children
    requires t[h].parent in t && t[h].number == t[t[h].parent].number + 1 && (t[h].number > f || f == 0)
    ensures var n, p := t[h].number, t[h].parent;
            Refines(t - {h}, children - {p}, InsertLeaf(RemoveLeaf(leaves, n, h), n - 1, p), f)
  {
    hide Count, InsertLeaf, RemoveLeaf;
    var n, p := t[h].number, t[h].parent;
    RemoveCounts(leaves, n, h);
    InsertCounts(RemoveLeaf(leaves, n, h), n - 1, p);
  }

  lemma SiblingsStay(t: Headers, children: map<Hash, seq<Hash>>, leaves: Levels, f: nat, h: Hash, siblings: seq<Hash>)
    requires Refines(t, children, leaves, f) && h in t && t[h].parent in children
    ensures Refines(t - {h}, children[t[h].parent := siblings], RemoveLeaf(leaves, t[h].number, h), f)
  {
    hide Count, RemoveLeaf;
    RemoveCounts(leaves, t[h].number, h);
  }

  lemma LeavesShrink(db: Db, hash: Hash)
    requires Tree(db.headers) && Kin(db.headers, db.children) && LeavesRefine(db) && RemoveLeafBlock(db, hash).Ok?
    requires db.headers[hash].number > 0
    requires TracksLeaf(db, db.headers[hash].number) || Siblings(db, hash) != []
    ensures LeavesRefine(RemoveLeafBlock(db, hash).value)
  {
    hide Refines, Siblings, InsertLeaf, RemoveLeaf;
    if Siblings(db, hash) == [] {
      assert Above(db.headers, hash);
      LastChildGone(db.headers, db.children, db.leaves, db.finalizedNumber, hash);
    } else {
      SiblingsStay(db.headers, db.children, db.leaves, db.finalizedNumber, hash, Siblings(db, hash));
    }
  }

  // ----- the canonical chain

  /** What was final stays on the best chain, with everything below it. */
  ghost predicate KeepsFinality(db: Db, db': Db)
    requires Tree(db.headers) && Canonical(db) && Tree(db'.headers) && Canonical(db')
  {
    db.best.Some? ==>
      && db'.best.Some? && db.finalizedNumber <= db'.finalizedNumber
      && Chain(db'.headers, db'.best.value)[..db.finalizedNumber + 1] == Chain(db.headers, db.best.value)[..db.finalizedNumber + 1]
  }

  lemma AsIndexAppend(c: seq<Hash>, h: Hash)
    ensures AsIndex(c)[|c| := h] == AsIndex(c + [h])
  {
  }

  lemma PrefixAppend(c: seq<Hash>, h: Hash, n: nat)
    requires n <= |c|
    ensures (c + [h])[..n] == c[..n]
  {
  }

  lemma SequentialMovesUp(db: Db, parent: Hash)
    requires Tree(db.headers) && Canonical(db) && SequentialFinalization(db, parent)
    ensures db.finalizedNumber == 0 || (parent in db.headers && db.headers[parent].number == db.finalizedNumber)
  {
  }

  lemma NormalImportIsCanonical(db: Db, hash: Hash, header: Header)
    requires DbInv(db) && Fresh(db, hash, header) && header.number > 0 && Tree(db.headers[hash := header])
    ensures var db' := Imported(db, hash, header, Normal, db.index);
            Canonical(db') && KeepsFinality(db, db')
  {
    hide Tree, Kin, LeavesRefine, Chain, AsIndex;
    ChainInGrownTree(db, hash, header, db.best.value);
  }

  lemma FirstImportIsCanonical(db: Db, hash: Hash, header: Header, state: LeafState)
    requires DbInv(db) && Fresh(db, hash, header) && header.number == 0 && Tree(db.headers[hash := header]) && state != Normal
    ensures SetHead(db, header.parent, 0, hash) == Ok(map[0 := hash])
    ensures var db' := Imported(db, hash, header, state, map[0 := hash]);
            Canonical(db') && KeepsFinality(db, db')
  {
  }

  lemma BestImportIsCanonical(db: Db, hash: Hash, header: Header, state: LeafState)
    requires DbInv(db) && Fresh(db, hash, header) && header.number > 0 && Tree(db.headers[hash := header]) && state != Normal
    requires SetHead(db, header.parent, header.number, hash).Ok?
    requires state == Final ==> SequentialFinalization(db, header.parent)
    ensures var db' := Imported(db, hash, header, state, SetHead(db, header.parent, header.number, hash).value);
            Canonical(db') && KeepsFinality(db, db')
  {
    hide Tree, Kin, LeavesRefine, Chain, AsIndex, SetHead, Import, FinalizeHeight, AddChild;
    var c := Chain(db.headers, header.parent);
    HeadChangeIsExact(db, header.parent, header.number, hash);
    ChainOfNewBlock(db, hash, header);
    AsIndexAppend(c, hash);
    PrefixAppend(c, hash, db.finalizedNumber + 1);
    if state == Final {
      SequentialMovesUp(db, header.parent);
    }
    var f := db.finalizedNumber;
    assert c[..f + 1][f] == c[f];
    assert Chain(db.headers, db.best.value)[..f + 1][f] == db.finalized.value;
  }

  lemma ImportKeepsInv(db: Db, hash: Hash, header: Header, state: LeafState)
    requires DbInv(db) && Fresh(db, hash, header) && (header.number == 0 ==> state != Normal)
    requires ImportBlock(db, hash, header, state).Ok?
    ensures DbInv(ImportBlock(db, hash, header, state).value) && KeepsFinality(db, ImportBlock(db, hash, header, state).value)
  {
    hide Tree, Kin, LeavesRefine, SetHead, Import, FinalizeHeight, AddChild, KeepsFinality, Chain, AsIndex;
    TreeGrows(db, hash, header);
    KinGrows(db, hash, header);
    if state == Final {
      SequentialMovesUp(db, header.parent);
      if header.number == 0 {
        EmptyDb(db);
      }
    }
    var index := if state == Normal then db.index else SetHead(db, header.parent, header.number, hash).value;
    LeavesGrow(db, hash, header, state, index);
    if state == Normal {
      NormalImportIsCanonical(db, hash, header);
    } else if header.number == 0 {
      FirstImportIsCanonical(db, hash, header, state);
    } else {
      BestImportIsCanonical(db, hash, header, state);
    }
  }

  lemma SetHeadKeepsInv(db: Db, hash: Hash)
    requires DbInv(db) && SetHeadTo(db, hash).Ok?
    ensures DbInv(SetHeadTo(db, hash).value) && KeepsFinality(db, SetHeadTo(db, hash).value)
  {
    hide Tree, Kin, Refines, Chain, AsIndex, SetHead;
    var c, f := Chain(db.headers, hash), db.finalizedNumber;
    HeadChangeIsExact(db, hash, db.headers[hash].number, hash);
    assert AsIndex(c)[db.headers[hash].number := hash] == AsIndex(c) by {
      AsIndexStays(c, db.headers[hash].number);
    }
    assert c[..f + 1][f] == c[f];
    assert Chain(db.headers, db.best.value)[..f + 1][f] == db.finalized.value;
  }

  lemma AsIndexStays(c: seq<Hash>, n: nat)
    requires n < |c|
    ensures AsIndex(c)[n := c[n]] == AsIndex(c)
  {
  }

  lemma FinalizeKeepsInv(db: Db, hash: Hash)
    requires DbInv(db) && FinalizeBlock(db, hash).Ok?
    requires var n := db.headers[hash].number; n in db.index && db.index[n] == hash
    ensures DbInv(FinalizeBlock(db, hash).value) && KeepsFinality(db, FinalizeBlock(db, hash).value)
  {
    hide Kin, Refines, FinalizeHeight, Chain;
    var n := db.headers[hash].number;
    SequentialMovesUp(db, db.headers[hash].parent);
    assert Above(db.headers, hash);
    FinalizedLeaves(db.headers, db.children, db.leaves, db.finalizedNumber, n);
  }

  lemma RemoveKeepsInv(db: Db, hash: Hash)
    requires DbInv(db) && RemoveLeafBlock(db, hash).Ok?
    requires TracksLeaf(db, db.headers[hash].number) || Siblings(db, hash) != []
    ensures DbInv(RemoveLeafBlock(db, hash).value) && KeepsFinality(db, RemoveLeafBlock(db, hash).value)
  {
    var t := db.headers;
    assert hash !in db.children by {
      assert Count(db.leaves, t[hash].number, hash) > 0;
    }
    hide Refines, AsIndex, Remove;
    ChildlessIsNoAncestor(t, db.children, hash, db.best.value);
    assert Chain(t, db.best.value)[0] in t;
    TreeShrinks(t, db.children, hash);
    ChainInShrunkTree(t, db.children, hash, db.best.value);
    KinShrinks(db, hash);
    LeavesShrink(db, hash);
  }

  // ----- runs

  datatype Op =
    | ImportOp(hash: Hash, header: Header, state: LeafState)
    | SetHeadOp(hash: Hash)
    | FinalizeOp(hash: Hash)
    | RemoveOp(hash: Hash)

  ghost function Attempt(db: Db, op: Op): (r: Outcome<Db>)
    requires DbInv(db)
  {
    match op
    case ImportOp(hash, header, state) => ImportBlock(db, hash, header, state)
    case SetHeadOp(hash) => SetHeadTo(db, hash)
    case FinalizeOp(hash) => FinalizeBlock(db, hash)
    case RemoveOp(hash) => RemoveLeafBlock(db, hash)
  }

  /** A failed operation changes nothing. */
  ghost function Step(db: Db, op: Op): (db': Db)
    requires DbInv(db)
  {
    var r := Attempt(db, op);
    if r.Ok? then r.value else db
  }

  /** Imported blocks are fresh and the first one becomes best; only blocks on the best chain are
      finalized; a leaf is not removed from the finalized height if its parent would become one below it. */
  ghost predicate GoodOp(db: Db, op: Op)
  {
    match op
    case ImportOp(hash, header, state) => Fresh(db, hash, header) && (header.number == 0 ==> state != Normal)
    case SetHeadOp(hash) => true
    case FinalizeOp(hash) => hash in db.headers ==> db.headers[hash].number in db.index && db.index[db.headers[hash].number] == hash
    case RemoveOp(hash) => hash in db.headers ==> TracksLeaf(db, db.headers[hash].number) || Siblings(db, hash) != []
  }

  lemma StepKeepsInv(db: Db, op: Op)
    requires DbInv(db) && GoodOp(db, op)
    ensures DbInv(Step(db, op)) && KeepsFinality(db, Step(db, op))
  {
    hide Kin, Refines, Chain, AsIndex, ImportBlock, SetHeadTo, FinalizeBlock, RemoveLeafBlock, Siblings, Fresh;
    if Attempt(db, op).Ok? {
      match op
      case ImportOp(hash, header, state) => ImportKeepsInv(db, hash, header, state);
      case SetHeadOp(hash) => SetHeadKeepsInv(db, hash);
      case FinalizeOp(hash) => KnownIfFinalized(db, hash); FinalizeKeepsInv(db, hash);
      case RemoveOp(hash) => KnownIfRemoved(db, hash); RemoveKeepsInv(db, hash);
    }
  }

  /** A good state after a good one, with finality kept. */
  ghost predicate Follows(db: Db, db': Db)
  {
    DbInv(db) && DbInv(db') && KeepsFinality(db, db')
  }

  lemma KnownIfFinalized(db: Db, hash: Hash)
    requires FinalizeBlock(db, hash).Ok?
    ensures hash in db.headers
  {
  }

  lemma KnownIfRemoved(db: Db, hash: Hash)
    requires RemoveLeafBlock(db, hash).Ok?
    ensures hash in db.headers
  {
  }

  ghost predicate GoodOps(db: Db, ops: seq<Op>)
    requires DbInv(db)
    decreases |ops|
  {
    ops == [] || (GoodOp(db, ops[0]) && (StepKeepsInv(db, ops[0]); GoodOps(Step(db, ops[0]), ops[1..])))
  }

  ghost function Run(db: Db, ops: seq<Op>): (db': Db)
    requires DbInv(db) && GoodOps(db, ops)
    ensures DbInv(db')
    decreases |ops|
  {
    if ops == [] then db
    else
      StepKeepsInv(db, ops[0]);
      Run(Step(db, ops[0]), ops[1..])
  }

  function EmptyState(delay: nat): (db: Db)
  {
    Db(map[], map[], map[], map[], None, 0, None, 0, None, delay)
  }

  lemma EmptyStateIsGood(delay: nat)
    ensures DbInv(EmptyState(delay))
  {
  }

  // ----- theorems

  /** In every run: a block above the finalized height, or any block before finality moved, is listed as a
      leaf, and then once, exactly if it is nobody's parent. */
  lemma LeavesAreTheChildless(db: Db, ops: seq<Op>, h: Hash)
    requires DbInv(db) && GoodOps(db, ops) && h in Run(db, ops).headers
    ensures var db' := Run(db, ops);
            var n := db'.headers[h].number;
            && Count(db'.leaves, n, h) <= 1
            && (Count(db'.leaves, n, h) == 1 ==> forall c <- db'.headers :: db'.headers[c].parent != h)
            && (TracksLeaf(db', n) && (forall c <- db'.headers :: db'.headers[c].parent != h) ==> Count(db'.leaves, n, h) == 1)
  {
    hide Run, GoodOps, Canonical, Tree, Count;
    var db' := Run(db, ops);
    if h in db'.children {
      assert db'.children[h][0] in db'.children[h];
      assert db'.headers[db'.children[h][0]].parent == h;
    }
  }

  /** In every run: what was final stays on the best chain. */
  lemma {:induction false} FinalityNeverLost(db: Db, ops: seq<Op>)
    requires DbInv(db) && GoodOps(db, ops)
    ensures KeepsFinality(db, Run(db, ops))
    decreases |ops|
  {
    hide Kin, Refines, Step, GoodOp, AsIndex, Tree, Chain;
    if ops != [] {
      var db1, db' := Step(db, ops[0]), Run(db, ops);
      StepKeepsInv(db, ops[0]);
      FinalityNeverLost(db1, ops[1..]);
      if db.best.Some? {
        var n, n1 := db.finalizedNumber + 1, db1.finalizedNumber + 1;
        var c, c1, c' := Chain(db.headers, db.best.value), Chain(db1.headers, db1.best.value), Chain(db'.headers, db'.best.value);
        assert c'[..n] == c'[..n1][..n] && c1[..n] == c1[..n1][..n];
      }
    }
  }

  /** Removing a leaf keeps everything in order exactly if it does not make a block below the finalized
      height a leaf. */
  lemma RemovalKeepsInvExactly(db: Db, hash: Hash)
    requires DbInv(db) && RemoveLeafBlock(db, hash).Ok?
    ensures DbInv(RemoveLeafBlock(db, hash).value) <==> TracksLeaf(db, db.headers[hash].number) || Siblings(db, hash) != []
  {
    hide Kin, Chain, AsIndex, Excluding;
    var n, p := db.headers[hash].number, db.headers[hash].parent;
    if TracksLeaf(db, n) || Siblings(db, hash) != [] {
      RemoveKeepsInv(db, hash);
    } else {
      var m := RemoveLeaf(db.leaves, n, hash);
      RemoveCounts(db.leaves, n, hash);
      InsertCounts(m, n - 1, p);
      assert Count(InsertLeaf(m, n - 1, p), n - 1, p) > 0;
    }
  }

  /** Such a removal matters: a new child of that parent leaves it on the list although it has a child. */
  lemma ParentStaysListed(db: Db, hash: Hash, child: Hash)
    requires DbInv(db) && RemoveLeafBlock(db, hash).Ok?
    requires !TracksLeaf(db, db.headers[hash].number) && Siblings(db, hash) == []
    requires child !in db.headers && child !in db.children
    ensures var n, parent, db1 := db.headers[hash].number, db.headers[hash].parent, RemoveLeafBlock(db, hash).value;
            var db2 := Imported(db1, child, db.headers[hash], Normal, db1.index);
            n > 0 && parent in db2.children && Count(db2.leaves, n - 1, parent) > 0
  {
    KnownIfRemoved(db, hash);
    hide DbInv, Imported, Count, InsertLeaf, RemoveLeaf, Siblings, RemoveLeafBlock, TracksLeaf;
    LastLeafAtFinality(db, hash);
    var n, p, db1 := db.headers[hash].number, db.headers[hash].parent, RemoveLeafBlock(db, hash).value;
    var m := RemoveLeaf(db.leaves, n, hash);
    RemoveCounts(db.leaves, n, hash);
    InsertCounts(m, n - 1, p);
    LateImport(db1, child, db.headers[hash]);
  }

  lemma LastLeafAtFinality(db: Db, hash: Hash)
    requires DbInv(db) && RemoveLeafBlock(db, hash).Ok?
    requires !TracksLeaf(db, db.headers[hash].number) && Siblings(db, hash) == []
    ensures var n, p, db1 := db.headers[hash].number, db.headers[hash].parent, RemoveLeafBlock(db, hash).value;
            && n == db.finalizedNumber > 0 && NoEmptyLevel(db.leaves)
            && db1.leaves == InsertLeaf(RemoveLeaf(db.leaves, n, hash), n - 1, p) && db1.finalizedNumber == n
  {
    hide Tree, Kin, Canonical, InsertLeaf, RemoveLeaf, Siblings;
    assert Count(db.leaves, db.headers[hash].number, hash) > 0;
  }

  lemma LateImport(db: Db, hash: Hash, header: Header)
    requires 0 < header.number <= db.finalizedNumber
    ensures var db' := Imported(db, hash, header, Normal, db.index);
            db'.leaves == db.leaves && header.parent in db'.children
  {
  }
}
