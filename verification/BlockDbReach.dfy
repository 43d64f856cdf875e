/** Runs from an empty database to states where removing a leaf or importing a final block matters. */
module BlockDbReach {
  import opened Basics
  import opened Leaves
  import opened BlockTree
  import opened BlockDb
  import opened BlockDbRuns
  import opened Pruning

  /** A block on top of the best one can always become best. */
  lemma ExtendingSucceeds(db: Db, hash: Hash, header: Header)
    requires DbInv(db) && Fresh(db, hash, header) && db.best == Some(header.parent)
    ensures header.number > 0 && SetHead(db, header.parent, header.number, hash).Ok?
  {
    hide Kin, LeavesRefine, SetHead, AsIndex, Chain;
    HeadChangeSucceedsExactly(db, header.parent, header.number, hash);
  }

  lemma FirstStep(delay: nat, g: Hash, z: Hash)
    requires g != z
    ensures DbInv(EmptyState(delay)) && GoodOp(EmptyState(delay), ImportOp(g, Header(0, z), Final))
    ensures var db := Step(EmptyState(delay), ImportOp(g, Header(0, z), Final));
            && DbInv(db)
            && db == Db(map[g := Header(0, z)], map[z := [g]], map[0 := [g]], db.index, Some(g), 0, Some(g), 0, Some(g), delay)
  {
    var db0, header := EmptyState(delay), Header(0, z);
    EmptyStateIsGood(delay);
    TreeGrows(db0, g, header);
    FirstImportIsCanonical(db0, g, header, Final);
    StepKeepsInv(db0, ImportOp(g, header, Final));
    hide DbInv;
    assert FinalizeHeight(db0.leaves, 0) == map[];
    assert [] + [g] == [g];
  }

  // ----- sealing each block as final

  /** A block imported as final on top of the listed best block has that pruned, its parent and part of its chain. */
  lemma SealingPrunesParent(db: Db, hash: Hash, header: Header)
    requires DbInv(db) && Fresh(db, hash, header) && ImportBlock(db, hash, header, Final).Ok?
    requires db.best == Some(header.parent) && header.parent in Level(db.leaves, db.bestNumber)
    ensures header.parent in Pruned(db, header.number)
    ensures Tree(db.headers[hash := header]) && header.parent in Chain(db.headers[hash := header], hash)
  {
    hide Kin, LeavesRefine, Canonical, Pruned, ImportBlock;
    TreeGrows(db, hash, header);
    ExtendingSucceeds(db, hash, header);
    ChainOfNewBlock(db, hash, header);
    SelfOnChain(db, header.parent);
    FinalImportPrunesExactly(db, hash, header, header.parent);
  }

  /** This happens with the second block already, if the first two are imported as final. */
  lemma SealingIsReached(delay: nat, z: Hash, g: Hash, a: Hash)
    requires g != z && a != z && a != g
    ensures DbInv(EmptyState(delay))
    ensures var first, second := ImportOp(g, Header(0, z), Final), ImportOp(a, Header(1, g), Final);
            && GoodOp(EmptyState(delay), first)
            && var db := Step(EmptyState(delay), first);
               && DbInv(db) && GoodOp(db, second) && Attempt(db, second).Ok?
               && g in Pruned(db, 1) && Tree(Step(db, second).headers) && a in Step(db, second).headers
               && g in Chain(Step(db, second).headers, a)
  {
    FirstStep(delay, g, z);
    var db, second := Step(EmptyState(delay), ImportOp(g, Header(0, z), Final)), ImportOp(a, Header(1, g), Final);
    hide DbInv, Pruned, SetHead, Import;
    ExtendingSucceeds(db, a, Header(1, g));
    DbInvIsTree(db);
    SealingPrunesParent(db, a, Header(1, g));
  }

  lemma DbInvIsTree(db: Db)
    requires DbInv(db)
    ensures Tree(db.headers) && Rooted(db)
  {
  }

  // ----- removing a leaf at the finalized height

  lemma GoodOpsCons(db: Db, op: Op, rest: seq<Op>)
    requires DbInv(db) && GoodOp(db, op) && DbInv(Step(db, op)) && GoodOps(Step(db, op), rest)
    ensures GoodOps(db, [op] + rest) && Run(db, [op] + rest) == Run(Step(db, op), rest)
  {
    hide DbInv, GoodOp, Step;
    assert ([op] + rest)[1..] == rest;
  }

  /** What a database looks like while only the genesis block is final, but for its index. */
  ghost predicate Looks(db: Db, t: Headers, children: map<Hash, seq<Hash>>, leaves: Levels, best: Hash, number: nat, g: Hash)
  {
    db == Db(t, children, leaves, db.index, Some(best), number, Some(g), 0, Some(g), db.delay)
  }

  /** A block on top of the best one, made best. */
  lemma BestStep(db: Db, t: Headers, children: map<Hash, seq<Hash>>, leaves: Levels, best: Hash, n: nat, g: Hash, hash: Hash)
    requires DbInv(db) && Looks(db, t, children, leaves, best, n, g) && hash !in t && hash !in children && hash != best
    ensures GoodOp(db, ImportOp(hash, Header(n + 1, best), Best))
    ensures var db' := Step(db, ImportOp(hash, Header(n + 1, best), Best));
            && DbInv(db')
            && Looks(db', t[hash := Header(n + 1, best)], AddChild(children, best, hash), Import(leaves, hash, n + 1, best).0, hash, n + 1, g)
  {
    hide Kin, LeavesRefine, Chain, AsIndex, SetHead, Import, AddChild;
    var header := Header(n + 1, best);
    ExtendingSucceeds(db, hash, header);
    StepKeepsInv(db, ImportOp(hash, header, Best));
  }

  lemma NormalStep(db: Db, t: Headers, children: map<Hash, seq<Hash>>, leaves: Levels, best: Hash, n: nat, g: Hash, hash: Hash, header: Header)
    requires DbInv(db) && Looks(db, t, children, leaves, best, n, g) && hash !in t && hash !in children && hash != header.parent
    requires header.parent in t && header.number == t[header.parent].number + 1
    ensures GoodOp(db, ImportOp(hash, header, Normal))
    ensures var db' := Step(db, ImportOp(hash, header, Normal));
            && DbInv(db')
            && Looks(db', t[hash := header], AddChild(children, header.parent, hash), Import(leaves, hash, header.number, header.parent).0, best, n, g)
  {
    hide DbInv, Import, AddChild;
    StepKeepsInv(db, ImportOp(hash, header, Normal));
  }

  /** Finalizing the best block. */
  lemma FinalStep(db: Db, t: Headers, children: map<Hash, seq<Hash>>, leaves: Levels, best: Hash, n: nat, g: Hash)
    requires DbInv(db) && Looks(db, t, children, leaves, best, n, g)
    ensures GoodOp(db, FinalizeOp(best))
    ensures var db' := Step(db, FinalizeOp(best));
            DbInv(db') && db' == db.(leaves := FinalizeHeight(leaves, n), finalized := Some(best), finalizedNumber := n)
  {
    hide Kin, LeavesRefine, AsIndex, Chain, FinalizeHeight;
    IndexIsChain(Chain(db.headers, best), n, best);
    StepKeepsInv(db, FinalizeOp(best));
  }

  /** Leaves as the chain g, a1, a2 and then the fork g, b1, b2 come in. */
  lemma LeafSteps(g: Hash, a1: Hash, a2: Hash, b1: Hash, b2: Hash)
    requires a2 != b1
    ensures Import(map[0 := [g]], a1, 1, g).0 == map[1 := [a1]]
    ensures Import(map[1 := [a1]], a2, 2, a1).0 == map[2 := [a2]]
    ensures Import(map[2 := [a2]], b1, 1, g).0 == map[2 := [a2], 1 := [b1]]
    ensures Import(map[2 := [a2], 1 := [b1]], b2, 2, b1).0 == map[2 := [a2, b2]]
    ensures FinalizeHeight(map[2 := [a2, b2]], 2) == map[2 := [a2, b2]]
  {
    assert forall h: Hash :: Excluding([h], h) == [] && [] + [h] == [h];
    assert [a2] + [b2] == [a2, b2];
  }

  lemma ChildSteps(z: Hash, g: Hash, a1: Hash, a2: Hash, b1: Hash, b2: Hash)
    requires z != g && a1 !in {z, g} && b1 !in {z, g, a1}
    ensures AddChild(map[z := [g]], g, a1) == map[z := [g], g := [a1]]
    ensures AddChild(map[z := [g], g := [a1]], a1, a2) == map[z := [g], g := [a1], a1 := [a2]]
    ensures AddChild(map[z := [g], g := [a1], a1 := [a2]], g, b1) == map[z := [g], g := [a1, b1], a1 := [a2]]
    ensures AddChild(map[z := [g], g := [a1, b1], a1 := [a2]], b1, b2) == map[z := [g], g := [a1, b1], a1 := [a2], b1 := [b2]]
  {
    assert forall h: Hash :: [] + [h] == [h];
    assert [a1] + [b1] == [a1, b1];
  }

  ghost predicate AllDifferent(z: Hash, g: Hash, a1: Hash, a2: Hash, b1: Hash, b2: Hash)
  {
    z != g && a1 !in {z, g} && a2 !in {z, g, a1} && b1 !in {z, g, a1, a2} && b2 !in {z, g, a1, a2, b1}
  }

  function ForkOps(z: Hash, g: Hash, a1: Hash, a2: Hash, b1: Hash, b2: Hash): (ops: seq<Op>)
  {
    [ImportOp(g, Header(0, z), Final), ImportOp(a1, Header(1, g), Best), ImportOp(a2, Header(2, a1), Best),
     ImportOp(b1, Header(1, g), Normal), ImportOp(b2, Header(2, b1), Normal), FinalizeOp(a2)]
  }

  /** The leaf b2, at the height of the final block a2, is the only child of its parent. */
  ghost predicate ForkAtFinality(db: Db, b1: Hash, b2: Hash)
  {
    && RemoveLeafBlock(db, b2).Ok? && b2 in db.headers && db.headers[b2] == Header(2, b1)
    && !TracksLeaf(db, 2) && Siblings(db, b2) == []
  }

  lemma FourSteps(db: Db, z: Hash, g: Hash, a1: Hash, a2: Hash, b1: Hash, b2: Hash) returns (db': Db)
    requires AllDifferent(z, g, a1, a2, b1, b2) && DbInv(db) && Looks(db, map[g := Header(0, z)], map[z := [g]], map[0 := [g]], g, 0, g)
    ensures var ops := ForkOps(z, g, a1, a2, b1, b2)[1..5];
            DbInv(db') && GoodOps(db, ops) && Run(db, ops) == db'
    ensures Looks(db', map[g := Header(0, z), a1 := Header(1, g), a2 := Header(2, a1), b1 := Header(1, g), b2 := Header(2, b1)],
                  map[z := [g], g := [a1, b1], a1 := [a2], b1 := [b2]], map[2 := [a2, b2]], a2, 2, g)
  {
    hide DbInv, Looks, GoodOp, Step, GoodOps, Run, AddChild, Import;
    LeafSteps(g, a1, a2, b1, b2);
    ChildSteps(z, g, a1, a2, b1, b2);
    var ops := ForkOps(z, g, a1, a2, b1, b2);
    BestStep(db, map[g := Header(0, z)], map[z := [g]], map[0 := [g]], g, 0, g, a1);
    var db2 := Step(db, ops[1]);
    BestStep(db2, map[g := Header(0, z), a1 := Header(1, g)], map[z := [g], g := [a1]], map[1 := [a1]], a1, 1, g, a2);
    var db3 := Step(db2, ops[2]);
    var t3 := map[g := Header(0, z), a1 := Header(1, g), a2 := Header(2, a1)];
    NormalStep(db3, t3, map[z := [g], g := [a1], a1 := [a2]], map[2 := [a2]], a2, 2, g, b1, Header(1, g));
    var db4 := Step(db3, ops[3]);
    NormalStep(db4, t3[b1 := Header(1, g)], map[z := [g], g := [a1, b1], a1 := [a2]], map[2 := [a2], 1 := [b1]], a2, 2, g, b2, Header(2, b1));
    db' := Step(db4, ops[4]);
    GoodOpsNone(db');
    GoodOpsCons(db4, ops[4], []);
    assert [ops[4]] + [] == [ops[4]];
    GoodOpsCons(db3, ops[3], [ops[4]]);
    GoodOpsCons(db2, ops[2], [ops[3]] + [ops[4]]);
    GoodOpsCons(db, ops[1], [ops[2]] + ([ops[3]] + [ops[4]]));
    assert ops[1..5] == [ops[1]] + ([ops[2]] + ([ops[3]] + [ops[4]]));
  }

  lemma GoodOpsNone(db: Db)
    requires DbInv(db)
    ensures GoodOps(db, []) && Run(db, []) == db
  {
  }

  lemma {:induction false} RunAppend(db: Db, ops: seq<Op>, op: Op)
    requires DbInv(db) && GoodOps(db, ops) && GoodOp(Run(db, ops), op)
    ensures DbInv(Step(Run(db, ops), op)) && GoodOps(db, ops + [op]) && Run(db, ops + [op]) == Step(Run(db, ops), op)
    decreases |ops|
  {
    hide DbInv, GoodOp, Step;
    StepKeepsInv(Run(db, ops), op);
    if ops == [] {
      assert ops + [op] == [op];
    } else {
      StepKeepsInv(db, ops[0]);
      RunAppend(Step(db, ops[0]), ops[1..], op);
      assert (ops + [op])[1..] == ops[1..] + [op];
    }
  }

  /** A removal that makes a block below the finalized height a leaf is reached by six operations. */
  lemma RemovalIsReached(delay: nat, z: Hash, g: Hash, a1: Hash, a2: Hash, b1: Hash, b2: Hash)
    requires AllDifferent(z, g, a1, a2, b1, b2)
    ensures DbInv(EmptyState(delay)) && GoodOps(EmptyState(delay), ForkOps(z, g, a1, a2, b1, b2))
    ensures ForkAtFinality(Run(EmptyState(delay), ForkOps(z, g, a1, a2, b1, b2)), b1, b2)
  {
    hide DbInv, GoodOp, Step, GoodOps, Run;
    var ops, db0 := ForkOps(z, g, a1, a2, b1, b2), EmptyState(delay);
    FirstStep(delay, g, z);
    var db1 := Step(db0, ops[0]);
    var db5 := FourSteps(db1, z, g, a1, a2, b1, b2);
    GoodOpsCons(db0, ops[0], ops[1..5]);
    FinalStep(db5, db5.headers, db5.children, db5.leaves, a2, 2, g);
    RunAppend(db0, [ops[0]] + ops[1..5], ops[5]);
    assert ops == ([ops[0]] + ops[1..5]) + [ops[5]];
    LeafSteps(g, a1, a2, b1, b2);
    assert Excluding([b2], b2) == [];
  }
}
