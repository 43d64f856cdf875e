/** Pruning the branches that finalization displaced. */
module Pruning {
  import opened Basics
  import opened Leaves
  import opened BlockTree
  import opened BlockDb
  import opened BlockDbRuns

  /** The blocks pruned on the way down from a block, until one is in the index at the given number. */
  ghost function Walk(t: Headers, index: map<nat, Hash>, number: nat, hash: Hash): (pruned: seq<Hash>)
    requires Tree(t)
    decreases if hash in t then t[hash].number + 1 else 0
  {
    if hash !in t || (number in index && index[number] == hash) then []
    else
      assert Above(t, hash);
      [hash] + Walk(t, index, if t[hash].number == 0 then 0 else t[hash].number - 1, t[hash].parent)
  }

  ghost function PruneAll(t: Headers, index: map<nat, Hash>, finalized: nat, displaced: seq<Hash>): (pruned: seq<Hash>)
    requires Tree(t)
    decreases |displaced|
  {
    if displaced == [] then []
    else PruneAll(t, index, finalized, displaced[..|displaced| - 1]) + Walk(t, index, finalized, displaced[|displaced| - 1])
  }

  method PruneBranch(t: Headers, index: map<nat, Hash>, finalized: nat, leaf: Hash) returns (pruned: seq<Hash>)
    requires Tree(t)
    ensures pruned == Walk(t, index, finalized, leaf)
  {
    pruned := [];
    var number: nat, hash := finalized, leaf;
    while !(number in index && index[number] == hash)
      invariant pruned + Walk(t, index, number, hash) == Walk(t, index, finalized, leaf)
      decreases if hash in t then t[hash].number + 1 else 0
    {
      if hash !in t {
        break;
      }
      assert Above(t, hash);
      var header := t[hash];
      ghost var rest := Walk(t, index, if header.number == 0 then 0 else header.number - 1, header.parent);
      assert pruned + ([hash] + rest) == (pruned + [hash]) + rest;
      pruned := pruned + [hash];
      number := if header.number == 0 then 0 else header.number - 1;
      hash := header.parent;
    }
  }

  method PruneDisplacedBranches(t: Headers, index: map<nat, Hash>, finalized: nat, displaced: seq<Hash>) returns (pruned: seq<Hash>)
    requires Tree(t)
    ensures pruned == PruneAll(t, index, finalized, displaced)
  {
    hide Walk, Tree;
    pruned := [];
    for i := 0 to |displaced|
      invariant pruned == PruneAll(t, index, finalized, displaced[..i])
    {
      assert displaced[..i + 1][..i] == displaced[..i];
      var branch := PruneBranch(t, index, finalized, displaced[i]);
      pruned := pruned + branch;
    }
    assert displaced[..|displaced|] == displaced;
  }

  // ----- exactness

  /** Walking down a chain prunes the part of it that is not canonical. */
  lemma {:induction false} WalkLeavesCommonPart(t: Headers, best: Hash, leaf: Hash, i: nat)
    requires Tree(t) && best in t && leaf in t && i <= t[leaf].number
    ensures var c, cb := Chain(t, leaf), Chain(t, best);
            var k := CommonLength(c, cb);
            Walk(t, AsIndex(cb), i, c[i]) == if i < k then [] else Reversed(c[k..i + 1])
  {
    hide Tree, Chain, CommonLength, Reversed;
    var c, cb := Chain(t, leaf), Chain(t, best);
    var k := CommonLength(c, cb);
    CommonExactly(c, cb, i);
    if i < k {
      assert c[..i + 1][i] == c[i] && cb[..i + 1][i] == cb[i];
    } else {
      NotCanonical(t, best, leaf, i);
      ChainLinks(t, leaf, i);
      WalkLeavesCommonPart(t, best, leaf, i - 1);
      ReversedAppend(c[k..i], c[i]);
      assert c[k..i + 1] == c[k..i] + [c[i]];
      assert i == k ==> c[k..i] == [];
    }
  }

  lemma ReversedAppend(s: seq<Hash>, x: Hash)
    ensures Reversed(s + [x]) == [x] + Reversed(s)
  {
  }

  lemma NotCanonical(t: Headers, best: Hash, leaf: Hash, i: nat)
    requires Tree(t) && best in t && leaf in t && i <= t[leaf].number
    requires i >= CommonLength(Chain(t, leaf), Chain(t, best))
    ensures !OnChain(Chain(t, best), i, Chain(t, leaf)[i]) && i > 0
  {
    var c, cb := Chain(t, leaf), Chain(t, best);
    CommonExactly(c, cb, i);
    CommonExactly(c, cb, 0);
    assert c[0] == cb[0] && c[..1] == [c[0]] && cb[..1] == [cb[0]];
    if OnChain(cb, i, c[i]) {
      ChainPrefix(t, leaf, i);
      ChainPrefix(t, best, i);
    }
  }

  ghost predicate IsCanonical(db: Db, h: Hash)
    requires h in db.headers
  {
    db.headers[h].number in db.index && db.index[db.headers[h].number] == h
  }

  /** A leaf below a height about to be finalized. */
  ghost predicate IsDisplaced(db: Db, finalized: nat, leaf: Hash)
  {
    exists n: nat :: n < finalized && leaf in Level(db.leaves, n)
  }

  /** A displaced leaf is a known block below the finalized height, canonical only if it is the best block. */
  lemma DisplacedFacts(db: Db, finalized: nat, leaf: Hash)
    requires DbInv(db) && IsDisplaced(db, finalized, leaf)
    ensures leaf in db.headers && db.best.Some? && db.headers[leaf].number < finalized && leaf !in db.children
    ensures IsCanonical(db, leaf) <==> leaf == db.best.value
  {
    hide AsIndex, Count, Chain;
    var n: nat :| n < finalized && leaf in Level(db.leaves, n);
    LeafCounted(db.leaves, n, leaf);
    var c := Chain(db.headers, db.best.value);
    if leaf != db.best.value {
      ChildlessIsNoAncestor(db.headers, db.children, leaf, db.best.value);
    }
    IndexIsChain(c, n, leaf);
  }

  lemma LeafCounted(m: Levels, n: nat, h: Hash)
    requires h in Level(m, n)
    ensures Count(m, n, h) > 0
  {
  }

  lemma IndexIsChain(c: seq<Hash>, n: nat, h: Hash)
    ensures (n in AsIndex(c) && AsIndex(c)[n] == h) <==> OnChain(c, n, h)
  {
  }

  /** The walk from a displaced leaf prunes that leaf and precisely its ancestors that are not canonical, each
      once, and stops at the first canonical one. */
  lemma WalkIsExact(db: Db, finalized: nat, leaf: Hash)
    requires DbInv(db) && IsDisplaced(db, finalized, leaf)
    ensures leaf in db.headers && db.best.Some?
    ensures var c := Chain(db.headers, leaf);
            var k := CommonLength(c, Chain(db.headers, db.best.value));
            && k > 0
            && Walk(db.headers, db.index, finalized, leaf) == Reversed(c[if k < |c| then k else |c| - 1..])
            && forall i :: 0 <= i < |c| ==> (k <= i <==> !IsCanonical(db, c[i]))
  {
    hide Tree, Kin, LeavesRefine, Chain, Walk, Reversed, CommonLength, AsIndex, IsDisplaced;
    DisplacedFacts(db, finalized, leaf);
    var t, n := db.headers, db.headers[leaf].number;
    var c, cb := Chain(t, leaf), Chain(t, db.best.value);
    var k := CommonLength(c, cb);
    forall i | 0 <= i < |c|
      ensures k <= i <==> !IsCanonical(db, c[i])
      ensures k > 0
    {
      CanonicalPart(t, db.best.value, leaf, i);
      IndexIsChain(cb, i, c[i]);
    }
    assert c[n] == leaf;
    IndexIsChain(cb, finalized, leaf);
    if leaf == db.best.value {
      BestWalk(t, leaf, finalized);
      assert c[n..] == [leaf];
    } else {
      WalkStart(t, db.index, finalized, leaf);
      WalkLeavesCommonPart(t, db.best.value, leaf, n);
      assert c[k..n + 1] == c[k..];
    }
  }

  /** From the best block itself, below the finalized height, the walk takes just that. */
  lemma BestWalk(t: Headers, best: Hash, finalized: nat)
    requires Tree(t) && best in t && t[best].number < finalized
    ensures Walk(t, AsIndex(Chain(t, best)), finalized, best) == [best] == Reversed([best])
  {
    assert Above(t, best);
    var c, n := Chain(t, best), t[best].number;
    if n > 0 {
      ChainLinks(t, best, n);
      assert Walk(t, AsIndex(c), n - 1, c[n - 1]) == [];
    }
  }

  lemma CanonicalPart(t: Headers, best: Hash, leaf: Hash, i: nat)
    requires Tree(t) && best in t && leaf in t && i <= t[leaf].number
    ensures var c, cb := Chain(t, leaf), Chain(t, best);
            var k := CommonLength(c, cb);
            k > 0 && (k <= i <==> !OnChain(cb, i, c[i]))
  {
    hide Tree, Chain, CommonLength;
    var c, cb := Chain(t, leaf), Chain(t, best);
    if i >= CommonLength(c, cb) {
      NotCanonical(t, best, leaf, i);
    } else {
      CommonExactly(c, cb, i);
      assert c[..i + 1][i] == c[i] && cb[..i + 1][i] == cb[i];
    }
    if CommonLength(c, cb) == 0 {
      NotCanonical(t, best, leaf, 0);
    }
  }

  /** The first test is for the finalized number, the leaf is at its own: neither matches. */
  lemma WalkStart(t: Headers, index: map<nat, Hash>, finalized: nat, leaf: Hash)
    requires Tree(t) && leaf in t && !(finalized in index && index[finalized] == leaf)
    requires !(t[leaf].number in index && index[t[leaf].number] == leaf)
    ensures Walk(t, index, finalized, leaf) == Walk(t, index, t[leaf].number, leaf)
  {
  }

  /** How many of the leaves descend from a block, or are it. */
  ghost function LeavesAbove(t: Headers, leaves: seq<Hash>, x: Hash): (n: nat)
    requires Tree(t) && forall leaf <- leaves :: leaf in t
    decreases |leaves|
  {
    if leaves == [] then 0
    else LeavesAbove(t, leaves[..|leaves| - 1], x) + if x in Chain(t, leaves[|leaves| - 1]) then 1 else 0
  }

  lemma {:induction false} CountInReversed(s: seq<Hash>, x: Hash)
    requires forall i, j :: 0 <= i < j < |s| ==> s[i] != s[j]
    ensures multiset(Reversed(s))[x] == if x in s then 1 else 0
  {
    if s != [] {
      CountInReversed(s[1..], x);
    }
  }

  lemma WalkCounts(db: Db, finalized: nat, leaf: Hash, x: Hash)
    requires DbInv(db) && IsDisplaced(db, finalized, leaf)
    ensures leaf in db.headers
    ensures multiset(Walk(db.headers, db.index, finalized, leaf))[x] ==
              if x in Chain(db.headers, leaf) && (x == leaf || !IsCanonical(db, x)) then 1 else 0
  {
    hide Tree, Kin, LeavesRefine, Canonical, Chain, Walk, Reversed, CommonLength, IsCanonical, IsDisplaced;
    WalkIsExact(db, finalized, leaf);
    var c := Chain(db.headers, leaf);
    var k := CommonLength(c, Chain(db.headers, db.best.value));
    var j := if k < |c| then k else |c| - 1;
    CountInReversed(c[j..], x);
    if x in c {
      var i :| 0 <= i < |c| && c[i] == x;
      assert i >= j ==> c[j..][i - j] == x;
    }
  }

  /** A block that is not canonical is pruned once for every displaced leaf above it, a canonical one only if
      it is a displaced leaf itself. */
  lemma {:induction false} PrunedOncePerLeaf(db: Db, finalized: nat, displaced: seq<Hash>, x: Hash)
    requires DbInv(db) && forall leaf <- displaced :: IsDisplaced(db, finalized, leaf)
    requires x in db.headers
    ensures forall leaf <- displaced :: leaf in db.headers
    ensures multiset(PruneAll(db.headers, db.index, finalized, displaced))[x] ==
              if IsCanonical(db, x) then multiset(displaced)[x] else LeavesAbove(db.headers, displaced, x)
    decreases |displaced|
  {
    hide Tree, Kin, LeavesRefine, Canonical, Chain, Walk, IsCanonical, IsDisplaced;
    if displaced != [] {
      var last := |displaced| - 1;
      PrunedOncePerLeaf(db, finalized, displaced[..last], x);
      WalkCounts(db, finalized, displaced[last], x);
      SelfOnChain(db, displaced[last]);
      assert displaced == displaced[..last] + [displaced[last]];
    }
  }

  lemma SelfOnChain(db: Db, h: Hash)
    requires DbInv(db) && h in db.headers
    ensures h in Chain(db.headers, h)
  {
    assert Chain(db.headers, h)[db.headers[h].number] == h;
  }

  // ----- what the operations prune

  /** The leaves below a height, by descending number. */
  function LeavesBelow(m: Levels, bound: nat): (leaves: seq<Hash>)
  {
    if bound == 0 then [] else Level(m, bound - 1) + LeavesBelow(m, bound - 1)
  }

  lemma {:induction false} LeavesBelowExactly(m: Levels, bound: nat, h: Hash)
    ensures h in LeavesBelow(m, bound) <==> exists n: nat :: n < bound && h in Level(m, n)
  {
    if bound > 0 {
      LeavesBelowExactly(m, bound - 1, h);
    }
  }

  lemma {:induction false} DisplacedBelow(m: Levels, n: nat, bound: nat)
    requires bound <= n
    ensures LeavesBelow(Displaced(m, n), bound) == LeavesBelow(m, bound)
  {
    if bound > 0 {
      DisplacedBelow(m, n, bound - 1);
    }
  }

  /** What finalizing a number prunes, by the leaves and the index as they are before. */
  ghost function Pruned(db: Db, finalized: nat): (pruned: seq<Hash>)
    requires Tree(db.headers)
  {
    PruneAll(db.headers, db.index, finalized, LeavesBelow(db.leaves, finalized))
  }

  lemma {:induction false} LeavesAboveExactly(t: Headers, leaves: seq<Hash>, x: Hash)
    requires Tree(t) && forall leaf <- leaves :: leaf in t
    ensures LeavesAbove(t, leaves, x) > 0 <==> exists leaf <- leaves :: x in Chain(t, leaf)
    decreases |leaves|
  {
    hide Tree, Chain;
    if leaves != [] {
      var last := |leaves| - 1;
      LeavesAboveExactly(t, leaves[..last], x);
      assert leaves[last] in leaves;
      if leaf :| leaf in leaves && x in Chain(t, leaf) && leaf != leaves[last] {
        assert leaf in leaves[..last];
      }
    }
  }

  /** A block off the best chain with a displaced leaf above it, or itself one. */
  ghost predicate Abandoned(db: Db, finalized: nat, x: Hash)
    requires Tree(db.headers) && x in db.headers
  {
    !IsCanonical(db, x) && exists leaf :: IsDisplaced(db, finalized, leaf) && leaf in db.headers && x in Chain(db.headers, leaf)
  }

  /** Pruned are exactly the abandoned blocks, and the best block if it is listed below the finalized height. */
  lemma PrunedExactly(db: Db, finalized: nat, x: Hash)
    requires DbInv(db) && x in db.headers
    ensures x in Pruned(db, finalized) <==>
            Abandoned(db, finalized, x) || (db.best == Some(x) && db.bestNumber < finalized && x in Level(db.leaves, db.bestNumber))
  {
    var displaced := LeavesBelow(db.leaves, finalized);
    forall h
      ensures h in displaced <==> IsDisplaced(db, finalized, h)
      ensures h in displaced ==> h in db.headers && (IsCanonical(db, h) <==> db.best == Some(h))
    {
      LeavesBelowExactly(db.leaves, finalized, h);
      if h in displaced {
        DisplacedFacts(db, finalized, h);
      }
    }
    PrunedOncePerLeaf(db, finalized, displaced, x);
    LeavesAboveExactly(db.headers, displaced, x);
    BestIsDisplaced(db, finalized, x);
  }

  lemma BestIsDisplaced(db: Db, finalized: nat, x: Hash)
    requires DbInv(db) && x in db.headers
    ensures IsCanonical(db, x) && IsDisplaced(db, finalized, x) <==>
            db.best == Some(x) && db.bestNumber < finalized && x in Level(db.leaves, db.bestNumber)
  {
    hide AsIndex, Chain;
    if IsDisplaced(db, finalized, x) {
      DisplacedFacts(db, finalized, x);
      var n: nat :| n < finalized && x in Level(db.leaves, n);
      LeafCounted(db.leaves, n, x);
    }
    if db.best == Some(x) {
      IndexIsChain(Chain(db.headers, x), db.bestNumber, x);
    }
  }

  /** Finalizing a block of the best chain prunes exactly the abandoned blocks, so no block of that chain. */
  lemma FinalizingPrunesExactly(db: Db, hash: Hash, x: Hash)
    requires DbInv(db) && FinalizeBlock(db, hash).Ok? && IsCanonical(db, hash) && x in db.headers
    ensures x in Pruned(db, db.headers[hash].number) <==> Abandoned(db, db.headers[hash].number, x)
    ensures x in Pruned(db, db.headers[hash].number) ==> x !in Chain(db.headers, db.best.value)
  {
    hide Chain, Pruned, LeavesRefine, Kin;
    var f, c := db.headers[hash].number, Chain(db.headers, db.best.value);
    PrunedExactly(db, f, x);
    IndexIsChain(c, f, hash);
    if x in c {
      var i :| 0 <= i < |c| && c[i] == x;
      IndexIsChain(c, i, x);
    }
  }

  /** Importing a block as final prunes blocks of its own chain exactly in two cases: its parent is the best
      block and listed as a leaf, or its parent is off the best chain and shares blocks there with a displaced leaf. */
  lemma FinalImportPrunesExactly(db: Db, hash: Hash, header: Header, x: Hash)
    requires DbInv(db) && Fresh(db, hash, header) && header.number > 0 && ImportBlock(db, hash, header, Final).Ok?
    requires Tree(db.headers[hash := header]) && x in Chain(db.headers[hash := header], hash)
    ensures x in Pruned(db, header.number) <==>
            || (x == header.parent && db.best == Some(x) && x in Level(db.leaves, db.bestNumber))
            || (x in db.headers && Abandoned(db, header.number, x))
    ensures db.finalized != db.genesis && x in db.headers ==> !Abandoned(db, header.number, x)
  {
    hide Tree, Chain, Pruned, LeavesRefine, Canonical, IsCanonical, IsDisplaced;
    ChainOfNewBlock(db, hash, header);
    var c := Chain(db.headers, header.parent);
    if x == hash {
      NeverPrunesUnknown(db, header.number, x);
    } else {
      assert x in c;
      var i :| 0 <= i < |c| && c[i] == x;
      PrunedExactly(db, header.number, x);
      OnlyParentIsBest(db, header.parent, x);
      if db.finalized != db.genesis {
        FinalParentIsCanonical(db, header.parent, i);
      }
    }
  }

  lemma {:induction false} NeverPrunesUnknown(db: Db, finalized: nat, x: Hash)
    requires Tree(db.headers) && x !in db.headers
    ensures x !in Pruned(db, finalized)
  {
    PruneAllKnown(db.headers, db.index, finalized, LeavesBelow(db.leaves, finalized), x);
  }

  lemma {:induction false} PruneAllKnown(t: Headers, index: map<nat, Hash>, finalized: nat, displaced: seq<Hash>, x: Hash)
    requires Tree(t) && x !in t
    ensures x !in PruneAll(t, index, finalized, displaced)
    decreases |displaced|
  {
    hide Tree, Walk;
    if displaced != [] {
      PruneAllKnown(t, index, finalized, displaced[..|displaced| - 1], x);
      WalkKnown(t, index, finalized, displaced[|displaced| - 1], x);
    }
  }

  lemma {:induction false} WalkKnown(t: Headers, index: map<nat, Hash>, number: nat, hash: Hash, x: Hash)
    requires Tree(t) && x !in t
    ensures x !in Walk(t, index, number, hash)
    decreases if hash in t then t[hash].number + 1 else 0
  {
    if hash in t {
      assert Above(t, hash);
      WalkKnown(t, index, if t[hash].number == 0 then 0 else t[hash].number - 1, t[hash].parent, x);
    }
  }

  /** If the childless best block is on a chain, it is the tip of it. */
  lemma OnlyParentIsBest(db: Db, parent: Hash, x: Hash)
    requires DbInv(db) && parent in db.headers && x in Chain(db.headers, parent)
    ensures db.best == Some(x) && x in Level(db.leaves, db.bestNumber) ==> x == parent
    ensures db.best == Some(parent) ==> db.bestNumber == db.headers[parent].number
  {
    hide Chain, AsIndex, Count;
    if db.best == Some(x) && x in Level(db.leaves, db.bestNumber) && x != parent {
      LeafCounted(db.leaves, db.bestNumber, x);
      ChildlessIsNoAncestor(db.headers, db.children, x, parent);
    }
  }

  lemma FinalParentIsCanonical(db: Db, parent: Hash, i: nat)
    requires DbInv(db) && db.finalized == Some(parent) && parent in db.headers && i <= db.headers[parent].number
    ensures IsCanonical(db, Chain(db.headers, parent)[i])
  {
    hide AsIndex, Kin, LeavesRefine;
    var c, f := Chain(db.headers, db.best.value), db.finalizedNumber;
    ChainPrefix(db.headers, db.best.value, f);
    assert Chain(db.headers, parent) == c[..f + 1];
    IndexIsChain(c, i, Chain(db.headers, parent)[i]);
  }
}
