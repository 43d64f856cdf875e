/** What each operation of the block database does, and exactly when it succeeds. */
module BlockDbEffects {
  import opened Basics
  import opened Leaves
  import opened BlockTree
  import opened BlockDb
  import opened BlockDbRuns

  lemma NotEmpty(db: Db, hash: Hash)
    requires DbInv(db) && hash in db.headers
    ensures db.best.Some? && db.finalized.Some?
  {
  }

  // ----- head changes

  /** The finalized block is on the chain of a block. */
  ghost predicate OnFinalizedChain(db: Db, hash: Hash)
    requires Tree(db.headers) && hash in db.headers
  {
    db.finalized.Some? && OnChain(Chain(db.headers, hash), db.finalizedNumber, db.finalized.value)
  }

  /** Moving the head to a known block makes it the best one and its chain the index, and changes nothing else;
      it fails if that goes back too far or would leave the finalized chain. */
  lemma SetHeadExactly(db: Db, hash: Hash)
    requires DbInv(db)
    ensures SetHeadTo(db, hash) ==
            if hash !in db.headers then Err(UnknownBlock)
            else if db.bestNumber > db.headers[hash].number + db.delay then Err(SetHeadTooOld)
            else if !OnFinalizedChain(db, hash) then Err(NotInFinalizedChain)
            else Ok(db.(best := Some(hash), bestNumber := db.headers[hash].number, index := AsIndex(Chain(db.headers, hash))))
  {
    hide Tree, Kin, Refines, Chain, AsIndex, TreeRoute, RemoveNumbers, InsertNumbers;
    if hash in db.headers {
      var n := db.headers[hash].number;
      NotEmpty(db, hash);
      HeadChangeSucceedsExactly(db, hash, n, hash);
      if SetHead(db, hash, n, hash).Ok? {
        HeadChangeIsExact(db, hash, n, hash);
        AsIndexStays(Chain(db.headers, hash), n);
      }
    }
  }

  // ----- finalization

  /** Finality may move to a child of the finalized block, or anywhere while it is at the first block. */
  ghost predicate MayFinalize(db: Db, parent: Hash)
  {
    db.finalizedNumber == 0 || db.finalized == Some(parent)
  }

  lemma SequentialExactly(db: Db, parent: Hash)
    requires DbInv(db)
    ensures SequentialFinalization(db, parent) <==> MayFinalize(db, parent)
  {
    hide Tree, Kin, Refines, AsIndex;
  }

  /** Finalizing a block makes it the finalized one and takes the leaves below it off the list. */
  lemma FinalizeExactly(db: Db, hash: Hash)
    requires DbInv(db)
    ensures var r := FinalizeBlock(db, hash);
            if hash !in db.headers then r == Err(UnknownBlock)
            else if !MayFinalize(db, db.headers[hash].parent) then r == Err(NonSequentialFinalization)
            else
              var n := db.headers[hash].number;
              && r.Ok? && r.value == db.(leaves := r.value.leaves, finalized := Some(hash), finalizedNumber := n)
              && forall k: nat, h :: Count(r.value.leaves, k, h) == if k < n then 0 else Count(db.leaves, k, h)
  {
    hide DbInv, FinalizeHeight, Count, SequentialFinalization, MayFinalize;
    if hash in db.headers {
      SequentialExactly(db, db.headers[hash].parent);
      FinalizationSplits(db.leaves, db.headers[hash].number);
    }
  }

  // ----- import

  /** An import that changes the head needs the finalized block on the chain of the parent, close enough to the
      best block. */
  ghost predicate MayBecomeBest(db: Db, header: Header)
    requires Tree(db.headers)
  {
    header.number == 0 ||
    (db.bestNumber <= header.number + db.delay && header.parent in db.headers && OnFinalizedChain(db, header.parent))
  }

  lemma ImportSucceedsExactly(db: Db, hash: Hash, header: Header, state: LeafState)
    requires DbInv(db) && Fresh(db, hash, header) && (header.number == 0 ==> state != Normal)
    ensures ImportBlock(db, hash, header, state).Ok? <==>
            && (state != Normal ==> MayBecomeBest(db, header))
            && (state == Final || header.number == 0 ==> MayFinalize(db, header.parent))
  {
    hide Tree, Kin, Refines, Chain, AsIndex, TreeRoute, RemoveNumbers, InsertNumbers, Imported, SequentialFinalization, MayFinalize;
    SequentialExactly(db, header.parent);
    if state != Normal {
      if header.number == 0 {
        EmptyDb(db);
      } else {
        NotEmpty(db, header.parent);
        HeadChangeSucceedsExactly(db, header.parent, header.number, hash);
      }
    }
  }

  /** A block imported as best, or as final, becomes the best one with its chain as index; one imported as final,
      or the first of all, becomes the finalized one; any other leaves these as they were. */
  lemma ImportMovesHead(db: Db, hash: Hash, header: Header, state: LeafState)
    requires DbInv(db) && Fresh(db, hash, header) && (header.number == 0 ==> state != Normal)
    requires ImportBlock(db, hash, header, state).Ok?
    ensures var db' := ImportBlock(db, hash, header, state).value;
            && db'.headers == db.headers[hash := header] && db'.delay == db.delay
            && db'.genesis == (if header.number == 0 then Some(hash) else db.genesis)
            && (if state == Normal then db'.best == db.best && db'.bestNumber == db.bestNumber && db'.index == db.index
                else
                  && db'.best == Some(hash) && db'.bestNumber == header.number && Tree(db'.headers)
                  && db'.index == AsIndex(Chain(db'.headers, hash)))
            && (if state == Final || header.number == 0 then db'.finalized == Some(hash) && db'.finalizedNumber == header.number
                else db'.finalized == db.finalized && db'.finalizedNumber == db.finalizedNumber)
  {
    hide Tree, Kin, LeavesRefine, Chain, AsIndex, SetHead, Import, FinalizeHeight, AddChild, KeepsFinality;
    ImportKeepsInv(db, hash, header, state);
  }

  /** An imported block is entered as the last child of its parent, and as a leaf in place of it unless it is not
      above the finalized height; a final one takes the leaves below it off the list. */
  lemma ImportAddsLeaf(db: Db, hash: Hash, header: Header, state: LeafState)
    requires DbInv(db) && Fresh(db, hash, header) && ImportBlock(db, hash, header, state).Ok?
    ensures var db', n := ImportBlock(db, hash, header, state).value, header.number;
            && Children(db', header.parent) == Children(db, header.parent) + [hash]
            && (forall p :: p != header.parent ==> Children(db', p) == Children(db, p))
            && forall k: nat, h :: Count(db'.leaves, k, h) ==
                 if (n > db.finalizedNumber || db.finalizedNumber == 0) && k == n && h == hash then 1
                 else if (n > db.finalizedNumber || db.finalizedNumber == 0) && k + 1 == n && h == header.parent then 0
                 else if (state == Final || n == 0) && k < n then 0
                 else Count(db.leaves, k, h)
  {
    hide Tree, Canonical, SetHead, Import, FinalizeHeight, SequentialFinalization, Count;
    var n := header.number;
    FinalizationSplits(db.leaves, n);
    ImportCounts(if state == Final || n == 0 then FinalizeHeight(db.leaves, n) else db.leaves, hash, n, header.parent);
    assert Count(db.leaves, n, hash) == 0;
  }

  // ----- removal

  ghost predicate OnlyChild(db: Db, hash: Hash)
    requires hash in db.headers
  {
    forall c <- db.headers :: db.headers[c].parent == db.headers[hash].parent ==> c == hash
  }

  lemma SiblingsExactly(db: Db, hash: Hash)
    requires Kin(db.headers, db.children) && hash in db.headers
    ensures Siblings(db, hash) == [] <==> OnlyChild(db, hash)
    ensures forall c :: c in Siblings(db, hash) <==> c != hash && c in Children(db, db.headers[hash].parent)
  {
    var p := db.headers[hash].parent;
    ExcludingElements(Children(db, p), hash);
    if Siblings(db, hash) != [] {
      assert Siblings(db, hash)[0] in Siblings(db, hash);
    }
  }

  /** Removing a leaf other than the best block takes it off the headers, off the children of its parent and
      off the leaves, which its parent joins if it was the only child; nothing else changes. */
  lemma RemoveExactly(db: Db, hash: Hash)
    requires DbInv(db)
    ensures var r := RemoveLeafBlock(db, hash);
            if db.best == Some(hash) then r == Err(CannotRemoveBest)
            else if hash !in db.headers then r == Err(UnknownBlock)
            else if Count(db.leaves, db.headers[hash].number, hash) == 0 then r == Err(NotALeaf)
            else
              var header := db.headers[hash];
              && r.Ok? && r.value == db.(headers := db.headers - {hash}, children := r.value.children, leaves := r.value.leaves)
              && (forall p, c :: c in Children(r.value, p) <==> c != hash && c in Children(db, p))
              && forall k: nat, h :: Count(r.value.leaves, k, h) ==
                   if k == header.number && h == hash then 0
                   else Count(db.leaves, k, h) + if k + 1 == header.number && h == header.parent && OnlyChild(db, hash) then 1 else 0
  {
    hide Tree, Canonical, InsertLeaf, RemoveLeaf, Siblings, Count, Level, OnlyChild;
    if db.best != Some(hash) && hash in db.headers {
      var n, p := db.headers[hash].number, db.headers[hash].parent;
      LeafIsCounted(db.leaves, n, hash);
      if Count(db.leaves, n, hash) > 0 {
        SiblingsExactly(db, hash);
        RemoveCounts(db.leaves, n, hash);
        if n > 0 {
          InsertCounts(RemoveLeaf(db.leaves, n, hash), n - 1, p);
        }
      }
    }
  }
}
