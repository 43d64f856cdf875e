/** The block database as an object, each method proved against the database model. */
module BlockBackend {
  import opened Basics
  import opened Leaves
  import opened BlockTree
  import opened BlockDb
  import opened BlockDbRuns
  import opened Pruning

  /** An operation was carried out in full, or failed and left everything as it was. */
  ghost predicate Committed(was: Db, r: Outcome<Db>, error: Option<DbError>, now: Db)
  {
    if r.Ok? then error.None? && now == r.value else error == Some(r.error) && now == was
  }

  ghost predicate IsRoute(db: Db, routeTo: Hash, retracted: seq<Hash>, enacted: seq<Hash>)
    requires Rooted(db)
  {
    db.best.Some? && routeTo in db.headers ==> (retracted, enacted) == TreeRoute(db.headers, db.best.value, routeTo)
  }

  lemma InvIsRooted(db: Db)
    requires DbInv(db)
    ensures Rooted(db)
  {
  }

  lemma StepFollows(db: Db, op: Op)
    requires DbInv(db) && GoodOp(db, op)
    ensures DbInv(Step(db, op)) && Rooted(Step(db, op)) && Follows(db, Step(db, op))
  {
    hide Kin, Refines, Canonical, Step, GoodOp;
    StepKeepsInv(db, op);
    InvIsRooted(Step(db, op));
  }

  class Backend {
    var headers: Headers
    var children: map<Hash, seq<Hash>>
    const leaves: LeafSet
    var index: map<nat, Hash>
    var best: Option<Hash>
    var bestNumber: nat
    var finalized: Option<Hash>
    var finalizedNumber: nat
    var genesis: Option<Hash>
    const delay: nat

    ghost function View(): (db: Db)
      reads this, leaves
    {
      Db(headers, children, leaves.storage, index, best, bestNumber, finalized, finalizedNumber, genesis, delay)
    }

    ghost predicate Valid()
      reads this, leaves
    {
      DbInv(View()) && Rooted(View())
    }

    constructor (delay: nat)
      ensures Valid() && View() == EmptyState(delay)
      ensures fresh(leaves)
    {
      headers, children, index := map[], map[], map[];
      leaves := new LeafSet();
      best, bestNumber, finalized, finalizedNumber, genesis := None, 0, None, 0, None;
      this.delay := delay;
      new;
      EmptyStateIsGood(delay);
    }

    /** Prepares the index for a new best block; the route to it comes from the header metadata. */
    method SetHeadWithTransaction(routeTo: Hash, number: nat, hash: Hash, retracted: seq<Hash>, enacted: seq<Hash>)
      returns (r: Outcome<map<nat, Hash>>)
      requires Rooted(View()) && IsRoute(View(), routeTo, retracted, enacted)
      ensures r == SetHead(View(), routeTo, number, hash)
    {
      hide TreeRoute, Tree;
      if (if bestNumber > number then bestNumber - number else 0) > delay {
        return Err(SetHeadTooOld);
      }
      var transaction := index;
      if best.Some? && routeTo in headers {
        for i := 0 to |retracted|
          invariant transaction == RemoveNumbers(index, headers, retracted[..i])
          invariant finalized.Some? ==> finalized.value !in retracted[..i]
        {
          if finalized == Some(retracted[i]) {
            return Err(NotInFinalizedChain);
          }
          assert retracted[..i + 1][..i] == retracted[..i];
          transaction := transaction - {headers[retracted[i]].number};
        }
        assert retracted[..|retracted|] == retracted;
        ghost var uncanonicalized := transaction;
        for i := 0 to |enacted|
          invariant transaction == InsertNumbers(uncanonicalized, headers, enacted[..i])
        {
          assert enacted[..i + 1][..i] == enacted[..i];
          transaction := transaction[headers[enacted[i]].number := enacted[i]];
        }
        assert enacted[..|enacted|] == enacted;
      }
      return Ok(transaction[number := hash]);
    }

    /** Takes the displaced leaves off the list and prunes their branches, by the index as it still is. */
    method NoteFinalized(number: nat) returns (pruned: seq<Hash>)
      requires Rooted(View())
      modifies leaves
      ensures leaves.storage == FinalizeHeight(old(leaves.storage), number) && pruned == Pruned(old(View()), number)
    {
      hide Tree, FinalizeHeight, PruneAll;
      var displaced := leaves.Finalize(number);
      DisplacedBelow(old(leaves.storage), number, number);
      pruned := PruneDisplacedBranches(headers, index, number, LeavesBelow(displaced, number));
    }

    method CommitImport(hash: Hash, header: Header, state: LeafState, retracted: seq<Hash>, enacted: seq<Hash>)
      returns (error: Option<DbError>, pruned: seq<Hash>)
      requires Valid() && GoodOp(View(), ImportOp(hash, header, state)) && IsRoute(View(), header.parent, retracted, enacted)
      modifies this, leaves
      ensures Committed(old(View()), ImportBlock(old(View()), hash, header, state), error, View())
      ensures Valid() && Follows(old(View()), View())
      ensures pruned == if error.None? && (header.number == 0 || state == Final) then Pruned(old(View()), header.number) else []
    {
      hide DbInv, Rooted, Follows, GoodOp, IsRoute, Imported, SetHead, Pruned;
      StepFollows(View(), ImportOp(hash, header, state));
      var transaction := index;
      if state != Normal {
        var r := SetHeadWithTransaction(header.parent, header.number, hash, retracted, enacted);
        if r.Err? {
          return Some(r.error), [];
        }
        transaction := r.value;
      }
      if (header.number == 0 || state == Final) && finalized != genesis && finalized != Some(header.parent) {
        return Some(NonSequentialFinalization), [];
      }
      pruned := InsertBlock(hash, header, state, transaction);
      error := None;
    }

    /** Writes a block with its leaf, child and meta entries. */
    method InsertBlock(hash: Hash, header: Header, state: LeafState, transaction: map<nat, Hash>) returns (pruned: seq<Hash>)
      requires Rooted(View())
      modifies this, leaves
      ensures View() == Imported(old(View()), hash, header, state, transaction)
      ensures pruned == if header.number == 0 || state == Final then Pruned(old(View()), header.number) else []
    {
      hide Import, FinalizeHeight, Pruned, Tree, AddChild;
      var final := header.number == 0 || state == Final;
      pruned := UpdateLeaves(hash, header, final);
      WriteChild(header.parent, hash);
      headers, index := headers[hash := header], transaction;
      UpdateMeta(hash, header.number, state != Normal, final);
    }

    method WriteChild(parent: Hash, hash: Hash)
      modifies this`children
      ensures children == AddChild(old(children), parent, hash)
    {
      var siblings := if parent in children then children[parent] else [];
      if hash !in siblings {
        children := children[parent := siblings + [hash]];
      }
    }

    method UpdateLeaves(hash: Hash, header: Header, final: bool) returns (pruned: seq<Hash>)
      requires Rooted(View())
      modifies leaves
      ensures pruned == if final then Pruned(old(View()), header.number) else []
      ensures var kept := if final then FinalizeHeight(old(leaves.storage), header.number) else old(leaves.storage);
              leaves.storage == if TracksLeaf(View(), header.number) then Import(kept, hash, header.number, header.parent).0 else kept
    {
      hide Import, FinalizeHeight, Pruned, Tree;
      pruned := [];
      if final {
        pruned := NoteFinalized(header.number);
      }
      if header.number > finalizedNumber || finalizedNumber == 0 {
        var _ := leaves.ImportBlock(hash, header.number, header.parent);
      }
    }

    method UpdateMeta(hash: Hash, number: nat, isBest: bool, isFinalized: bool)
      modifies this`best, this`bestNumber, this`finalized, this`finalizedNumber, this`genesis
      ensures genesis == if number == 0 then Some(hash) else old(genesis)
      ensures (best, bestNumber) == if isBest then (Some(hash), number) else old((best, bestNumber))
      ensures (finalized, finalizedNumber) == if isFinalized then (Some(hash), number) else old((finalized, finalizedNumber))
    {
      if number == 0 {
        genesis := Some(hash);
      }
      if isBest {
        best, bestNumber := Some(hash), number;
      }
      if isFinalized {
        finalized, finalizedNumber := Some(hash), number;
      }
    }

    method CommitHead(hash: Hash, retracted: seq<Hash>, enacted: seq<Hash>) returns (error: Option<DbError>)
      requires Valid() && IsRoute(View(), hash, retracted, enacted)
      modifies this
      ensures Committed(old(View()), SetHeadTo(old(View()), hash), error, View())
      ensures Valid() && Follows(old(View()), View())
    {
      hide DbInv, Rooted, Follows, SetHead;
      StepFollows(View(), SetHeadOp(hash));
      if hash !in headers {
        return Some(UnknownBlock);
      }
      var number := headers[hash].number;
      var r := SetHeadWithTransaction(hash, number, hash, retracted, enacted);
      if r.Err? {
        return Some(r.error);
      }
      index := r.value;
      best, bestNumber := Some(hash), number;
      return None;
    }

    method CommitFinalization(hash: Hash) returns (error: Option<DbError>, pruned: seq<Hash>)
      requires Valid() && GoodOp(View(), FinalizeOp(hash))
      modifies this, leaves
      ensures Committed(old(View()), FinalizeBlock(old(View()), hash), error, View())
      ensures Valid() && Follows(old(View()), View())
      ensures pruned == if error.None? then Pruned(old(View()), old(headers)[hash].number) else []
    {
      hide DbInv, Rooted, Follows, FinalizeHeight, Pruned;
      StepFollows(View(), FinalizeOp(hash));
      if hash !in headers {
        return Some(UnknownBlock), [];
      }
      if finalized != genesis && finalized != Some(headers[hash].parent) {
        return Some(NonSequentialFinalization), [];
      }
      var number := headers[hash].number;
      pruned := NoteFinalized(number);
      finalized, finalizedNumber := Some(hash), number;
      error := None;
    }

    method RemoveLeafBlock(hash: Hash) returns (error: Option<DbError>)
      requires Valid() && GoodOp(View(), RemoveOp(hash))
      modifies this, leaves
      ensures Committed(old(View()), BlockDb.RemoveLeafBlock(old(View()), hash), error, View())
      ensures Valid() && Follows(old(View()), View())
    {
      hide DbInv, Rooted, Follows, Remove;
      StepFollows(View(), RemoveOp(hash));
      if best == Some(hash) {
        return Some(CannotRemoveBest);
      }
      if hash !in headers {
        return Some(UnknownBlock);
      }
      var header := headers[hash];
      if !(header.number in leaves.storage && hash in leaves.storage[header.number]) {
        return Some(NotALeaf);
      }
      var siblings := Excluding(if header.parent in children then children[header.parent] else [], hash);
      var parentLeaf := None;
      if siblings == [] {
        children := children - {header.parent};
        parentLeaf := Some(header.parent);
      } else {
        children := children[header.parent := siblings];
      }
      headers := headers - {hash};
      var _ := leaves.RemoveBlock(hash, header.number, parentLeaf);
      return None;
    }
  }
}
