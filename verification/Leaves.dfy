/** The set of leaves of the block tree, by block number. */
module Leaves {
  import opened Basics

  /** Leaf hashes by block number. */
  type Levels = map<nat, seq<Hash>>

  datatype ImportOutcome = ImportOutcome(number: nat, inserted: Hash, removed: Option<Hash>)

  datatype RemoveOutcome = RemoveOutcome(inserted: Option<Hash>, number: nat, removed: Hash)

  function Level(m: Levels, n: nat): (hashes: seq<Hash>)
  {
    if n in m then m[n] else []
  }

  function Excluding(s: seq<Hash>, h: Hash): (r: seq<Hash>)
  {
    if s == [] then [] else (if s[0] == h then [] else [s[0]]) + Excluding(s[1..], h)
  }

  function InsertLeaf(m: Levels, n: nat, h: Hash): (m': Levels)
  {
    m[n := Level(m, n) + [h]]
  }

  /** Drops a level that becomes empty. */
  function RemoveLeaf(m: Levels, n: nat, h: Hash): (m': Levels)
  {
    if h !in Level(m, n) then m
    else if Excluding(m[n], h) == [] then m - {n}
    else m[n := Excluding(m[n], h)]
  }

  function Import(m: Levels, h: Hash, n: nat, parent: Hash): (r: (Levels, ImportOutcome))
  {
    if n > 0 && parent in Level(m, n - 1) then
      (InsertLeaf(RemoveLeaf(m, n - 1, parent), n, h), ImportOutcome(n, h, Some(parent)))
    else
      (InsertLeaf(m, n, h), ImportOutcome(n, h, None))
  }

  function Remove(m: Levels, h: Hash, n: nat, parent: Option<Hash>): (r: (Levels, Option<RemoveOutcome>))
  {
    if h !in Level(m, n) then (m, None)
    else if parent.Some? && n > 0 then
      (InsertLeaf(RemoveLeaf(m, n, h), n - 1, parent.value), Some(RemoveOutcome(parent, n, h)))
    else
      (RemoveLeaf(m, n, h), Some(RemoveOutcome(None, n, h)))
  }

  /** The leaves that finalizing a height displaces: all below it. */
  function Displaced(m: Levels, n: nat): (removed: Levels)
  {
    map k <- m | k < n :: m[k]
  }

  function FinalizeHeight(m: Levels, n: nat): (m': Levels)
  {
    map k <- m | k >= n :: m[k]
  }

  function UndoImport(m: Levels, o: ImportOutcome): (m': Levels)
    requires o.removed.Some? ==> o.number > 0
  {
    var m1 := if o.removed.Some? then InsertLeaf(m, o.number - 1, o.removed.value) else m;
    RemoveLeaf(m1, o.number, o.inserted)
  }

  function UndoRemove(m: Levels, o: RemoveOutcome): (m': Levels)
    requires o.inserted.Some? ==> o.number > 0
  {
    var m1 := if o.inserted.Some? then RemoveLeaf(m, o.number - 1, o.inserted.value) else m;
    InsertLeaf(m1, o.number, o.removed)
  }

  function UndoFinalization(m: Levels, removed: Levels): (m': Levels)
  {
    m + removed
  }

  // ----- laws

  /** Equal up to the order within a level. */
  ghost predicate SameLeaves(a: Levels, b: Levels)
  {
    a.Keys == b.Keys && forall n <- a :: multiset(a[n]) == multiset(b[n])
  }

  lemma {:induction false} ExcludingMultiset(s: seq<Hash>, h: Hash)
    ensures multiset(Excluding(s, h)) == multiset(s)[h := 0]
  {
    if s != [] {
      ExcludingMultiset(s[1..], h);
      assert s == [s[0]] + s[1..];
    }
  }

  /** Leaf counts say all that matters about a leaf set. */
  ghost function Count(m: Levels, n: nat, h: Hash): (c: nat)
  {
    multiset(Level(m, n))[h]
  }

  ghost predicate NoEmptyLevel(m: Levels)
  {
    forall n <- m :: m[n] != []
  }

  lemma InsertCounts(m: Levels, n: nat, h: Hash)
    requires NoEmptyLevel(m)
    ensures NoEmptyLevel(InsertLeaf(m, n, h))
    ensures forall k, x :: Count(InsertLeaf(m, n, h), k, x) == Count(m, k, x) + if k == n && x == h then 1 else 0
  {
  }

  lemma RemoveCounts(m: Levels, n: nat, h: Hash)
    requires NoEmptyLevel(m)
    ensures NoEmptyLevel(RemoveLeaf(m, n, h))
    ensures forall k, x :: Count(RemoveLeaf(m, n, h), k, x) == if k == n && x == h then 0 else Count(m, k, x)
  {
    if h in Level(m, n) {
      ExcludingMultiset(m[n], h);
    }
  }

  lemma SameCounts(a: Levels, b: Levels)
    requires NoEmptyLevel(a) && NoEmptyLevel(b)
    ensures SameLeaves(a, b) <==> forall n, h :: Count(a, n, h) == Count(b, n, h)
  {
    if forall n, h :: Count(a, n, h) == Count(b, n, h) {
      forall n
        ensures n in a <==> n in b
        ensures n in a ==> multiset(a[n]) == multiset(b[n])
      {
        if n in a {
          assert Count(a, n, a[n][0]) > 0;
          assert Count(b, n, a[n][0]) > 0;
        }
        if n in b {
          assert Count(b, n, b[n][0]) > 0;
          assert Count(a, n, b[n][0]) > 0;
        }
        assert n in a ==> forall h :: multiset(a[n])[h] == Count(a, n, h) && multiset(b[n])[h] == Count(b, n, h);
      }
    }
  }

  /** No empty level and no hash twice in a level. */
  ghost predicate WellFormed(m: Levels)
  {
    NoEmptyLevel(m) && forall n, h :: Count(m, n, h) <= 1
  }

  lemma ImportCounts(m: Levels, h: Hash, n: nat, parent: Hash)
    requires NoEmptyLevel(m)
    ensures NoEmptyLevel(Import(m, h, n, parent).0)
    ensures forall k, x :: Count(Import(m, h, n, parent).0, k, x) ==
              (if k == n - 1 && x == parent then 0 else Count(m, k, x)) + if k == n && x == h then 1 else 0
  {
    hide InsertLeaf, RemoveLeaf;
    if n > 0 && parent in Level(m, n - 1) {
      RemoveCounts(m, n - 1, parent);
      InsertCounts(RemoveLeaf(m, n - 1, parent), n, h);
    } else {
      InsertCounts(m, n, h);
      assert n > 0 ==> Count(m, n - 1, parent) == 0;
    }
  }

  lemma LeafIsCounted(m: Levels, n: nat, h: Hash)
    ensures h in Level(m, n) <==> Count(m, n, h) > 0
  {
  }

  lemma WellFormedIsNonEmpty(m: Levels)
    requires WellFormed(m)
    ensures NoEmptyLevel(m)
  {
  }

  lemma ImportOutcomeFits(m: Levels, h: Hash, n: nat, parent: Hash)
    ensures var o := Import(m, h, n, parent).1;
            o.removed.Some? ==> o.number > 0
  {
  }

  lemma RemoveOutcomeFits(m: Levels, h: Hash, n: nat, parent: Option<Hash>)
    requires h in Level(m, n)
    ensures var o := Remove(m, h, n, parent).1;
            o.Some? && (o.value.inserted.Some? ==> o.value.number > 0)
  {
  }

  /** Leaf sets that differ in one leaf at most are the same exactly if it is in neither. */
  lemma SameButOne(a: Levels, b: Levels, n: nat, h: Hash)
    requires NoEmptyLevel(a) && NoEmptyLevel(b)
    requires forall k: nat, x: Hash :: Count(a, k, x) == if k == n && x == h then 0 else Count(b, k, x)
    ensures SameLeaves(a, b) <==> h !in Level(b, n)
  {
    hide SameLeaves, NoEmptyLevel, Level, Count;
    SameCounts(a, b);
    LeafIsCounted(b, n, h);
  }

  lemma UndoImportCount(m: Levels, h: Hash, n: nat, parent: Hash, k: nat, x: Hash)
    requires WellFormed(m)
    ensures var (m1, o) := Import(m, h, n, parent);
            && NoEmptyLevel(UndoImport(m1, o))
            && Count(UndoImport(m1, o), k, x) == if k == n && x == h then 0 else Count(m, k, x)
  {
    hide InsertLeaf, RemoveLeaf, Level, Count;
    var (m1, o) := Import(m, h, n, parent);
    ImportCounts(m, h, n, parent);
    if n > 0 {
      LeafIsCounted(m, n - 1, parent);
    }
    if o.removed.Some? {
      InsertCounts(m1, n - 1, parent);
      RemoveCounts(InsertLeaf(m1, n - 1, parent), n, h);
    } else {
      RemoveCounts(m1, n, h);
    }
  }

  /** Undoing an import restores the leaf set, up to order, exactly if the block was not a leaf before. */
  lemma UndoImportRestores(m: Levels, h: Hash, n: nat, parent: Hash)
    requires WellFormed(m)
    ensures var (m1, o) := Import(m, h, n, parent);
            SameLeaves(UndoImport(m1, o), m) <==> h !in Level(m, n)
  {
    hide *;
    ImportOutcomeFits(m, h, n, parent);
    UndoImportCount(m, h, n, parent, n, h);
    var r := Import(m, h, n, parent);
    var restored := UndoImport(r.0, r.1);
    forall k: nat, x: Hash
      ensures Count(restored, k, x) == if k == n && x == h then 0 else Count(m, k, x)
    {
      UndoImportCount(m, h, n, parent, k, x);
    }
    WellFormedIsNonEmpty(m);
    SameButOne(restored, m, n, h);
  }

  lemma UndoRemoveCount(m: Levels, h: Hash, n: nat, parent: Option<Hash>, k: nat, x: Hash)
    requires WellFormed(m) && h in Level(m, n)
    ensures var (m1, o) := Remove(m, h, n, parent);
            && o.Some? && NoEmptyLevel(UndoRemove(m1, o.value))
            && Count(UndoRemove(m1, o.value), k, x) ==
               if parent.Some? && n > 0 && k == n - 1 && x == parent.value then 0 else Count(m, k, x)
  {
    hide InsertLeaf, RemoveLeaf, Level, Count;
    var (m1, o) := Remove(m, h, n, parent);
    LeafIsCounted(m, n, h);
    RemoveCounts(m, n, h);
    if parent.Some? && n > 0 {
      InsertCounts(RemoveLeaf(m, n, h), n - 1, parent.value);
      RemoveCounts(m1, n - 1, parent.value);
      InsertCounts(RemoveLeaf(m1, n - 1, parent.value), n, h);
    } else {
      InsertCounts(m1, n, h);
    }
  }

  /** Undoing a removal restores the leaf set, up to order, exactly if a re-inserted parent was not a leaf before. */
  lemma UndoRemoveRestores(m: Levels, h: Hash, n: nat, parent: Option<Hash>)
    requires WellFormed(m) && h in Level(m, n)
    ensures var (m1, o) := Remove(m, h, n, parent);
            && o.Some?
            && (SameLeaves(UndoRemove(m1, o.value), m) <==> (parent.Some? && n > 0 ==> parent.value !in Level(m, n - 1)))
  {
    hide *;
    RemoveOutcomeFits(m, h, n, parent);
    UndoRemoveCount(m, h, n, parent, n, h);
    var r := Remove(m, h, n, parent);
    var restored := UndoRemove(r.0, r.1.value);
    WellFormedIsNonEmpty(m);
    if parent.Some? && n > 0 {
      var below: nat := n - 1;
      forall k: nat, x: Hash
        ensures Count(restored, k, x) == if k == below && x == parent.value then 0 else Count(m, k, x)
      {
        UndoRemoveCount(m, h, n, parent, k, x);
      }
      SameButOne(restored, m, below, parent.value);
    } else {
      forall k: nat, x: Hash
        ensures Count(restored, k, x) == Count(m, k, x)
      {
        UndoRemoveCount(m, h, n, parent, k, x);
      }
      SameCounts(restored, m);
    }
  }

  /** Finalizing a height splits the leaf set, and undoing it restores it exactly. */
  lemma FinalizationSplits(m: Levels, n: nat)
    ensures FinalizeHeight(m, n).Keys !! Displaced(m, n).Keys
    ensures UndoFinalization(FinalizeHeight(m, n), Displaced(m, n)) == m
    ensures NoEmptyLevel(m) ==> NoEmptyLevel(FinalizeHeight(m, n))
    ensures forall k: nat, h :: Count(FinalizeHeight(m, n), k, h) == if k >= n then Count(m, k, h) else 0
  {
  }

  // ----- the leaf set as an object

  class LeafSet {
    var storage: Levels

    constructor ()
      ensures storage == map[]
    {
      storage := map[];
    }

    method InsertAt(n: nat, h: Hash)
      modifies this
      ensures storage == InsertLeaf(old(storage), n, h)
    {
      if n !in storage {
        storage := storage[n := []];
      }
      storage := storage[n := storage[n] + [h]];
    }

    method RemoveAt(n: nat, h: Hash) returns (removed: bool)
      modifies this
      ensures removed == (h in Level(old(storage), n))
      ensures storage == RemoveLeaf(old(storage), n, h)
    {
      if n !in storage {
        return false;
      }
      var kept: seq<Hash> := [];
      removed := false;
      var leaves := storage[n];
      for i := 0 to |leaves|
        invariant storage == old(storage)
        invariant kept == Excluding(leaves[..i], h) && removed == (h in leaves[..i])
      {
        ExcludingAppend(leaves[..i], leaves[i], h);
        assert leaves[..i + 1] == leaves[..i] + [leaves[i]];
        if leaves[i] == h {
          removed := true;
        } else {
          kept := kept + [leaves[i]];
        }
      }
      assert leaves[..|leaves|] == leaves;
      ExcludingAbsent(leaves, h);
      storage := storage[n := kept];
      if removed && kept == [] {
        storage := storage - {n};
        assert storage == old(storage) - {n};
      }
    }

    method ImportBlock(h: Hash, n: nat, parent: Hash) returns (o: ImportOutcome)
      modifies this
      ensures (storage, o) == Import(old(storage), h, n, parent)
    {
      hide RemoveLeaf, InsertLeaf;
      var removed := None;
      if n != 0 {
        var found := RemoveAt(n - 1, parent);
        if found {
          removed := Some(parent);
        } else {
          NothingRemoved(old(storage), n - 1, parent);
        }
      }
      InsertAt(n, h);
      o := ImportOutcome(n, h, removed);
    }

    method RemoveBlock(h: Hash, n: nat, parent: Option<Hash>) returns (o: Option<RemoveOutcome>)
      modifies this
      ensures (storage, o) == Remove(old(storage), h, n, parent)
    {
      hide RemoveLeaf, InsertLeaf;
      var found := RemoveAt(n, h);
      if !found {
        NothingRemoved(old(storage), n, h);
        return None;
      }
      var inserted := None;
      if parent.Some? && n != 0 {
        InsertAt(n - 1, parent.value);
        inserted := parent;
      }
      return Some(RemoveOutcome(inserted, n, h));
    }

    /** Everything below the boundary, the number before the finalized one, is split off. */
    method Finalize(n: nat) returns (removed: Levels)
      modifies this
      ensures storage == FinalizeHeight(old(storage), n) && removed == Displaced(old(storage), n)
    {
      if n == 0 {
        return map[];
      }
      var boundary := n - 1;
      removed := map k <- storage | k <= boundary :: storage[k];
      storage := map k <- storage | k > boundary :: storage[k];
    }

    method DisplacedBy(n: nat) returns (removed: Levels)
      ensures removed == Displaced(storage, n)
    {
      if n == 0 {
        return map[];
      }
      var boundary := n - 1;
      removed := map k <- storage | k <= boundary :: storage[k];
    }

    method UndoImportOf(o: ImportOutcome)
      requires o.removed.Some? ==> o.number > 0
      modifies this
      ensures storage == UndoImport(old(storage), o)
    {
      if o.removed.Some? {
        InsertAt(o.number - 1, o.removed.value);
      }
      var _ := RemoveAt(o.number, o.inserted);
    }

    method UndoRemoveOf(o: RemoveOutcome)
      requires o.inserted.Some? ==> o.number > 0
      modifies this
      ensures storage == UndoRemove(old(storage), o)
    {
      if o.inserted.Some? {
        var _ := RemoveAt(o.number - 1, o.inserted.value);
      }
      InsertAt(o.number, o.removed);
    }

    method UndoFinalizationOf(removed: Levels)
      modifies this
      ensures storage == UndoFinalization(old(storage), removed)
    {
      storage := storage + removed;
    }
  }

  lemma {:induction false} ExcludingAppend(s: seq<Hash>, x: Hash, h: Hash)
    ensures Excluding(s + [x], h) == Excluding(s, h) + if x == h then [] else [x]
  {
    if s == [] {
      assert s + [x] == [x];
    } else {
      ExcludingAppend(s[1..], x, h);
      assert (s + [x])[1..] == s[1..] + [x];
    }
  }

  lemma {:induction false} ExcludingAbsent(s: seq<Hash>, h: Hash)
    ensures h !in s ==> Excluding(s, h) == s
  {
    if s != [] {
      ExcludingAbsent(s[1..], h);
    }
  }

  lemma NothingRemoved(m: Levels, n: nat, h: Hash)
    requires h !in Level(m, n)
    ensures RemoveLeaf(m, n, h) == m
  {
  }
}
