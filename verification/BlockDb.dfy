/** The block database as a state machine on values: headers, children, leaves, the canonical index and the
    best and finalized blocks. */
module BlockDb {
  import opened Basics
  import opened Leaves
  import opened BlockTree

  datatype DbError =
    SetHeadTooOld | NotInFinalizedChain | NonSequentialFinalization | UnknownBlock | CannotRemoveBest | NotALeaf

  datatype Outcome<+T> = Ok(value: T) | Err(error: DbError)

  datatype LeafState = Normal | Best | Final

  /** `best`, `finalized` and `genesis` are missing only in an empty database. */
  datatype Db = Db(
    headers: Headers, children: map<Hash, seq<Hash>>, leaves: Levels, index: map<nat, Hash>,
    best: Option<Hash>, bestNumber: nat, finalized: Option<Hash>, finalizedNumber: nat, genesis: Option<Hash>, delay: nat)

  function Children(db: Db, parent: Hash): (hashes: seq<Hash>)
  {
    if parent in db.children then db.children[parent] else []
  }

  /** The blocks form a tree and the best block is one of them. */
  ghost predicate Rooted(db: Db)
  {
    Tree(db.headers) && (db.best.Some? ==> db.best.value in db.headers)
  }

  // ----- operations

  /** The index with a new best block, reached over a block that is already there. */
  ghost function SetHead(db: Db, routeTo: Hash, number: nat, hash: Hash): (index: Outcome<map<nat, Hash>>)
    requires Rooted(db)
  {
    if db.bestNumber > number + db.delay then Err(SetHeadTooOld)
    else if db.best.Some? && routeTo in db.headers then
      var (retracted, enacted) := TreeRoute(db.headers, db.best.value, routeTo);
      if db.finalized.Some? && db.finalized.value in retracted then Err(NotInFinalizedChain)
      else Ok(InsertNumbers(RemoveNumbers(db.index, db.headers, retracted), db.headers, enacted)[number := hash])
    else Ok(db.index[number := hash])
  }

  predicate SequentialFinalization(db: Db, parent: Hash)
  {
    db.finalized == db.genesis || db.finalized == Some(parent)
  }

  /** Whether the leaf set learns about a new block at a number. */
  predicate TracksLeaf(db: Db, number: nat)
  {
    number > db.finalizedNumber || db.finalizedNumber == 0
  }

  function AddChild(children: map<Hash, seq<Hash>>, parent: Hash, hash: Hash): (r: map<Hash, seq<Hash>>)
  {
    var siblings := if parent in children then children[parent] else [];
    if hash in siblings then children else children[parent := siblings + [hash]]
  }

  /** A new block, once its head change and finalization went through. */
  function Imported(db: Db, hash: Hash, header: Header, state: LeafState, index: map<nat, Hash>): (db': Db)
  {
    var final := state == Final || header.number == 0;
    var leaves := if final then FinalizeHeight(db.leaves, header.number) else db.leaves;
    var db1 := db.(
      headers := db.headers[hash := header], children := AddChild(db.children, header.parent, hash), index := index,
      leaves := if TracksLeaf(db, header.number) then Import(leaves, hash, header.number, header.parent).0 else leaves,
      genesis := if header.number == 0 then Some(hash) else db.genesis);
    var db2 := if state == Normal then db1 else db1.(best := Some(hash), bestNumber := header.number);
    if final then db2.(finalized := Some(hash), finalizedNumber := header.number) else db2
  }

  ghost function ImportBlock(db: Db, hash: Hash, header: Header, state: LeafState): (r: Outcome<Db>)
    requires Rooted(db)
  {
    var index := if state == Normal then Ok(db.index) else SetHead(db, header.parent, header.number, hash);
    if index.Err? then Err(index.error)
    else if (state == Final || header.number == 0) && !SequentialFinalization(db, header.parent) then Err(NonSequentialFinalization)
    else Ok(Imported(db, hash, header, state, index.value))
  }

  ghost function SetHeadTo(db: Db, hash: Hash): (r: Outcome<Db>)
    requires Rooted(db)
  {
    if hash !in db.headers then Err(UnknownBlock)
    else
      var number := db.headers[hash].number;
      var index := SetHead(db, hash, number, hash);
      if index.Err? then Err(index.error)
      else Ok(db.(index := index.value, best := Some(hash), bestNumber := number))
  }

  function FinalizeBlock(db: Db, hash: Hash): (r: Outcome<Db>)
  {
    if hash !in db.headers then Err(UnknownBlock)
    else if !SequentialFinalization(db, db.headers[hash].parent) then Err(NonSequentialFinalization)
    else
      var number := db.headers[hash].number;
      Ok(db.(leaves := FinalizeHeight(db.leaves, number), finalized := Some(hash), finalizedNumber := number))
  }

  /** The other children of a leaf's parent. */
  function Siblings(db: Db, hash: Hash): (hashes: seq<Hash>)
    requires hash in db.headers
  {
    Excluding(Children(db, db.headers[hash].parent), hash)
  }

  function RemoveLeafBlock(db: Db, hash: Hash): (r: Outcome<Db>)
  {
    if db.best == Some(hash) then Err(CannotRemoveBest)
    else if hash !in db.headers then Err(UnknownBlock)
    else
      var header := db.headers[hash];
      if hash !in Level(db.leaves, header.number) then Err(NotALeaf)
      else
        var siblings := Siblings(db, hash);
        Ok(db.(
          headers := db.headers - {hash},
          children := if siblings == [] then db.children - {header.parent} else db.children[header.parent := siblings],
          leaves := Remove(db.leaves, hash, header.number, if siblings == [] then Some(header.parent) else None).0))
  }

  // ----- the invariant

  /** The children index agrees with the headers. */
  ghost predicate Kin(t: Headers, children: map<Hash, seq<Hash>>)
  {
    && (forall p <- children :: children[p] != [])
    && (forall c <- t :: t[c].parent in children && c in children[t[c].parent])
    && (forall p <- children :: forall c <- children[p] :: c in t && t[c].parent == p)
  }

  /** Every leaf is a childless block at its number, not below the finalized height, and above that height
      every childless block is a leaf; before any finalization, every childless block at all. */
  ghost predicate Refines(t: Headers, children: map<Hash, seq<Hash>>, leaves: Levels, finalized: nat)
  {
    && WellFormed(leaves)
    && (forall n: nat, h: Hash :: Count(leaves, n, h) > 0 ==> h in t && t[h].number == n && h !in children && n >= finalized)
    && (forall h <- t :: h !in children && (t[h].number > finalized || finalized == 0) ==> Count(leaves, t[h].number, h) > 0)
  }

  ghost predicate LeavesRefine(db: Db)
  {
    Refines(db.headers, db.children, db.leaves, db.finalizedNumber)
  }

  ghost predicate OnChain(c: seq<Hash>, n: nat, h: Hash)
  {
    n < |c| && c[n] == h
  }

  /** The index holds exactly the chain of the best block, and the finalized block is on it. */
  ghost predicate Canonical(db: Db)
    requires Tree(db.headers)
  {
    if db.best.None? then
      db.headers == map[] && db.index == map[] && db.finalized.None? && db.genesis.None? && db.bestNumber == 0 && db.finalizedNumber == 0
    else
      && db.best.value in db.headers && db.headers[db.best.value].number == db.bestNumber
      && var c := Chain(db.headers, db.best.value);
         && db.index == AsIndex(c) && db.genesis == Some(c[0])
         && db.finalized.Some? && OnChain(c, db.finalizedNumber, db.finalized.value)
  }

  ghost predicate DbInv(db: Db)
  {
    Tree(db.headers) && Kin(db.headers, db.children) && LeavesRefine(db) && Canonical(db)
  }
}
