/** Block bodies whose extrinsics keep their data in a reference-counted column. */
module IndexedBody {
  import opened Basics

  type Bytes = seq<byte>
  type Extrinsic(==, !new)
  type ContentHash(==, !new)

  datatype IndexOp = Insert(extrinsic: nat, hash: ContentHash, size: nat) | Renew(extrinsic: nat, hash: ContentHash)

  datatype DbExtrinsic = Indexed(hash: ContentHash, header: Bytes) | Full(extrinsic: Extrinsic)

  /** Encoding of extrinsics, of plain bodies and of indexed ones; extrinsics are decoded from the front of
      some bytes. */
  datatype Codec = Codec(
    encode: Extrinsic -> Bytes, parse: Bytes -> Option<Extrinsic>,
    encodeBody: seq<Extrinsic> -> Bytes, parseBody: Bytes -> Option<seq<Extrinsic>>,
    encodeIndex: seq<DbExtrinsic> -> Bytes, parseIndex: Bytes -> Option<seq<DbExtrinsic>>)

  /** Decoding an extrinsic reads back what was encoded and no further. */
  ghost predicate PrefixDecodable(c: Codec)
  {
    forall ex: Extrinsic, rest: Bytes :: c.parse(c.encode(ex) + rest) == Some(ex)
  }

  /** Decoding a body reads back what was encoded. */
  ghost predicate BodyDecodable(c: Codec)
  {
    && (forall body: seq<Extrinsic> :: c.parseBody(c.encodeBody(body)) == Some(body))
    && (forall index: seq<DbExtrinsic> :: c.parseIndex(c.encodeIndex(index)) == Some(index))
  }

  datatype Change = Store(hash: ContentHash, value: Bytes) | Reference(hash: ContentHash) | Release(hash: ContentHash)

  /** Values with their number of references. */
  type Column = map<ContentHash, (Bytes, nat)>

  // ----- the column

  function Apply(col: Column, change: Change): (col': Column)
  {
    var h := change.hash;
    match change
    case Store(_, value) => if h in col then col[h := (col[h].0, col[h].1 + 1)] else col[h := (value, 1)]
    case Reference(_) => if h in col then col[h := (col[h].0, col[h].1 + 1)] else col
    case Release(_) =>
      if h !in col then col
      else if col[h].1 <= 1 then col - {h}
      else col[h := (col[h].0, col[h].1 - 1)]
  }

  function Commit(col: Column, changes: seq<Change>): (col': Column)
    decreases |changes|
  {
    if changes == [] then col else Commit(Apply(col, changes[0]), changes[1..])
  }

  function References(col: Column, h: ContentHash): (n: nat)
  {
    if h in col then col[h].1 else 0
  }

  // ----- indexing

  /** The last insertion and the last renewal of an extrinsic. */
  function Insertions(ops: seq<IndexOp>): (m: map<nat, (ContentHash, nat)>)
    decreases |ops|
  {
    if ops == [] then map[]
    else
      var op, m := ops[|ops| - 1], Insertions(ops[..|ops| - 1]);
      if op.Insert? then m[op.extrinsic := (op.hash, op.size)] else m
  }

  function Renewals(ops: seq<IndexOp>): (m: map<nat, ContentHash>)
    decreases |ops|
  {
    if ops == [] then map[]
    else
      var op, m := ops[|ops| - 1], Renewals(ops[..|ops| - 1]);
      if op.Renew? then m[op.extrinsic := op.hash] else m
  }

  ghost predicate NoInsert(ops: seq<IndexOp>, i: nat)
  {
    forall op <- ops :: op.Insert? ==> op.extrinsic != i
  }

  ghost predicate NoRenew(ops: seq<IndexOp>, i: nat)
  {
    forall op <- ops :: op.Renew? ==> op.extrinsic != i
  }

  /** The insertion that counts for an extrinsic is the last one that names it. */
  lemma {:induction false} LastInsertCounts(ops: seq<IndexOp>, i: nat, hash: ContentHash, size: nat)
    ensures (i in Insertions(ops) && Insertions(ops)[i] == (hash, size)) <==>
            exists k: nat :: k < |ops| && ops[k] == Insert(i, hash, size) && NoInsert(ops[k + 1..], i)
    decreases |ops|
  {
    if ops != [] {
      var last := |ops| - 1;
      var some := ops[..last];
      LastInsertCounts(some, i, hash, size);
      if ops[last].Insert? && ops[last].extrinsic == i {
        forall k: nat | k < last
          ensures some[k] == ops[k] && !NoInsert(ops[k + 1..], i)
        {
          assert ops[last] in ops[k + 1..];
        }
        assert ops[last + 1..] == [];
      } else {
        forall k: nat | k < last
          ensures some[k] == ops[k] && (NoInsert(some[k + 1..], i) <==> NoInsert(ops[k + 1..], i))
        {
          assert ops[k + 1..] == some[k + 1..] + [ops[last]];
        }
      }
    }
  }

  /** The renewal that counts for an extrinsic is the last one that names it. */
  lemma {:induction false} LastRenewCounts(ops: seq<IndexOp>, i: nat, hash: ContentHash)
    ensures (i in Renewals(ops) && Renewals(ops)[i] == hash) <==>
            exists k: nat :: k < |ops| && ops[k] == Renew(i, hash) && NoRenew(ops[k + 1..], i)
    decreases |ops|
  {
    if ops != [] {
      var last := |ops| - 1;
      var some := ops[..last];
      LastRenewCounts(some, i, hash);
      if ops[last].Renew? && ops[last].extrinsic == i {
        forall k: nat | k < last
          ensures some[k] == ops[k] && !NoRenew(ops[k + 1..], i)
        {
          assert ops[last] in ops[k + 1..];
        }
        assert ops[last + 1..] == [];
      } else {
        forall k: nat | k < last
          ensures some[k] == ops[k] && (NoRenew(some[k + 1..], i) <==> NoRenew(ops[k + 1..], i))
        {
          assert ops[k + 1..] == some[k + 1..] + [ops[last]];
        }
      }
    }
  }

  /** How an extrinsic is stored, and what that does to the column. */
  function StoreOne(c: Codec, ex: Extrinsic, i: nat, inserted: map<nat, (ContentHash, nat)>, renewed: map<nat, ContentHash>)
    : (r: (DbExtrinsic, seq<Change>))
  {
    var encoded := c.encode(ex);
    if i in renewed then (Indexed(renewed[i], encoded), [Reference(renewed[i])])
    else if i in inserted && inserted[i].1 <= |encoded| then
      var offset := |encoded| - inserted[i].1;
      (Indexed(inserted[i].0, encoded[..offset]), [Store(inserted[i].0, encoded[offset..])])
    else (Full(ex), [])
  }

  function StoreFrom(c: Codec, body: seq<Extrinsic>, i: nat, inserted: map<nat, (ContentHash, nat)>, renewed: map<nat, ContentHash>)
    : (r: (seq<DbExtrinsic>, seq<Change>))
    requires i <= |body|
    ensures |r.0| == |body| - i
    decreases |body| - i
  {
    if i == |body| then ([], [])
    else
      var first, rest := StoreOne(c, body[i], i, inserted, renewed), StoreFrom(c, body, i + 1, inserted, renewed);
      ([first.0] + rest.0, first.1 + rest.1)
  }

  /** The index of a body and the changes to the column, for a list of index operations. */
  function ApplyIndexOps(c: Codec, body: seq<Extrinsic>, ops: seq<IndexOp>): (r: (seq<DbExtrinsic>, seq<Change>))
    ensures |r.0| == |body|
  {
    StoreFrom(c, body, 0, Insertions(ops), Renewals(ops))
  }

  method CollectOps(ops: seq<IndexOp>) returns (inserted: map<nat, (ContentHash, nat)>, renewed: map<nat, ContentHash>)
    ensures inserted == Insertions(ops) && renewed == Renewals(ops)
  {
    inserted, renewed := map[], map[];
    for k := 0 to |ops|
      invariant inserted == Insertions(ops[..k]) && renewed == Renewals(ops[..k])
    {
      assert ops[..k + 1][..k] == ops[..k];
      match ops[k]
      case Insert(extrinsic, hash, size) => inserted := inserted[extrinsic := (hash, size)];
      case Renew(extrinsic, hash) => renewed := renewed[extrinsic := hash];
    }
    assert ops[..|ops|] == ops;
  }

  method IndexExtrinsic(c: Codec, ex: Extrinsic, i: nat, inserted: map<nat, (ContentHash, nat)>, renewed: map<nat, ContentHash>)
    returns (entry: DbExtrinsic, change: seq<Change>)
    ensures (entry, change) == StoreOne(c, ex, i, inserted, renewed)
  {
    if i in renewed {
      return Indexed(renewed[i], c.encode(ex)), [Reference(renewed[i])];
    }
    if i in inserted {
      var (hash, size) := inserted[i];
      var encoded := c.encode(ex);
      if size <= |encoded| {
        var offset := |encoded| - size;
        return Indexed(hash, encoded[..offset]), [Store(hash, encoded[offset..])];
      }
    }
    return Full(ex), [];
  }

  method IndexBody(c: Codec, body: seq<Extrinsic>, ops: seq<IndexOp>) returns (index: seq<DbExtrinsic>, changes: seq<Change>)
    ensures index == ApplyIndexOps(c, body, ops).0 && changes == ApplyIndexOps(c, body, ops).1
  {
    hide StoreOne, Insertions, Renewals;
    var inserted, renewed := CollectOps(ops);
    index, changes := [], [];
    for i := 0 to |body|
      invariant index + StoreFrom(c, body, i, inserted, renewed).0 == ApplyIndexOps(c, body, ops).0
      invariant changes + StoreFrom(c, body, i, inserted, renewed).1 == ApplyIndexOps(c, body, ops).1
    {
      ghost var rest := StoreFrom(c, body, i + 1, inserted, renewed);
      var entry, change := IndexExtrinsic(c, body[i], i, inserted, renewed);
      assert index + ([entry] + rest.0) == (index + [entry]) + rest.0;
      assert changes + (change + rest.1) == (changes + change) + rest.1;
      index, changes := index + [entry], changes + change;
    }
  }

  // ----- reading a body back

  datatype BodyError = MissingTransaction(hash: ContentHash) | UndecodableExtrinsic | UndecodableBody | UndecodableBodyList

  datatype Decoded<+T> = Ok(value: T) | Err(error: BodyError)

  function DecodeOne(c: Codec, entry: DbExtrinsic, col: Column): (r: Decoded<Extrinsic>)
  {
    match entry
    case Full(ex) => Ok(ex)
    case Indexed(hash, header) =>
      if hash !in col then Err(MissingTransaction(hash))
      else
        var ex := c.parse(header + col[hash].0);
        if ex.None? then Err(UndecodableExtrinsic) else Ok(ex.value)
  }

  function DecodeBody(c: Codec, index: seq<DbExtrinsic>, col: Column): (r: Decoded<seq<Extrinsic>>)
  {
    if index == [] then Ok([])
    else
      var first := DecodeOne(c, index[0], col);
      if first.Err? then Err(first.error)
      else
        var rest := DecodeBody(c, index[1..], col);
        if rest.Err? then rest else Ok([first.value] + rest.value)
  }

  /** The body columns of a block: a plain body, or an index. */
  datatype StoredBody = StoredBody(plain: Option<Bytes>, index: Option<Bytes>)

  /** A body is stored plain unless there are index operations. */
  function StoreBody(c: Codec, body: seq<Extrinsic>, ops: seq<IndexOp>): (r: (StoredBody, seq<Change>))
  {
    if ops == [] then (StoredBody(Some(c.encodeBody(body)), None), [])
    else
      var (index, changes) := ApplyIndexOps(c, body, ops);
      (StoredBody(None, Some(c.encodeIndex(index))), changes)
  }

  function LoadBody(c: Codec, stored: StoredBody, col: Column): (r: Decoded<Option<seq<Extrinsic>>>)
  {
    match stored
    case StoredBody(Some(bytes), _) =>
      var body := c.parseBody(bytes);
      if body.Some? then Ok(body) else Err(UndecodableBody)
    case StoredBody(None, Some(bytes)) =>
      var index := c.parseIndex(bytes);
      if index.None? then Err(UndecodableBodyList)
      else
        var body := DecodeBody(c, index.value, col);
        if body.Ok? then Ok(Some(body.value)) else Err(body.error)
    case StoredBody(None, None) => Ok(None)
  }

  method WriteBody(c: Codec, body: seq<Extrinsic>, ops: seq<IndexOp>) returns (stored: StoredBody, changes: seq<Change>)
    ensures stored == StoreBody(c, body, ops).0 && changes == StoreBody(c, body, ops).1
  {
    hide ApplyIndexOps;
    if ops == [] {
      return StoredBody(Some(c.encodeBody(body)), None), [];
    }
    var index;
    index, changes := IndexBody(c, body, ops);
    stored := StoredBody(None, Some(c.encodeIndex(index)));
  }

  method ReadBody(c: Codec, stored: StoredBody, col: Column) returns (r: Decoded<Option<seq<Extrinsic>>>)
    ensures r == LoadBody(c, stored, col)
  {
    if stored.plain.Some? {
      var body := c.parseBody(stored.plain.value);
      return if body.Some? then Ok(body) else Err(UndecodableBody);
    }
    if stored.index.None? {
      return Ok(None);
    }
    var parsed := c.parseIndex(stored.index.value);
    if parsed.None? {
      return Err(UndecodableBodyList);
    }
    var index, body: seq<Extrinsic> := parsed.value, [];
    assert index[0..] == index;
    for i := 0 to |index|
      invariant var all, rest := DecodeBody(c, index, col), DecodeBody(c, index[i..], col);
                if rest.Err? then all == rest else all.Ok? && all.value == body + rest.value
    {
      assert index[i..][1..] == index[i + 1..];
      assert forall ex: Extrinsic, rest: seq<Extrinsic> :: (body + [ex]) + rest == body + ([ex] + rest);
      match index[i]
      case Indexed(hash, header) =>
        if hash !in col {
          return Err(MissingTransaction(hash));
        }
        var ex := c.parse(header + col[hash].0);
        if ex.None? {
          return Err(UndecodableExtrinsic);
        }
        body := body + [ex.value];
      case Full(ex) =>
        body := body + [ex];
    }
    assert body + [] == body;
    return Ok(Some(body));
  }

  // ----- the round trip

  /** An extrinsic whose data a body puts into the column. */
  ghost predicate Inserts(c: Codec, body: seq<Extrinsic>, inserted: map<nat, (ContentHash, nat)>, renewed: map<nat, ContentHash>, j: nat, h: ContentHash)
  {
    j < |body| && j !in renewed && j in inserted && inserted[j].0 == h && inserted[j].1 <= |c.encode(body[j])|
  }

  /** The last bytes of some. */
  function Tail(bytes: Bytes, size: nat): (r: Bytes)
    requires size <= |bytes|
  {
    bytes[|bytes| - size..]
  }

  /** Equal hashes mean equal contents, in the column and in the indexed data of a body, which is at the end of
      its extrinsics. */
  ghost predicate HashesDetermine(c: Codec, body: seq<Extrinsic>, ops: seq<IndexOp>, contentOf: ContentHash -> Bytes, col: Column)
  {
    && (forall h <- col :: col[h].0 == contentOf(h))
    && (forall j: nat, h :: Inserts(c, body, Insertions(ops), Renewals(ops), j, h) ==>
          contentOf(h) == Tail(c.encode(body[j]), Insertions(ops)[j].1))
  }

  /** Each extrinsic is stored in its place: a renewed one in full beside a reference, one with indexed data of
      a fitting size as what precedes that data, the data itself going into the column, any other as it is. */
  lemma {:induction false} StoredExactly(
    c: Codec, body: seq<Extrinsic>, i: nat, k: nat, inserted: map<nat, (ContentHash, nat)>, renewed: map<nat, ContentHash>)
    requires i <= k < |body|
    ensures var encoded, (index, changes) := c.encode(body[k]), StoreFrom(c, body, i, inserted, renewed);
            if k in renewed then
              index[k - i] == Indexed(renewed[k], encoded) && Reference(renewed[k]) in changes
            else if k in inserted && inserted[k].1 <= |encoded| then
              && index[k - i].Indexed? && index[k - i].hash == inserted[k].0
              && exists value :: Store(inserted[k].0, value) in changes && |value| == inserted[k].1 && index[k - i].header + value == encoded
            else
              index[k - i] == Full(body[k])
    decreases k - i
  {
    if i < k {
      StoredExactly(c, body, i + 1, k, inserted, renewed);
    } else if k !in renewed && k in inserted && inserted[k].1 <= |c.encode(body[k])| {
      var encoded := c.encode(body[k]);
      var value := Tail(encoded, inserted[k].1);
      assert Store(inserted[k].0, value) in StoreFrom(c, body, i, inserted, renewed).1;
      assert encoded[..|encoded| - inserted[k].1] + value == encoded;
    }
  }

  /** Nothing else goes into the column. */
  lemma {:induction false} StoredFrom(
    c: Codec, body: seq<Extrinsic>, i: nat, inserted: map<nat, (ContentHash, nat)>, renewed: map<nat, ContentHash>, ch: Change)
    requires i <= |body| && ch in StoreFrom(c, body, i, inserted, renewed).1 && ch.Store?
    ensures exists j :: i <= j && Inserts(c, body, inserted, renewed, j, ch.hash) && ch.value == Tail(c.encode(body[j]), inserted[j].1)
    decreases |body| - i
  {
    var first, rest := StoreOne(c, body[i], i, inserted, renewed), StoreFrom(c, body, i + 1, inserted, renewed);
    if ch in first.1 {
      assert Inserts(c, body, inserted, renewed, i, ch.hash);
    } else {
      StoredFrom(c, body, i + 1, inserted, renewed, ch);
    }
  }

  lemma StoredIsDetermined(c: Codec, body: seq<Extrinsic>, ops: seq<IndexOp>, contentOf: ContentHash -> Bytes, col: Column)
    requires HashesDetermine(c, body, ops, contentOf, col)
    ensures forall ch <- ApplyIndexOps(c, body, ops).1 :: ch.Store? ==> ch.value == contentOf(ch.hash)
  {
    hide StoreFrom, Inserts;
    forall ch <- ApplyIndexOps(c, body, ops).1 | ch.Store?
      ensures ch.value == contentOf(ch.hash)
    {
      StoredFrom(c, body, 0, Insertions(ops), Renewals(ops), ch);
    }
  }

  lemma {:induction false} CommitKeepsContents(contentOf: ContentHash -> Bytes, col: Column, changes: seq<Change>)
    requires forall h <- col :: col[h].0 == contentOf(h)
    requires forall ch <- changes :: ch.Store? ==> ch.value == contentOf(ch.hash)
    ensures forall h <- Commit(col, changes) :: Commit(col, changes)[h].0 == contentOf(h)
    decreases |changes|
  {
    if changes != [] {
      CommitKeepsContents(contentOf, Apply(col, changes[0]), changes[1..]);
    }
  }

  ghost predicate AllPresent(index: seq<DbExtrinsic>, col: Column)
  {
    forall entry <- index :: entry.Indexed? ==> entry.hash in col
  }

  lemma EntryDecodes(c: Codec, ex: Extrinsic, i: nat, inserted: map<nat, (ContentHash, nat)>, renewed: map<nat, ContentHash>, col: Column)
    requires PrefixDecodable(c)
    requires var change := StoreOne(c, ex, i, inserted, renewed).1;
             forall ch <- change :: ch.Store? && ch.hash in col ==> col[ch.hash].0 == ch.value
    ensures var entry := StoreOne(c, ex, i, inserted, renewed).0;
            DecodeOne(c, entry, col) == if entry.Indexed? && entry.hash !in col then Err(MissingTransaction(entry.hash)) else Ok(ex)
  {
    var (entry, change) := StoreOne(c, ex, i, inserted, renewed);
    if entry.Indexed? && entry.hash in col {
      if i in renewed {
        assert c.parse(c.encode(ex) + col[entry.hash].0) == Some(ex);
      } else {
        assert change[0] in change;
        assert entry.header + col[entry.hash].0 == c.encode(ex) + [];
      }
    }
  }

  lemma {:induction false} EntriesDecode(
    c: Codec, body: seq<Extrinsic>, i: nat, inserted: map<nat, (ContentHash, nat)>, renewed: map<nat, ContentHash>, col: Column)
    requires PrefixDecodable(c) && i <= |body|
    requires forall ch <- StoreFrom(c, body, i, inserted, renewed).1 :: ch.Store? && ch.hash in col ==> col[ch.hash].0 == ch.value
    ensures DecodeBody(c, StoreFrom(c, body, i, inserted, renewed).0, col) == Ok(body[i..]) <==>
            AllPresent(StoreFrom(c, body, i, inserted, renewed).0, col)
    decreases |body| - i
  {
    hide StoreOne, DecodeOne, PrefixDecodable;
    if i < |body| {
      var first, rest := StoreOne(c, body[i], i, inserted, renewed), StoreFrom(c, body, i + 1, inserted, renewed);
      var all := [first.0] + rest.0;
      EntryDecodes(c, body[i], i, inserted, renewed, col);
      EntriesDecode(c, body, i + 1, inserted, renewed, col);
      assert all == StoreFrom(c, body, i, inserted, renewed).0 && all[1..] == rest.0;
      assert body[i..] == [body[i]] + body[i + 1..] && body[i..][1..] == body[i + 1..];
      assert AllPresent(all, col) <==> (first.0.Indexed? ==> first.0.hash in col) && AllPresent(rest.0, col) by {
        assert forall entry :: entry in all <==> entry == first.0 || entry in rest.0;
      }
    }
  }

  ghost predicate Stores(changes: seq<Change>, h: ContentHash)
  {
    exists ch <- changes :: ch.Store? && ch.hash == h
  }

  lemma {:induction false} PresentAfterCommit(col: Column, changes: seq<Change>, h: ContentHash)
    requires forall ch <- changes :: !ch.Release?
    ensures h in Commit(col, changes) <==> h in col || Stores(changes, h)
    decreases |changes|
  {
    if changes != [] {
      PresentAfterCommit(Apply(col, changes[0]), changes[1..], h);
      assert forall ch :: ch in changes <==> ch == changes[0] || ch in changes[1..];
    }
  }

  lemma {:induction false} EntryAt(
    c: Codec, body: seq<Extrinsic>, i: nat, k: nat, inserted: map<nat, (ContentHash, nat)>, renewed: map<nat, ContentHash>)
    requires i <= k < |body|
    ensures var r, one := StoreFrom(c, body, i, inserted, renewed), StoreOne(c, body[k], k, inserted, renewed);
            && r.0[k - i] == one.0
            && (one.0.Indexed? <==> one.1 != [])
            && (one.1 != [] ==> one.1[0] in r.1 && one.1[0].hash == one.0.hash && (one.1[0].Reference? <==> k in renewed))
            && (k in renewed ==> one.0.Indexed? && one.0.hash == renewed[k])
    decreases k - i
  {
    if i < k {
      EntryAt(c, body, i + 1, k, inserted, renewed);
    }
  }

  lemma {:induction false} NothingReleased(
    c: Codec, body: seq<Extrinsic>, i: nat, inserted: map<nat, (ContentHash, nat)>, renewed: map<nat, ContentHash>)
    requires i <= |body|
    ensures forall ch <- StoreFrom(c, body, i, inserted, renewed).1 :: !ch.Release?
    decreases |body| - i
  {
    if i < |body| {
      NothingReleased(c, body, i + 1, inserted, renewed);
    }
  }

  lemma {:induction false} StoresExactly(
    c: Codec, body: seq<Extrinsic>, i: nat, inserted: map<nat, (ContentHash, nat)>, renewed: map<nat, ContentHash>, h: ContentHash)
    requires i <= |body|
    ensures Stores(StoreFrom(c, body, i, inserted, renewed).1, h) <==> exists j :: i <= j && Inserts(c, body, inserted, renewed, j, h)
    decreases |body| - i
  {
    if i < |body| {
      var first, rest := StoreOne(c, body[i], i, inserted, renewed), StoreFrom(c, body, i + 1, inserted, renewed);
      StoresExactly(c, body, i + 1, inserted, renewed, h);
      assert forall ch :: ch in first.1 + rest.1 <==> ch in first.1 || ch in rest.1;
      assert Stores(first.1, h) <==> Inserts(c, body, inserted, renewed, i, h) by {
        assert first.1 != [] ==> first.1[0] in first.1;
      }
    }
  }

  /** Every renewed transaction was in the column before, or the same body puts it there. */
  ghost predicate RenewalsBacked(c: Codec, body: seq<Extrinsic>, ops: seq<IndexOp>, col: Column)
  {
    forall k <- Renewals(ops) :: k < |body| ==>
      Renewals(ops)[k] in col || exists j :: 0 <= j && Inserts(c, body, Insertions(ops), Renewals(ops), j, Renewals(ops)[k])
  }

  lemma PresentExactly(c: Codec, body: seq<Extrinsic>, ops: seq<IndexOp>, col: Column)
    ensures var (index, changes) := ApplyIndexOps(c, body, ops);
            AllPresent(index, Commit(col, changes)) <==> RenewalsBacked(c, body, ops, col)
  {
    hide StoreOne, StoreFrom, Commit, Stores, Inserts;
    var inserted, renewed := Insertions(ops), Renewals(ops);
    var (index, changes) := ApplyIndexOps(c, body, ops);
    var col' := Commit(col, changes);
    NothingReleased(c, body, 0, inserted, renewed);
    forall h
      ensures h in col' <==> h in col || exists j :: 0 <= j && Inserts(c, body, inserted, renewed, j, h)
    {
      PresentAfterCommit(col, changes, h);
      StoresExactly(c, body, 0, inserted, renewed, h);
    }
    forall k | 0 <= k < |body|
      ensures k in renewed ==> index[k] in index && index[k].Indexed? && index[k].hash == renewed[k]
      ensures index[k].Indexed? && k !in renewed ==> index[k].hash in col'
    {
      EntryAt(c, body, 0, k, inserted, renewed);
      if index[k].Indexed? && k !in renewed {
        StoredByEntry(c, body, k, inserted, renewed);
        PresentAfterCommit(col, changes, index[k].hash);
      }
    }
  }

  lemma StoredByEntry(c: Codec, body: seq<Extrinsic>, k: nat, inserted: map<nat, (ContentHash, nat)>, renewed: map<nat, ContentHash>)
    requires k < |body| && k !in renewed && StoreFrom(c, body, 0, inserted, renewed).0[k].Indexed?
    ensures Stores(StoreFrom(c, body, 0, inserted, renewed).1, StoreFrom(c, body, 0, inserted, renewed).0[k].hash)
  {
    EntryAt(c, body, 0, k, inserted, renewed);
  }

  /** A committed body reads back as it was exactly if every renewed transaction is backed. */
  lemma BodyRoundTrips(c: Codec, body: seq<Extrinsic>, ops: seq<IndexOp>, col: Column, contentOf: ContentHash -> Bytes)
    requires PrefixDecodable(c) && BodyDecodable(c) && HashesDetermine(c, body, ops, contentOf, col)
    ensures var (stored, changes) := StoreBody(c, body, ops);
            LoadBody(c, stored, Commit(col, changes)) == Ok(Some(body)) <==> RenewalsBacked(c, body, ops, col)
  {
    hide StoreFrom, Commit, DecodeBody, AllPresent, PrefixDecodable, Inserts;
    if ops != [] {
      hide RenewalsBacked;
      var (index, changes) := ApplyIndexOps(c, body, ops);
      StoredIsDetermined(c, body, ops, contentOf, col);
      CommitKeepsContents(contentOf, col, changes);
      EntriesDecode(c, body, 0, Insertions(ops), Renewals(ops), Commit(col, changes));
      PresentExactly(c, body, ops, col);
      assert body[0..] == body;
    }
  }

  /** An entry that does not decode, while all before it do. */
  ghost predicate FailsFirst(c: Codec, index: seq<DbExtrinsic>, col: Column, i: nat, e: BodyError)
  {
    i < |index| && DecodeOne(c, index[i], col) == Err(e) && forall j :: 0 <= j < i ==> DecodeOne(c, index[j], col).Ok?
  }

  lemma FailsLater(c: Codec, index: seq<DbExtrinsic>, col: Column, i: nat, e: BodyError)
    requires index != [] && DecodeOne(c, index[0], col).Ok?
    ensures FailsFirst(c, index, col, i, e) <==> i > 0 && FailsFirst(c, index[1..], col, i - 1, e)
  {
    hide DecodeOne;
    var rest := index[1..];
    if i > 0 && FailsFirst(c, rest, col, i - 1, e) {
      forall j | 0 <= j < i
        ensures DecodeOne(c, index[j], col).Ok?
      {
        assert j > 0 ==> index[j] == rest[j - 1];
      }
    }
  }

  /** Decoding fails exactly if an entry does not decode, with the error of the first such entry. */
  lemma {:induction false} DecodeFailsExactly(c: Codec, index: seq<DbExtrinsic>, col: Column, e: BodyError)
    ensures DecodeBody(c, index, col) == Err(e) <==> exists i: nat :: FailsFirst(c, index, col, i, e)
    decreases |index|
  {
    hide DecodeOne, FailsFirst;
    if index != [] {
      DecodeFailsExactly(c, index[1..], col, e);
      if DecodeOne(c, index[0], col).Ok? {
        forall i: nat
          ensures FailsFirst(c, index, col, i, e) <==> i > 0 && FailsFirst(c, index[1..], col, i - 1, e)
        {
          FailsLater(c, index, col, i, e);
        }
        forall i: nat | FailsFirst(c, index[1..], col, i, e)
          ensures FailsFirst(c, index, col, i + 1, e)
        {
        }
      } else {
        FailsAtOnce(c, index, col, e);
      }
    } else {
      NothingFails(c, col, e);
    }
  }

  lemma FailsAtOnce(c: Codec, index: seq<DbExtrinsic>, col: Column, e: BodyError)
    requires index != [] && DecodeOne(c, index[0], col).Err?
    ensures (exists i: nat :: FailsFirst(c, index, col, i, e)) <==> DecodeOne(c, index[0], col) == Err(e)
  {
    hide DecodeOne;
    if DecodeOne(c, index[0], col) == Err(e) {
      assert FailsFirst(c, index, col, 0, e);
    }
  }

  lemma NothingFails(c: Codec, col: Column, e: BodyError)
    ensures forall i: nat :: !FailsFirst(c, [], col, i, e)
  {
  }

  /** Damaged bytes are reported, never passed over: reading fails exactly if the plain body does not parse, or
      the index does not, or one of its entries does not decode, and finds no body exactly if neither is there;
      pruning fails exactly if the index does not parse. */
  lemma DamageIsReported(c: Codec, stored: StoredBody, col: Column)
    ensures LoadBody(c, stored, col).Err? <==>
            if stored.plain.Some? then c.parseBody(stored.plain.value).None?
            else
              && stored.index.Some?
              && (c.parseIndex(stored.index.value).Some? ==>
                  exists entry <- c.parseIndex(stored.index.value).value :: DecodeOne(c, entry, col).Err?)
    ensures LoadBody(c, stored, col) == Ok(None) <==> stored == StoredBody(None, None)
    ensures PruneStored(c, stored).Err? <==> stored.index.Some? && c.parseIndex(stored.index.value).None?
  {
    hide DecodeOne, DecodeBody;
    if stored.plain.None? && stored.index.Some? && c.parseIndex(stored.index.value).Some? {
      DecodeFailsSomewhere(c, c.parseIndex(stored.index.value).value, col);
    }
  }

  lemma {:induction false} DecodeFailsSomewhere(c: Codec, index: seq<DbExtrinsic>, col: Column)
    ensures DecodeBody(c, index, col).Err? <==> exists entry <- index :: DecodeOne(c, entry, col).Err?
    decreases |index|
  {
    hide DecodeOne;
    if index != [] {
      DecodeFailsSomewhere(c, index[1..], col);
      assert forall entry :: entry in index <==> entry == index[0] || entry in index[1..];
    }
  }

  // ----- reference counts

  /** How many changes concern a hash. */
  function Mentions(changes: seq<Change>, h: ContentHash): (n: nat)
  {
    if changes == [] then 0 else (if changes[0].hash == h then 1 else 0) + Mentions(changes[1..], h)
  }

  /** How many entries of an index hold a reference to a hash. */
  function Occurrences(index: seq<DbExtrinsic>, h: ContentHash): (n: nat)
  {
    if index == [] then 0
    else (if index[0].Indexed? && index[0].hash == h then 1 else 0) + Occurrences(index[1..], h)
  }

  lemma {:induction false} MentionsAppend(a: seq<Change>, b: seq<Change>, h: ContentHash)
    ensures Mentions(a + b, h) == Mentions(a, h) + Mentions(b, h)
  {
    if a == [] {
      assert a + b == b;
    } else {
      MentionsAppend(a[1..], b, h);
      assert (a + b)[1..] == a[1..] + b;
    }
  }

  /** Indexing takes one reference per indexed entry. */
  lemma {:induction false} OneChangePerEntry(
    c: Codec, body: seq<Extrinsic>, i: nat, inserted: map<nat, (ContentHash, nat)>, renewed: map<nat, ContentHash>, h: ContentHash)
    requires i <= |body|
    ensures var r := StoreFrom(c, body, i, inserted, renewed);
            Mentions(r.1, h) == Occurrences(r.0, h)
    decreases |body| - i
  {
    if i < |body| {
      var first, rest := StoreOne(c, body[i], i, inserted, renewed), StoreFrom(c, body, i + 1, inserted, renewed);
      OneChangePerEntry(c, body, i + 1, inserted, renewed, h);
      MentionsAppend(first.1, rest.1, h);
      assert ([first.0] + rest.0)[1..] == rest.0;
      assert Mentions(first.1, h) == if first.0.Indexed? && first.0.hash == h then 1 else 0;
    }
  }

  /** A hash is in the column before it is first referenced. */
  predicate Grounded(col: Column, changes: seq<Change>, h: ContentHash)
  {
    h in col || changes == [] || (if changes[0].hash == h then changes[0].Store? else Grounded(col, changes[1..], h))
  }

  /** Stores and references are counted in full exactly if no reference came too early. */
  lemma {:induction false} CountedExactly(col: Column, changes: seq<Change>, h: ContentHash)
    requires forall ch <- changes :: !ch.Release?
    ensures References(Commit(col, changes), h) <= References(col, h) + Mentions(changes, h)
    ensures References(Commit(col, changes), h) == References(col, h) + Mentions(changes, h) <==> Grounded(col, changes, h)
    decreases |changes|
  {
    if changes != [] {
      var col1 := Apply(col, changes[0]);
      CountedExactly(col1, changes[1..], h);
      if changes[0].hash != h {
        assert References(col1, h) == References(col, h) && (h in col1 <==> h in col);
        GroundedElsewhere(col, col1, changes[1..], h);
      }
    }
  }

  lemma {:induction false} GroundedElsewhere(a: Column, b: Column, changes: seq<Change>, h: ContentHash)
    requires h in a <==> h in b
    ensures Grounded(a, changes, h) <==> Grounded(b, changes, h)
    decreases |changes|
  {
    if changes != [] {
      GroundedElsewhere(a, b, changes[1..], h);
    }
  }

  /** Committing a body takes one reference per indexed entry, exactly if no renewal came too early. */
  lemma ReferencesTakenExactly(c: Codec, body: seq<Extrinsic>, ops: seq<IndexOp>, col: Column, h: ContentHash)
    ensures var (index, changes) := ApplyIndexOps(c, body, ops);
            References(Commit(col, changes), h) == References(col, h) + Occurrences(index, h) <==> Grounded(col, changes, h)
  {
    NothingReleased(c, body, 0, Insertions(ops), Renewals(ops));
    OneChangePerEntry(c, body, 0, Insertions(ops), Renewals(ops), h);
    CountedExactly(col, ApplyIndexOps(c, body, ops).1, h);
  }

  // ----- pruning

  /** What pruning a block releases. */
  function Releases(index: seq<DbExtrinsic>): (changes: seq<Change>)
  {
    if index == [] then []
    else (if index[0].Indexed? then [Release(index[0].hash)] else []) + Releases(index[1..])
  }

  /** What pruning a stored body does to the column. */
  function PruneStored(c: Codec, stored: StoredBody): (r: Decoded<seq<Change>>)
  {
    if stored.index.None? then Ok([])
    else
      var index := c.parseIndex(stored.index.value);
      if index.None? then Err(UndecodableBodyList) else Ok(Releases(index.value))
  }

  method PruneBody(c: Codec, stored: StoredBody) returns (r: Decoded<seq<Change>>)
    ensures r == PruneStored(c, stored)
  {
    if stored.index.None? {
      return Ok([]);
    }
    var parsed := c.parseIndex(stored.index.value);
    if parsed.None? {
      return Err(UndecodableBodyList);
    }
    var index, changes: seq<Change> := parsed.value, [];
    assert index[0..] == index;
    for i := 0 to |index|
      invariant changes + Releases(index[i..]) == Releases(index)
    {
      assert index[i..][1..] == index[i + 1..];
      if index[i].Indexed? {
        assert changes + ([Release(index[i].hash)] + Releases(index[i + 1..])) == (changes + [Release(index[i].hash)]) + Releases(index[i + 1..]);
        changes := changes + [Release(index[i].hash)];
      }
    }
    assert changes + [] == changes;
    return Ok(changes);
  }

  ghost predicate WellCounted(col: Column)
  {
    forall h <- col :: col[h].1 > 0
  }

  function Minus(a: nat, b: nat): (r: nat)
  {
    if a >= b then a - b else 0
  }

  /** Pruning gives back one reference per indexed entry and keeps what others still refer to. */
  lemma {:induction false} PruneReleasesExactly(col: Column, index: seq<DbExtrinsic>, h: ContentHash)
    requires WellCounted(col)
    ensures var col' := Commit(col, Releases(index));
            && WellCounted(col')
            && References(col', h) == Minus(References(col, h), Occurrences(index, h))
            && (h in col' ==> h in col && col'[h].0 == col[h].0)
    decreases |index|
  {
    if index != [] {
      if index[0].Indexed? {
        var release := Release(index[0].hash);
        assert Releases(index)[1..] == Releases(index[1..]);
        PruneReleasesExactly(Apply(col, release), index[1..], h);
      } else {
        assert Releases(index) == Releases(index[1..]);
        PruneReleasesExactly(col, index[1..], h);
      }
    }
  }

  lemma {:induction false} CommitKeepsCounts(col: Column, changes: seq<Change>, h: ContentHash)
    requires WellCounted(col) && forall ch <- changes :: !ch.Release?
    ensures WellCounted(Commit(col, changes))
    ensures h in col ==> h in Commit(col, changes) && Commit(col, changes)[h].0 == col[h].0
    decreases |changes|
  {
    if changes != [] {
      CommitKeepsCounts(Apply(col, changes[0]), changes[1..], h);
    }
  }

  lemma ReleasesUndoCommit(c: Codec, body: seq<Extrinsic>, ops: seq<IndexOp>, col: Column)
    requires WellCounted(col)
    ensures var (index, changes) := ApplyIndexOps(c, body, ops);
            Commit(Commit(col, changes), Releases(index)) == col
  {
    hide StoreFrom, Commit, Occurrences, Releases;
    var (index, changes) := ApplyIndexOps(c, body, ops);
    var col1 := Commit(col, changes);
    var col2 := Commit(col1, Releases(index));
    NothingReleased(c, body, 0, Insertions(ops), Renewals(ops));
    forall h
      ensures h in col2 <==> h in col
      ensures h in col ==> h in col2 && col2[h] == col[h]
    {
      CommitKeepsCounts(col, changes, h);
      OneChangePerEntry(c, body, 0, Insertions(ops), Renewals(ops), h);
      CountedExactly(col, changes, h);
      PruneReleasesExactly(col1, index, h);
    }
  }

  /** Committing a body and pruning it again leaves the column as it was. */
  lemma PruneUndoesCommit(c: Codec, body: seq<Extrinsic>, ops: seq<IndexOp>, col: Column)
    requires BodyDecodable(c) && WellCounted(col)
    ensures var (stored, changes) := StoreBody(c, body, ops);
            && PruneStored(c, stored).Ok?
            && Commit(Commit(col, changes), PruneStored(c, stored).value) == col
  {
    hide ApplyIndexOps, Releases;
    ReleasesUndoCommit(c, body, ops, col);
  }

  // ----- reading from two slices

  /** An input made of two slices, read as if they were one. */
  class JoinInput {
    var first: Bytes
    var second: Bytes

    constructor (first: Bytes, second: Bytes)
      ensures this.first == first && this.second == second
    {
      this.first, this.second := first, second;
    }

    function Remaining(): (bytes: Bytes)
      reads this
    {
      first + second
    }

    /** Reads the next bytes; a read past the end fails and uses up the first slice only. */
    method Read(n: nat) returns (r: Option<Bytes>)
      modifies this
      ensures n <= |old(Remaining())| ==> r == Some(old(Remaining())[..n]) && Remaining() == old(Remaining())[n..]
      ensures n > |old(Remaining())| ==> r == None && Remaining() == old(second)
    {
      var into: Bytes := [];
      if |first| > 0 {
        var read := if |first| < n then |first| else n;
        into := first[..read];
        first := first[read..];
      }
      if |into| < n {
        var rest := n - |into|;
        if |second| < rest {
          return None;
        }
        into := into + second[..rest];
        second := second[rest..];
      }
      assert into == old(Remaining())[..n];
      return Some(into);
    }

    /** Any series of reads that fits yields the pieces of the joined bytes, in order. */
    method ReadAll(sizes: seq<nat>) returns (pieces: seq<Bytes>)
      requires Total(sizes) <= |Remaining()|
      modifies this
      ensures |pieces| == |sizes| && forall i :: 0 <= i < |sizes| ==> |pieces[i]| == sizes[i]
      ensures Joined(pieces) + Remaining() == old(Remaining())
    {
      pieces := [];
      for i := 0 to |sizes|
        invariant |pieces| == i && forall k :: 0 <= k < i ==> |pieces[k]| == sizes[k]
        invariant Joined(pieces) + Remaining() == old(Remaining())
        invariant Total(sizes[i..]) <= |Remaining()|
      {
        hide Joined;
        assert sizes[i..][1..] == sizes[i + 1..];
        ghost var before := Remaining();
        var piece := Read(sizes[i]);
        JoinedAppend(pieces, piece.value);
        SplitAgain(Joined(pieces), before, sizes[i]);
        pieces := pieces + [piece.value];
      }
    }
  }

  function Total(sizes: seq<nat>): (n: nat)
  {
    if sizes == [] then 0 else sizes[0] + Total(sizes[1..])
  }

  function Joined(pieces: seq<Bytes>): (bytes: Bytes)
  {
    if pieces == [] then [] else pieces[0] + Joined(pieces[1..])
  }

  lemma SplitAgain(done: Bytes, rest: Bytes, n: nat)
    requires n <= |rest|
    ensures (done + rest[..n]) + rest[n..] == done + rest
  {
  }

  lemma {:induction false} JoinedAppend(pieces: seq<Bytes>, piece: Bytes)
    ensures Joined(pieces + [piece]) == Joined(pieces) + piece
  {
    if pieces == [] {
      assert pieces + [piece] == [piece];
      assert Joined([piece]) == piece + Joined([]);
    } else {
      JoinedAppend(pieces[1..], piece);
      assert (pieces + [piece])[1..] == pieces[1..] + [piece];
    }
  }
}
