/** The size-bounded map behind the shared cache: entries in insertion order, evicted from the front. */
module LruMap {
  import opened Basics

  /** Estimated sizes of keys and values; the estimate is a function of the value. */
  datatype Sizes<!K, !V> = Sizes(key: K -> nat, value: V -> nat)

  // ----- entries as a value

  ghost predicate DistinctKeys<K, V>(entries: seq<(K, V)>)
  {
    forall i, j :: 0 <= i < j < |entries| ==> entries[i].0 != entries[j].0
  }

  function IndexOf<K(==), V>(entries: seq<(K, V)>, k: K): (i: nat)
    ensures i <= |entries|
    ensures i < |entries| ==> entries[i].0 == k
    ensures forall j :: 0 <= j < i ==> entries[j].0 != k
  {
    if entries == [] || entries[0].0 == k then 0 else 1 + IndexOf(entries[1..], k)
  }

  function Lookup<K(==), V>(entries: seq<(K, V)>, k: K): (v: Option<V>)
    ensures v.Some? ==> (k, v.value) in entries
    ensures v.None? <==> forall e <- entries :: e.0 != k
  {
    var i := IndexOf(entries, k);
    if i < |entries| then
      assert entries[i] in entries;
      Some(entries[i].1)
    else None
  }

  function Weight<K, V>(entries: seq<(K, V)>, sizes: Sizes<K, V>): (n: nat)
  {
    if entries == [] then 0
    else sizes.key(entries[0].0) + sizes.value(entries[0].1) + Weight(entries[1..], sizes)
  }

  /** The entries whose key is not among `ks`, in the same order. */
  function Without<K(==), V>(entries: seq<(K, V)>, ks: set<K>): (r: seq<(K, V)>)
    ensures |r| <= |entries|
    ensures forall e <- r :: e in entries && e.0 !in ks
    ensures forall e <- entries :: e.0 !in ks ==> e in r
  {
    if entries == [] then []
    else
      var rest := Without(entries[1..], ks);
      assert entries == [entries[0]] + entries[1..];
      if entries[0].0 in ks then rest else [entries[0]] + rest
  }

  /** Replaces the value in place if the key is present, else appends the entry. */
  function Put<K(==), V>(entries: seq<(K, V)>, k: K, v: V): (r: seq<(K, V)>)
  {
    var i := IndexOf(entries, k);
    if i < |entries| then entries[i := (k, v)] else entries + [(k, v)]
  }

  /** Drops entries from the front until the rest fits the limit. */
  function Evict<K, V>(entries: seq<(K, V)>, sizes: Sizes<K, V>, limit: nat): (r: seq<(K, V)>)
    ensures |r| <= |entries| && r == entries[|entries| - |r|..]
  {
    if Weight(entries, sizes) <= limit || entries == [] then entries else Evict(entries[1..], sizes, limit)
  }

  function Added<K(==), V>(entries: seq<(K, V)>, k: K, v: V, sizes: Sizes<K, V>, limit: nat): (r: seq<(K, V)>)
  {
    Evict(Put(entries, k, v), sizes, limit)
  }

  /** A read moves the entry to the back. */
  function Refresh<K(==), V>(entries: seq<(K, V)>, k: K): (r: seq<(K, V)>)
  {
    var i := IndexOf(entries, k);
    if i < |entries| then entries[..i] + entries[i + 1..] + [entries[i]] else entries
  }

  // ----- what the operations keep

  lemma {:induction false} WithoutKeepsDistinct<K, V>(entries: seq<(K, V)>, ks: set<K>)
    requires DistinctKeys(entries)
    ensures DistinctKeys(Without(entries, ks))
  {
    if entries != [] {
      WithoutKeepsDistinct(entries[1..], ks);
      var rest := Without(entries[1..], ks);
      forall i | 0 <= i < |rest|
        ensures rest[i].0 != entries[0].0
      {
        assert rest[i] in entries[1..];
      }
    }
  }

  lemma {:induction false} WithoutTwice<K, V>(entries: seq<(K, V)>, a: set<K>, b: set<K>)
    ensures Without(Without(entries, a), b) == Without(entries, a + b)
  {
    if entries != [] {
      WithoutTwice(entries[1..], a, b);
      var rest := Without(entries[1..], a);
      assert ([entries[0]] + rest)[1..] == rest;
    }
  }

  lemma PutFacts<K, V>(entries: seq<(K, V)>, k: K, v: V)
    requires DistinctKeys(entries)
    ensures DistinctKeys(Put(entries, k, v))
    ensures forall e <- Put(entries, k, v) :: e == (k, v) || (e in entries && e.0 != k)
    ensures (k, v) in Put(entries, k, v)
    ensures forall e <- entries :: e.0 != k ==> e in Put(entries, k, v)
  {
    var i, r := IndexOf(entries, k), Put(entries, k, v);
    if i < |entries| {
      assert r[i] == (k, v);
      forall e <- entries | e.0 != k
        ensures e in r
      {
        var j :| 0 <= j < |entries| && entries[j] == e;
        assert r[j] == e;
      }
    }
  }

  /** After adding, the entry for the key, if it was not evicted, holds the new value; every other entry is an old one. */
  lemma AddFacts<K, V>(entries: seq<(K, V)>, k: K, v: V, sizes: Sizes<K, V>, limit: nat)
    requires DistinctKeys(entries)
    ensures DistinctKeys(Added(entries, k, v, sizes, limit))
    ensures forall e <- Added(entries, k, v, sizes, limit) :: e == (k, v) || (e in entries && e.0 != k)
  {
    PutFacts(entries, k, v);
    assert forall e <- Added(entries, k, v, sizes, limit) :: e in Put(entries, k, v);
  }

  lemma {:induction false} EvictFits<K, V>(entries: seq<(K, V)>, sizes: Sizes<K, V>, limit: nat)
    ensures Weight(Evict(entries, sizes, limit), sizes) <= limit
    ensures forall n: nat :: n < |entries| - |Evict(entries, sizes, limit)| ==> Weight(entries[n..], sizes) > limit
  {
    if Weight(entries, sizes) > limit && entries != [] {
      EvictFits(entries[1..], sizes, limit);
      forall n: nat | n < |entries| - |Evict(entries, sizes, limit)|
        ensures Weight(entries[n..], sizes) > limit
      {
        assert entries[0..] == entries;
        if n > 0 {
          assert entries[n..] == entries[1..][n - 1..];
        }
      }
    }
  }

  /** The cache never holds more than its limit, and evicts no more, oldest first, than it must. */
  lemma AddEvictsMinimally<K, V>(entries: seq<(K, V)>, k: K, v: V, sizes: Sizes<K, V>, limit: nat)
    ensures Weight(Added(entries, k, v, sizes, limit), sizes) <= limit
    ensures var put, kept := Put(entries, k, v), Added(entries, k, v, sizes, limit);
            && |kept| <= |put| && kept == put[|put| - |kept|..]
            && forall n: nat :: n < |put| - |kept| ==> Weight(put[n..], sizes) > limit
  {
    EvictFits(Put(entries, k, v), sizes, limit);
  }

  /** A new key is in the map after its insertion exactly if its entry fits the limit on its own. */
  lemma NewKeyStaysIfItFits<K, V>(entries: seq<(K, V)>, k: K, v: V, sizes: Sizes<K, V>, limit: nat)
    requires forall e <- entries :: e.0 != k
    ensures (k, v) in Added(entries, k, v, sizes, limit) <==> sizes.key(k) + sizes.value(v) <= limit
  {
    var put, kept := Put(entries, k, v), Added(entries, k, v, sizes, limit);
    assert put == entries + [(k, v)];
    EvictFits(put, sizes, limit);
    if kept == [] {
      assert put[|entries|..] == [(k, v)];
    } else {
      assert kept[|kept| - 1] == (k, v);
      WeightSplit(kept, |kept| - 1, sizes);
      assert kept[|kept| - 1..] == [(k, v)];
    }
  }

  lemma RefreshFacts<K, V>(entries: seq<(K, V)>, k: K)
    requires DistinctKeys(entries)
    ensures DistinctKeys(Refresh(entries, k))
    ensures forall e <- Refresh(entries, k) :: e in entries
  {
    var i, r := IndexOf(entries, k), Refresh(entries, k);
    if i < |entries| {
      forall j | 0 <= j < |r|
        ensures r[j] == entries[if j < i then j else if j < |r| - 1 then j + 1 else i]
      {
      }
    }
  }

  /** A read entry goes to the back and the others keep their order; reading an absent key changes nothing. */
  lemma RefreshMovesToBack<K, V>(before: seq<(K, V)>, e: (K, V), after: seq<(K, V)>, k: K)
    requires DistinctKeys(before + [e] + after)
    ensures Refresh(before + [e] + after, e.0) == before + after + [e]
    ensures Lookup(before, k).None? ==> Refresh(before, k) == before
  {
    var entries := before + [e] + after;
    assert entries[|before|] == e;
    assert IndexOf(entries, e.0) == |before|;
    assert entries[..|before|] == before && entries[|before| + 1..] == after;
  }

  lemma LastAfterRefresh<K, V>(entries: seq<(K, V)>, k: K, k': K, v': V)
    requires DistinctKeys(entries) && Lookup(entries, k).Some? && Lookup(entries, k').None?
    ensures var r := Refresh(entries, k);
            && r != [] && r[|r| - 1] == (k, Lookup(entries, k).value)
            && (forall e <- r :: e.0 != k') && Put(r, k', v') == r + [(k', v')]
  {
    RefreshFacts(entries, k);
    var r := Refresh(entries, k);
    assert forall e <- r :: e.0 != k';
    assert IndexOf(r, k') == |r|;
  }

  lemma SuffixHasLast<T>(s: seq<T>, last: T, kept: seq<T>, other: T)
    requires s != [] && |kept| <= |s| + 1 && kept == (s + [last])[|s| + 1 - |kept|..] && other in kept && other != last
    ensures s[|s| - 1] in kept
  {
    assert kept[|kept| - 1] == last;
    assert kept[|kept| - 2] == s[|s| - 1];
  }

  /** While any other old entry is kept when a new key is added, the entry read last is kept too. */
  lemma ReadIsEvictedLast<K, V>(entries: seq<(K, V)>, k: K, other: (K, V), k': K, v': V, sizes: Sizes<K, V>, limit: nat)
    requires DistinctKeys(entries) && Lookup(entries, k).Some? && Lookup(entries, k').None?
    requires other in entries && other in Added(Refresh(entries, k), k', v', sizes, limit)
    ensures (k, Lookup(entries, k).value) in Added(Refresh(entries, k), k', v', sizes, limit)
  {
    hide Refresh, Put, Evict, Lookup, DistinctKeys;
    LastAfterRefresh(entries, k, k', v');
    SuffixHasLast(Refresh(entries, k), (k', v'), Added(Refresh(entries, k), k', v', sizes, limit), other);
  }

  lemma PutLookup<K, V>(entries: seq<(K, V)>, k: K, v: V, x: K)
    ensures Lookup(Put(entries, k, v), x) == if x == k then Some(v) else Lookup(entries, x)
  {
    var i, at, r := IndexOf(entries, x), IndexOf(entries, k), Put(entries, k, v);
    assert forall p :: 0 <= p < |entries| && p != at ==> r[p] == entries[p];
    assert at < |r| && r[at] == (k, v);
    var j := IndexOf(r, x);
    if x == k {
      assert j == at;
    } else if i < |entries| {
      assert i != at && r[i] == entries[i];
      assert j == i;
    } else {
      assert j == |r|;
    }
  }

  /** Where the limit leaves room nothing is evicted. */
  lemma AddedWithRoom<K, V>(entries: seq<(K, V)>, k: K, v: V, sizes: Sizes<K, V>, limit: nat)
    requires Weight(entries, sizes) + sizes.key(k) + sizes.value(v) <= limit
    ensures Added(entries, k, v, sizes, limit) == Put(entries, k, v)
    ensures Weight(Put(entries, k, v), sizes) <= Weight(entries, sizes) + sizes.key(k) + sizes.value(v)
  {
    WeightPut(entries, k, v, sizes);
  }

  lemma {:induction false} WeightWithout<K, V>(entries: seq<(K, V)>, ks: set<K>, sizes: Sizes<K, V>)
    ensures Weight(Without(entries, ks), sizes) <= Weight(entries, sizes)
  {
    if entries != [] {
      WeightWithout(entries[1..], ks, sizes);
      var rest := Without(entries[1..], ks);
      assert ([entries[0]] + rest)[1..] == rest;
    }
  }

  lemma LookupNext<K, V>(e: (K, V), rest: seq<(K, V)>, k: K)
    ensures Lookup([e] + rest, k) == if e.0 == k then Some(e.1) else Lookup(rest, k)
  {
    assert ([e] + rest)[1..] == rest;
  }

  lemma WithoutNext<K, V>(entries: seq<(K, V)>, ks: set<K>)
    requires entries != []
    ensures Without(entries, ks) == (if entries[0].0 in ks then [] else [entries[0]]) + Without(entries[1..], ks)
  {
  }

  lemma {:induction false} WithoutLookup<K, V>(entries: seq<(K, V)>, ks: set<K>, k: K)
    ensures Lookup(Without(entries, ks), k) == if k in ks then None else Lookup(entries, k)
  {
    if entries != [] {
      hide Lookup, Without;
      var e, rest := entries[0], entries[1..];
      WithoutLookup(rest, ks, k);
      WithoutNext(entries, ks);
      LookupNext(e, rest, k);
      LookupNext(e, Without(rest, ks), k);
      assert entries == [e] + rest && [] + Without(rest, ks) == Without(rest, ks);
    }
  }

  // ----- weights of changed entries

  lemma {:induction false} WeightAppend<K, V>(a: seq<(K, V)>, b: seq<(K, V)>, sizes: Sizes<K, V>)
    ensures Weight(a + b, sizes) == Weight(a, sizes) + Weight(b, sizes)
  {
    if a == [] {
      assert a + b == b;
    } else {
      WeightAppend(a[1..], b, sizes);
      assert (a + b)[1..] == a[1..] + b;
    }
  }

  lemma WeightSplit<K, V>(entries: seq<(K, V)>, i: nat, sizes: Sizes<K, V>)
    requires i < |entries|
    ensures Weight(entries, sizes) ==
            Weight(entries[..i], sizes) + sizes.key(entries[i].0) + sizes.value(entries[i].1) + Weight(entries[i + 1..], sizes)
  {
    assert entries == entries[..i] + entries[i..];
    WeightAppend(entries[..i], entries[i..], sizes);
    assert entries[i..][1..] == entries[i + 1..];
  }

  lemma WeightPut<K, V>(entries: seq<(K, V)>, k: K, v: V, sizes: Sizes<K, V>)
    ensures var i := IndexOf(entries, k);
            Weight(Put(entries, k, v), sizes) + (if i < |entries| then sizes.value(entries[i].1) else 0)
            == Weight(entries, sizes) + sizes.value(v) + (if i < |entries| then 0 else sizes.key(k))
  {
    var i, r := IndexOf(entries, k), Put(entries, k, v);
    if i < |entries| {
      WeightSplit(entries, i, sizes);
      WeightSplit(r, i, sizes);
      assert r[..i] == entries[..i] && r[i + 1..] == entries[i + 1..];
    } else {
      WeightAppend(entries, [(k, v)], sizes);
    }
  }

  lemma {:induction false} WithoutAbsent<K, V>(entries: seq<(K, V)>, k: K)
    requires forall e <- entries :: e.0 != k
    ensures Without(entries, {k}) == entries
  {
    if entries != [] {
      assert forall e <- entries[1..] :: e in entries;
      WithoutAbsent(entries[1..], k);
    }
  }

  function Cut<T>(s: seq<T>, i: nat): (r: seq<T>)
  {
    if i < |s| then s[..i] + s[i + 1..] else s
  }

  lemma CutFirst<T>(s: seq<T>)
    requires s != []
    ensures Cut(s, 0) == s[1..]
  {
  }

  lemma CutBehindFirst<T>(s: seq<T>, i: nat)
    requires 0 < i && s != []
    ensures Cut(s, i) == [s[0]] + Cut(s[1..], i - 1)
  {
  }

  lemma EvictNext<K, V>(entries: seq<(K, V)>, sizes: Sizes<K, V>, limit: nat)
    requires entries != []
    ensures Weight(entries, sizes) == sizes.key(entries[0].0) + sizes.value(entries[0].1) + Weight(entries[1..], sizes)
    ensures Weight(entries, sizes) > limit ==> Evict(entries, sizes, limit) == Evict(entries[1..], sizes, limit)
  {
  }

  lemma EvictEnds<K, V>(entries: seq<(K, V)>, sizes: Sizes<K, V>, limit: nat)
    ensures entries == [] ==> Weight(entries, sizes) == 0
    ensures Weight(entries, sizes) <= limit ==> Evict(entries, sizes, limit) == entries
  {
  }

  lemma RestIsDistinct<K, V>(entries: seq<(K, V)>)
    requires DistinctKeys(entries) && entries != []
    ensures DistinctKeys(entries[1..]) && forall e <- entries[1..] :: e.0 != entries[0].0
  {
  }

  lemma IndexNext<K, V>(entries: seq<(K, V)>, k: K)
    requires entries != []
    ensures IndexOf(entries, k) == if entries[0].0 == k then 0 else 1 + IndexOf(entries[1..], k)
  {
  }

  lemma {:induction false} WithoutOne<K, V>(entries: seq<(K, V)>, k: K)
    requires DistinctKeys(entries)
    ensures Without(entries, {k}) == Cut(entries, IndexOf(entries, k))
  {
    if entries != [] {
      hide *;
      var rest := entries[1..];
      RestIsDistinct(entries);
      WithoutNext(entries, {k});
      IndexNext(entries, k);
      if entries[0].0 == k {
        WithoutAbsent(rest, k);
        CutFirst(entries);
      } else {
        WithoutOne(rest, k);
        CutBehindFirst(entries, IndexOf(rest, k) + 1);
      }
    }
  }

  // ----- the map as an object

  class LRUMap<K(==), V> {
    var entries: seq<(K, V)>
    var used: nat
    const limit: nat
    const sizes: Sizes<K, V>

    ghost predicate Valid()
      reads this
    {
      DistinctKeys(entries) && used == Weight(entries, sizes)
    }

    constructor (limit: nat, sizes: Sizes<K, V>)
      ensures Valid() && entries == [] && this.limit == limit && this.sizes == sizes
    {
      this.limit, this.sizes := limit, sizes;
      entries, used := [], 0;
    }

    method Remove(k: K)
      requires Valid()
      modifies this
      ensures Valid() && entries == Without(old(entries), {k})
    {
      WithoutOne(entries, k);
      WithoutKeepsDistinct(entries, {k});
      var i := IndexOf(entries, k);
      if i < |entries| {
        WeightSplit(entries, i, sizes);
        WeightAppend(entries[..i], entries[i + 1..], sizes);
        var v := entries[i].1;
        entries := entries[..i] + entries[i + 1..];
        used := used - sizes.key(k);
        used := used - sizes.value(v);
      }
    }

    method Add(k: K, v: V)
      requires Valid()
      modifies this
      ensures Valid() && used <= limit
      ensures entries == Added(old(entries), k, v, sizes, limit)
    {
      WeightPut(entries, k, v, sizes);
      PutFacts(entries, k, v);
      ghost var put := Put(entries, k, v);
      EvictFits(put, sizes, limit);
      var klen := sizes.key(k);
      used := used + sizes.value(v);
      var i := IndexOf(entries, k);
      if i < |entries| {
        used := used - sizes.value(entries[i].1);
        entries := entries[i := (k, v)];
      } else {
        used := used + klen;
        entries := entries + [(k, v)];
      }
      assert entries == put;
      hide Put, IndexOf, DistinctKeys, Evict, Weight;
      while used > limit && entries != []
        invariant Valid()
        invariant Evict(entries, sizes, limit) == Evict(put, sizes, limit)
        decreases |entries|
      {
        RestIsDistinct(entries);
        EvictNext(entries, sizes, limit);
        var (k0, v0) := entries[0];
        entries := entries[1..];
        used := used - sizes.key(k0);
        used := used - sizes.value(v0);
      }
      EvictEnds(entries, sizes, limit);
    }

    method Get(k: K) returns (v: Option<V>)
      requires Valid()
      modifies this`entries, this`used
      ensures Valid()
      ensures v == Lookup(old(entries), k)
      ensures entries == Refresh(old(entries), k)
    {
      RefreshFacts(entries, k);
      var i := IndexOf(entries, k);
      if i < |entries| {
        WeightSplit(entries, i, sizes);
        WeightAppend(entries[..i], entries[i + 1..], sizes);
        WeightAppend(entries[..i] + entries[i + 1..], [entries[i]], sizes);
        v := Some(entries[i].1);
        entries := entries[..i] + entries[i + 1..] + [entries[i]];
      } else {
        v := None;
      }
    }

    method Clear()
      modifies this
      ensures Valid() && entries == []
    {
      entries := [];
      used := 0;
    }
  }
}
