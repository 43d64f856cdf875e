/** The tree of known blocks: ancestor chains and the routes between blocks. */
module BlockTree {
  import opened Basics
  import opened Leaves

  datatype Header = Header(number: nat, parent: Hash)

  type Headers = map<Hash, Header>

  /** A block sits right above its parent, or is a root whose parent is no block. */
  ghost predicate Above(t: Headers, h: Hash)
    requires h in t
  {
    if t[h].number == 0 then t[h].parent !in t
    else t[h].parent in t && t[h].number == t[t[h].parent].number + 1
  }

  /** One root, and every other block right above its parent. */
  ghost predicate Tree(t: Headers)
  {
    && (forall h {:trigger Above(t, h)} :: h in t ==> Above(t, h))
    && (forall h <- t, g <- t :: t[h].number == 0 && t[g].number == 0 ==> h == g)
  }

  /** The blocks from the root up to a block. */
  ghost function Chain(t: Headers, h: Hash): (c: seq<Hash>)
    requires Tree(t) && h in t
    ensures |c| == t[h].number + 1 && c[t[h].number] == h
    ensures forall i :: 0 <= i < |c| ==> c[i] in t && t[c[i]].number == i
    decreases t[h].number
  {
    assert Above(t, h);
    if t[h].number == 0 then [h] else Chain(t, t[h].parent) + [h]
  }

  lemma {:induction false} ChainPrefix(t: Headers, h: Hash, i: nat)
    requires Tree(t) && h in t && i <= t[h].number
    ensures Chain(t, Chain(t, h)[i]) == Chain(t, h)[..i + 1]
    decreases t[h].number
  {
    assert Above(t, h);
    if i < t[h].number {
      ChainPrefix(t, t[h].parent, i);
      assert Chain(t, h)[..i + 1] == Chain(t, t[h].parent)[..i + 1];
    } else {
      assert Chain(t, h)[..i + 1] == Chain(t, h);
    }
  }

  /** Chains from a smaller tree stay as they are. */
  lemma {:induction false} ChainStays(t: Headers, t': Headers, h: Hash)
    requires Tree(t) && Tree(t') && h in t && forall x <- Chain(t, h) :: x in t' && t'[x] == t[x]
    ensures Chain(t', h) == Chain(t, h)
    decreases t[h].number
  {
    assert h == Chain(t, h)[t[h].number];
    if t[h].number > 0 {
      var c := Chain(t, t[h].parent);
      assert forall x <- c :: x in Chain(t, h);
      ChainStays(t, t', t[h].parent);
    }
  }

  // ----- routes

  function CommonLength(a: seq<Hash>, b: seq<Hash>): (n: nat)
    ensures n <= |a| && n <= |b| && a[..n] == b[..n]
    ensures n < |a| && n < |b| ==> a[n] != b[n]
  {
    if a == [] || b == [] || a[0] != b[0] then 0
    else
      var n := 1 + CommonLength(a[1..], b[1..]);
      assert a[..n] == [a[0]] + a[1..][..n - 1] && b[..n] == [b[0]] + b[1..][..n - 1];
      n
  }

  function Reversed(s: seq<Hash>): (r: seq<Hash>)
    ensures |r| == |s| && forall i :: 0 <= i < |s| ==> r[i] == s[|s| - 1 - i]
  {
    if s == [] then [] else Reversed(s[1..]) + [s[0]]
  }

  /** The blocks to leave, from a block downwards, and to enter, upwards to the other one. */
  ghost function TreeRoute(t: Headers, a: Hash, b: Hash): (route: (seq<Hash>, seq<Hash>))
    requires Tree(t) && a in t && b in t
    ensures forall h <- route.0 :: h in t
    ensures forall h <- route.1 :: h in t
  {
    var n := CommonLength(Chain(t, a), Chain(t, b));
    (Reversed(Chain(t, a)[n..]), Chain(t, b)[n..])
  }

  // ----- the canonical index

  ghost function AsIndex(c: seq<Hash>): (index: map<nat, Hash>)
  {
    map n | 0 <= n < |c| :: c[n]
  }

  function NumbersOf(t: Headers, hashes: seq<Hash>): (ns: set<nat>)
    requires forall h <- hashes :: h in t
  {
    set h <- hashes :: t[h].number
  }

  function RemoveNumbers(index: map<nat, Hash>, t: Headers, hashes: seq<Hash>): (index': map<nat, Hash>)
    requires forall h <- hashes :: h in t
  {
    if hashes == [] then index
    else RemoveNumbers(index, t, hashes[..|hashes| - 1]) - {t[hashes[|hashes| - 1]].number}
  }

  function InsertNumbers(index: map<nat, Hash>, t: Headers, hashes: seq<Hash>): (index': map<nat, Hash>)
    requires forall h <- hashes :: h in t
  {
    if hashes == [] then index
    else InsertNumbers(index, t, hashes[..|hashes| - 1])[t[hashes[|hashes| - 1]].number := hashes[|hashes| - 1]]
  }

  lemma {:induction false} RemoveNumbersShape(index: map<nat, Hash>, t: Headers, hashes: seq<Hash>)
    requires forall h <- hashes :: h in t
    ensures RemoveNumbers(index, t, hashes) == index - NumbersOf(t, hashes)
    decreases |hashes|
  {
    if hashes != [] {
      var last := |hashes| - 1;
      RemoveNumbersShape(index, t, hashes[..last]);
      assert hashes == hashes[..last] + [hashes[last]];
      assert NumbersOf(t, hashes) == NumbersOf(t, hashes[..last]) + {t[hashes[last]].number};
    }
  }

  /** Entering a piece of chain on top of an index. */
  lemma {:induction false} InsertNumbersShape(c: seq<Hash>, t: Headers, from: nat, n: nat)
    requires from <= n <= |c| && forall i :: 0 <= i < |c| ==> c[i] in t && t[c[i]].number == i
    ensures InsertNumbers(AsIndex(c[..from]), t, c[from..n]) == AsIndex(c[..n])
    decreases n
  {
    if from < n {
      InsertNumbersShape(c, t, from, n - 1);
      assert c[from..n][..n - 1 - from] == c[from..n - 1];
    }
  }

  lemma RetractedNumbers(c: seq<Hash>, t: Headers, from: nat)
    requires from <= |c| && forall i :: 0 <= i < |c| ==> c[i] in t && t[c[i]].number == i
    ensures var r := Reversed(c[from..]);
            (forall h <- r :: h in t) && AsIndex(c) - NumbersOf(t, r) == AsIndex(c[..from])
  {
    var r := Reversed(c[from..]);
    forall h <- r
      ensures h in t && from <= t[h].number < |c|
    {
      var i :| 0 <= i < |r| && r[i] == h;
      assert r[i] == c[|c| - 1 - i];
    }
    forall n | from <= n < |c|
      ensures n in NumbersOf(t, r)
    {
      assert r[|c| - 1 - n] == c[n];
    }
  }

  /** Leaving one chain and entering another turns the index of the one into the index of the other. */
  lemma ReorgIsExact(t: Headers, a: Hash, b: Hash)
    requires Tree(t) && a in t && b in t
    ensures var (retracted, enacted) := TreeRoute(t, a, b);
            InsertNumbers(RemoveNumbers(AsIndex(Chain(t, a)), t, retracted), t, enacted) == AsIndex(Chain(t, b))
  {
    var ca, cb := Chain(t, a), Chain(t, b);
    var n := CommonLength(ca, cb);
    var (retracted, enacted) := TreeRoute(t, a, b);
    RetractedNumbers(ca, t, n);
    RemoveNumbersShape(AsIndex(ca), t, retracted);
    InsertNumbersShape(cb, t, n, |cb|);
    assert cb[n..|cb|] == cb[n..] && cb[..|cb|] == cb;
  }

  lemma RetractedExactly(c: seq<Hash>, from: nat, i: nat)
    requires from <= |c| && i < |c| && forall j, k :: 0 <= j < k < |c| ==> c[j] != c[k]
    ensures c[i] in Reversed(c[from..]) <==> i >= from
  {
    var r := Reversed(c[from..]);
    assert i >= from ==> r[|c| - 1 - i] == c[i];
    assert forall k :: 0 <= k < |r| ==> r[k] == c[|c| - 1 - k];
  }

  lemma CommonExactly(a: seq<Hash>, b: seq<Hash>, i: nat)
    requires i < |a|
    ensures i < CommonLength(a, b) <==> i < |b| && a[..i + 1] == b[..i + 1]
  {
    var n := CommonLength(a, b);
    if i < n {
      assert a[..i + 1] == a[..n][..i + 1] && b[..i + 1] == b[..n][..i + 1];
    } else if i < |b| {
      assert a[..i + 1][n] == a[n] && b[..i + 1][n] == b[n];
    }
  }

  /** A block of one chain is either left on the way to the other, or on both. */
  lemma RetractedOrKept(t: Headers, a: Hash, b: Hash, i: nat)
    requires Tree(t) && a in t && b in t && i <= t[a].number
    ensures var x := Chain(t, a)[i];
            x !in TreeRoute(t, a, b).0 <==> i <= t[b].number && Chain(t, a)[..i + 1] == Chain(t, b)[..i + 1]
  {
    hide Reversed, CommonLength;
    var ca, cb := Chain(t, a), Chain(t, b);
    RetractedExactly(ca, CommonLength(ca, cb), i);
    CommonExactly(ca, cb, i);
  }
}
