/** The freeing-bump allocator working in place on linear memory: free lists are threaded through the
    headers of the free chunks. It refines the allocator on values of `HeapModel`. */
module FreeingBump {
  import opened Basics
  import opened HeapLayout
  import opened HeapModel

  type Heads = s: seq<Link> | |s| == N_ORDERS witness seq(N_ORDERS, _ => Nil)

  ghost function FirstLink(list: seq<nat>): (l: Link)
  {
    if list == [] then Nil else Ptr(list[0])
  }

  /** Each header on the list links to the next one; the last one links to Nil. */
  ghost predicate ListLinked(list: seq<nat>, headers: map<nat, Header>)
  {
    && (forall c <- list :: c in headers)
    && (forall i, j :: 0 <= i < j < |list| && j == i + 1 ==> headers[list[i]] == Free(Ptr(list[j])))
    && (list != [] ==> headers[list[|list| - 1]] == Free(Nil))
  }

  /** The headers of all chunks, with the list heads, spell out the heap: live chunks carry their order,
      and following the links from a head visits the free list of that order and stops at Nil. */
  ghost predicate Linked(h: Heap, heads: Heads, headers: map<nat, Header>)
    requires |h.free| == N_ORDERS
  {
    && headers.Keys == h.orders.Keys
    && (forall c <- h.live :: c in h.orders && headers[c] == Occupied(h.orders[c]))
    && (forall o :: 0 <= o < N_ORDERS ==> heads[o] == FirstLink(h.free[o]))
    && (forall o :: 0 <= o < N_ORDERS ==> ListLinked(h.free[o], headers))
  }

  /** The memory holds these headers at these addresses. */
  ghost predicate Holds(mem: seq<byte>, headers: map<nat, Header>)
  {
    forall c <- headers :: ReadHeader(mem, c) == Ok(headers[c])
  }

  // ----- how each operation changes the links

  lemma UnlinkHead(list: seq<nat>, headers: map<nat, Header>, hd: Header)
    requires list != [] && Distinct(list) && ListLinked(list, headers)
    ensures headers[list[0]] == Free(FirstLink(list[1..]))
    ensures ListLinked(list[1..], headers[list[0] := hd])
  {
    var rest, headers' := list[1..], headers[list[0] := hd];
    forall i, j | 0 <= i < j < |rest| && j == i + 1
      ensures headers'[rest[i]] == Free(Ptr(rest[j]))
    {
      assert rest[i] == list[i + 1] && rest[j] == list[j + 1];
    }
    if rest != [] {
      assert rest[|rest| - 1] == list[|list| - 1];
      assert headers[list[0]] == Free(Ptr(list[1]));
    }
  }

  lemma LinkHead(list: seq<nat>, headers: map<nat, Header>, c: nat)
    requires c !in list && ListLinked(list, headers)
    ensures ListLinked([c] + list, headers[c := Free(FirstLink(list))])
  {
    var more, headers' := [c] + list, headers[c := Free(FirstLink(list))];
    forall i, j | 0 <= i < j < |more| && j == i + 1
      ensures headers'[more[i]] == Free(Ptr(more[j]))
    {
      if i > 0 {
        assert more[i] == list[i - 1] && more[j] == list[j - 1];
      }
    }
  }

  lemma ListUntouched(h: Heap, p: nat, headers: map<nat, Header>, c: nat, hd: Header)
    requires Partitioned(h) && p < N_ORDERS && ListLinked(h.free[p], headers)
    requires c !in h.free[p]
    ensures ListLinked(h.free[p], headers[c := hd])
  {
  }

  lemma PopFreeLists(h: Heap, headers: map<nat, Header>, o: nat)
    requires Partitioned(h) && o < N_ORDERS && h.free[o] != []
    requires forall p :: 0 <= p < N_ORDERS ==> ListLinked(h.free[p], headers)
    ensures h.free[o][0] in headers && headers[h.free[o][0]] == Free(FirstLink(h.free[o][1..]))
    ensures forall p :: 0 <= p < N_ORDERS ==> ListLinked(PopFree(h, o).free[p], headers[h.free[o][0] := Occupied(o)])
  {
    assert FreeList(h.orders, h.live, o, h.free[o]);
    UnlinkHead(h.free[o], headers, Occupied(o));
    forall p | 0 <= p < N_ORDERS && p != o
      ensures ListLinked(h.free[p], headers[h.free[o][0] := Occupied(o)])
    {
      assert FreeList(h.orders, h.live, p, h.free[p]);
      ListUntouched(h, p, headers, h.free[o][0], Occupied(o));
    }
  }

  lemma PopFreeRelinks(h: Heap, heads: Heads, headers: map<nat, Header>, o: nat)
    requires |h.free| == N_ORDERS && o < N_ORDERS && h.free[o] != [] && Linked(h, heads, headers)
    requires var c := h.free[o][0];
             && c in h.orders && h.orders[c] == o && c !in h.live
             && headers[c] == Free(FirstLink(h.free[o][1..]))
             && forall p :: 0 <= p < N_ORDERS ==> ListLinked(PopFree(h, o).free[p], headers[c := Occupied(o)])
    ensures var c := h.free[o][0];
            Linked(PopFree(h, o), heads[o := headers[c].link], headers[c := Occupied(o)])
  {
  }

  lemma PopFreeLinked(h: Heap, heads: Heads, headers: map<nat, Header>, o: nat)
    requires Partitioned(h) && o < N_ORDERS && h.free[o] != [] && Linked(h, heads, headers)
    ensures var c := h.free[o][0];
            && heads[o] == Ptr(c)
            && c in headers && headers[c].Free?
            && Linked(PopFree(h, o), heads[o := headers[c].link], headers[c := Occupied(o)])
  {
    PopFreeLists(h, headers, o);
    assert FreeList(h.orders, h.live, o, h.free[o]);
    PopFreeRelinks(h, heads, headers, o);
  }

  lemma BumpLinked(h: Heap, heads: Heads, headers: map<nat, Header>, o: nat)
    requires Partitioned(h) && h.bumper !in h.orders && Linked(h, heads, headers)
    ensures Linked(Bump(h, o), heads, headers[h.bumper := Occupied(o)])
  {
    var h', headers' := Bump(h, o), headers[h.bumper := Occupied(o)];
    forall p | 0 <= p < N_ORDERS
      ensures ListLinked(h'.free[p], headers')
    {
      assert FreeList(h.orders, h.live, p, h.free[p]);
      ListUntouched(h, p, headers, h.bumper, Occupied(o));
    }
    assert headers'.Keys == h'.orders.Keys;
  }

  lemma PushFreeLists(h: Heap, headers: map<nat, Header>, c: nat)
    requires Partitioned(h) && c in h.live && h.orders[c] < N_ORDERS
    requires forall p :: 0 <= p < N_ORDERS ==> ListLinked(h.free[p], headers)
    ensures var o := h.orders[c];
            forall p :: 0 <= p < N_ORDERS ==> ListLinked(PushFree(h, c).free[p], headers[c := Free(FirstLink(h.free[o]))])
  {
    var o := h.orders[c];
    var hd := Free(FirstLink(h.free[o]));
    assert FreeList(h.orders, h.live, o, h.free[o]);
    LinkHead(h.free[o], headers, c);
    forall p | 0 <= p < N_ORDERS && p != o
      ensures ListLinked(h.free[p], headers[c := hd])
    {
      assert FreeList(h.orders, h.live, p, h.free[p]);
      ListUntouched(h, p, headers, c, hd);
    }
  }

  lemma PushFreeRelinks(h: Heap, heads: Heads, headers: map<nat, Header>, c: nat)
    requires |h.free| == N_ORDERS && c in h.live && c in h.orders && h.orders[c] < N_ORDERS && Linked(h, heads, headers)
    requires var hd := Free(heads[h.orders[c]]);
             forall p :: 0 <= p < N_ORDERS ==> ListLinked(PushFree(h, c).free[p], headers[c := hd])
    ensures Linked(PushFree(h, c), heads[h.orders[c] := Ptr(c)], headers[c := Free(heads[h.orders[c]])])
  {
  }

  lemma PushFreeLinked(h: Heap, heads: Heads, headers: map<nat, Header>, c: nat)
    requires Partitioned(h) && c in h.live && h.orders[c] < N_ORDERS && Linked(h, heads, headers)
    ensures Linked(PushFree(h, c), heads[h.orders[c] := Ptr(c)], headers[c := Free(heads[h.orders[c]])])
  {
    PushFreeLists(h, headers, c);
    PushFreeRelinks(h, heads, headers, c);
  }

  /** A chunk that is not live has a free header, so a second free is noticed. */
  lemma HeaderKind(h: Heap, heads: Heads, headers: map<nat, Header>, c: nat)
    requires Partitioned(h) && Linked(h, heads, headers) && c in h.orders
    ensures c in headers
    ensures c in h.live ==> headers[c] == Occupied(h.orders[c])
    ensures c !in h.live ==> headers[c].Free?
  {
    if c !in h.live {
      var list := h.free[h.orders[c]];
      assert ListLinked(list, headers);
      var i :| 0 <= i < |list| && list[i] == c;
      if i + 1 < |list| {
        assert headers[list[i]] == Free(Ptr(list[i + 1]));
      }
    }
  }

  // ----- headers in memory

  ghost predicate Apart(headers: map<nat, Header>, c: nat)
  {
    forall d <- headers :: d != c ==> c + HEADER_SIZE <= d || d + HEADER_SIZE <= c
  }

  lemma HeadersApart(h: Heap, headers: map<nat, Header>, c: nat)
    requires Tiled(h.base, h.bumper, h.orders) && headers.Keys <= h.orders.Keys
    requires c in h.orders || c == h.bumper
    ensures Apart(headers, c)
  {
  }

  /** Rewriting the header of one chunk leaves the headers of all the others as they were. */
  lemma WriteHeaderHolds(mem: seq<byte>, headers: map<nat, Header>, c: nat, hd: Header)
    requires Holds(mem, headers) && Apart(headers, c)
    requires InHeapRange(c, 8, |mem|) && Encodable(hd)
    ensures Holds(WriteHeader(mem, c, hd), headers[c := hd])
  {
    var mem' := WriteHeader(mem, c, hd);
    HeaderRoundTrip(mem, c, hd);
    forall d <- headers | d != c
      ensures ReadHeader(mem', d) == Ok(headers[d])
    {
      HeaderWriteFrame(mem, c, hd, d);
    }
  }

  lemma HeldInRange(mem: seq<byte>, headers: map<nat, Header>, c: nat)
    requires Holds(mem, headers) && c in headers
    ensures InHeapRange(c, 8, |mem|) && c < NIL_MARKER
  {
  }

  /** What the client may do between calls: grow the memory and write anywhere outside the headers. */
  lemma ClientWritesKeepHeaders(mem: seq<byte>, mem': seq<byte>, headers: map<nat, Header>)
    requires Holds(mem, headers) && |mem| <= |mem'|
    requires forall c <- headers :: c + 8 <= |mem| ==> mem[c..c + 8] == mem'[c..c + 8]
    ensures Holds(mem', headers)
  {
    forall c <- headers
      ensures ReadHeader(mem', c) == Ok(headers[c])
    {
      HeldInRange(mem, headers, c);
      HeaderReadFrame(mem, mem', c);
    }
  }

  // ----- finding a chunk

  datatype Pick = Pick(header: nat, heads: Heads, bumper: nat)

  /** The choice of a chunk as `allocate` makes it, on the bytes in memory: unlink the head of the free
      list, else move the bump pointer. */
  function PickChunk(heads: Heads, bumper: nat, mem: seq<byte>, o: nat): (r: Result<Pick>)
    requires o < N_ORDERS
  {
    match heads[o]
    case Ptr(p) =>
      if p + Span(o) >= U32_LIMIT then Err(Panicked("overflow"))
      else if p + Span(o) > |mem| then Err(Panicked("only valid values are inserted into free lists"))
      else
        var header := ReadHeader(mem, p);
        if header.Err? then Err(header.error)
        else if header.value.Occupied? then Err(Other("free list points to a occupied header"))
        else Ok(Pick(p, heads[o := header.value.link], bumper))
    case Nil =>
      if bumper + Span(o) >= U32_LIMIT then Err(Panicked("overflow"))
      else if bumper + Span(o) > |mem| then Err(AllocatorOutOfSpace)
      else Ok(Pick(bumper, heads, bumper + Span(o)))
  }

  /** The state after the chosen header has been written represents the heap after `Take`. */
  ghost predicate Refines(h: Heap, heads: Heads, bumper: nat, headers: map<nat, Header>, mem: seq<byte>)
  {
    && |h.free| == N_ORDERS
    && h.bumper == bumper
    && Linked(h, heads, headers)
    && Holds(mem, headers)
  }

  lemma FreeHeadFacts(h: Heap, headers: map<nat, Header>, o: nat)
    requires HeapInv(h) && o < N_ORDERS && h.free[o] != [] && headers.Keys == h.orders.Keys
    ensures var c := h.free[o][0];
            c in h.orders && c + Span(o) <= h.bumper && Apart(headers, c)
  {
  }

  lemma PickHead(heads: Heads, bumper: nat, headers: map<nat, Header>, mem: seq<byte>, o: nat, c: nat)
    requires o < N_ORDERS && heads[o] == Ptr(c) && c in headers && headers[c].Free?
    requires Holds(mem, headers) && Apart(headers, c) && c + Span(o) <= |mem| < U32_LIMIT
    ensures InHeapRange(c, 8, |mem|)
    ensures PickChunk(heads, bumper, mem, o) == Ok(Pick(c, heads[o := headers[c].link], bumper))
    ensures Holds(WriteHeader(mem, c, Occupied(o)), headers[c := Occupied(o)])
  {
    HeldInRange(mem, headers, c);
    WriteHeaderHolds(mem, headers, c, Occupied(o));
  }

  lemma PickFromBump(h: Heap, heads: Heads, headers: map<nat, Header>, mem: seq<byte>, o: nat)
    requires HeapInv(h) && o < N_ORDERS && h.free[o] == []
    requires Refines(h, heads, h.bumper, headers, mem)
    requires h.bumper + Span(o) < U32_LIMIT && h.bumper + Span(o) <= |mem|
    ensures InHeapRange(h.bumper, 8, |mem|)
    ensures PickChunk(heads, h.bumper, mem, o) == Ok(Pick(h.bumper, heads, h.bumper + Span(o)))
    ensures Refines(Bump(h, o), heads, h.bumper + Span(o), headers[h.bumper := Occupied(o)], WriteHeader(mem, h.bumper, Occupied(o)))
  {
    BumperIsFresh(h.base, h.bumper, h.orders);
    BumpLinked(h, heads, headers, o);
    HeadersApart(h, headers, h.bumper);
    WriteHeaderHolds(mem, headers, h.bumper, Occupied(o));
  }

  /** On a well-formed heap the choice made on the bytes is the choice of the model: no assertion fails,
      no header is misread, and writing the occupied header completes the step. */
  lemma PickRefinesTake(h: Heap, heads: Heads, headers: map<nat, Header>, mem: seq<byte>, o: nat)
    requires HeapInv(h) && o < N_ORDERS && Refines(h, heads, h.bumper, headers, mem) && |mem| < U32_LIMIT
    requires h.bumper <= |mem| || h.orders == map[]
    ensures var pick, take := PickChunk(heads, h.bumper, mem, o), Take(h, o, |mem|);
            && (pick.Err? ==> take == Err(pick.error))
            && (pick.Ok? ==>
                  && take.Ok? && take.value.header == pick.value.header
                  && InHeapRange(pick.value.header, 8, |mem|)
                  && Refines(take.value.heap, pick.value.heads, pick.value.bumper,
                             headers[pick.value.header := Occupied(o)], WriteHeader(mem, pick.value.header, Occupied(o))))
  {
    if h.free[o] != [] {
      FreeHeadFacts(h, headers, o);
      PopFreeLinked(h, heads, headers, o);
      PickHead(heads, h.bumper, headers, mem, o, h.free[o][0]);
    } else if h.bumper + Span(o) < U32_LIMIT && h.bumper + Span(o) <= |mem| {
      PickFromBump(h, heads, headers, mem, o);
    }
  }

  // ----- returning a chunk

  lemma HeadEncodable(h: Heap, heads: Heads, headers: map<nat, Header>, mem: seq<byte>, o: nat)
    requires |h.free| == N_ORDERS && o < N_ORDERS && Linked(h, heads, headers) && Holds(mem, headers)
    ensures Encodable(Free(heads[o]))
  {
    if h.free[o] != [] {
      assert ListLinked(h.free[o], headers);
      HeldInRange(mem, headers, h.free[o][0]);
    }
  }

  /** Linking a live chunk in front of its free list, header included, is the model's deallocation. */
  lemma ReturnRefinesPush(h: Heap, heads: Heads, headers: map<nat, Header>, mem: seq<byte>, c: nat)
    requires HeapInv(h) && c in h.live && Refines(h, heads, h.bumper, headers, mem)
    ensures InHeapRange(c, 8, |mem|) && h.orders[c] < N_ORDERS
    ensures ReadHeader(mem, c) == Ok(Occupied(h.orders[c]))
    ensures var o := h.orders[c];
            Refines(PushFree(h, c), heads[o := Ptr(c)], h.bumper, headers[c := Free(heads[o])], WriteHeader(mem, c, Free(heads[o])))
  {
    HeldInRange(mem, headers, c);
    HeadersApart(h, headers, c);
    HeadEncodable(h, heads, headers, mem, h.orders[c]);
    PushFreeLinked(h, heads, headers, c);
    WriteHeaderHolds(mem, headers, c, Free(heads[h.orders[c]]));
  }

  // ----- the allocator on bytes

  datatype Machine = Machine(base: nat, bumper: nat, heads: Heads, poisoned: bool, seen: nat, stats: Stats)

  datatype Outcome<+T> = Outcome(machine: Machine, mem: seq<byte>, result: Result<T>)

  function Fail<T>(m: Machine, mem: seq<byte>, e: Error): (out: Outcome<T>)
  {
    Outcome(m.(poisoned := true), mem, Err(e))
  }

  /** `allocate` on the bytes of the memory, for any memory contents. */
  function AllocateBytes(m: Machine, mem: seq<byte>, size: nat): (out: Outcome<nat>)
  {
    if m.poisoned then Outcome(m, mem, Err(Poisoned))
    else if |mem| < m.seen then Fail(m, mem, MemoryShrinked)
    else
      var m1 := m.(seen := |mem|);
      var order := OrderFromSize(size);
      if order.Err? then Fail(m1, mem, order.error)
      else
        var o, span := order.value, Span(order.value);
        var pick := PickChunk(m.heads, m.bumper, mem, o);
        if pick.Err? then Fail(m1, mem, pick.error)
        else
          var Pick(header, heads, bumper) := pick.value;
          var m2 := m1.(heads := heads, bumper := bumper);
          if !InHeapRange(header, 8, |mem|) then Fail(m2, mem, Other("write out of heap bounds"))
          else
            var mem' := WriteHeader(mem, header, Occupied(o));
            if m.stats.inUse + span >= U32_LIMIT || bumper < m.base then Fail(m2, mem', Panicked("overflow"))
            else
              var inUse := m.stats.inUse + span;
              var stats := Stats(inUse, Max(m.stats.peak, inUse), m.stats.total + span, bumper - m.base);
              Outcome(m2.(stats := stats), mem', Ok(header + HEADER_SIZE))
  }

  /** `deallocate` on the bytes of the memory, for any memory contents and any pointer. */
  function DeallocateBytes(m: Machine, mem: seq<byte>, ptr: nat): (out: Outcome<()>)
  {
    if m.poisoned then Outcome(m, mem, Err(Poisoned))
    else if |mem| < m.seen then Fail(m, mem, MemoryShrinked)
    else
      var m1 := m.(seen := |mem|);
      if ptr < HEADER_SIZE then Fail(m1, mem, Other("Invalid pointer for deallocation"))
      else
        var c := ptr - HEADER_SIZE;
        var header := ReadHeader(mem, c);
        if header.Err? then Fail(m1, mem, header.error)
        else if header.value.Free? then Fail(m1, mem, Other("the allocation points to an empty header"))
        else
          var o := header.value.order;
          var m2 := m1.(heads := m.heads[o := Ptr(c)]);
          var mem' := WriteHeader(mem, c, Free(m.heads[o]));
          if Span(o) > m.stats.inUse then
            Fail(m2, mem', Other("underflow of the currently allocated bytes count"))
          else
            Outcome(m2.(stats := m.stats.(inUse := m.stats.inUse - Span(o))), mem', Ok(()))
  }

  // ----- the allocator on bytes simulates the model

  /** The machine and the memory represent the model's allocator. A poisoned machine promises nothing. */
  ghost predicate Represents(m: Machine, mem: seq<byte>, headers: map<nat, Header>, a: Allocator)
  {
    && |a.heap.free| == N_ORDERS
    && m.poisoned == a.poisoned && m.seen == a.seen && m.stats == a.stats && m.base == a.heap.base
    && (!m.poisoned ==> Inv(a) && Refines(a.heap, m.heads, m.bumper, headers, mem))
  }

  /** A successful choice of a chunk carries both allocators through to success in the same way. */
  lemma AllocateAgrees(m: Machine, mem: seq<byte>, a: Allocator, size: nat)
    requires |a.heap.free| == N_ORDERS && OrderFromSize(size).Ok?
    requires !m.poisoned && !a.poisoned && m.seen == a.seen <= |mem| && m.stats == a.stats && m.base == a.heap.base
    requires var pick, take := PickChunk(m.heads, m.bumper, mem, OrderFromSize(size).value), Take(a.heap, OrderFromSize(size).value, |mem|);
             && pick.Ok? && take.Ok? && take.value.header == pick.value.header
             && InHeapRange(pick.value.header, 8, |mem|)
             && take.value.heap.bumper == pick.value.bumper
             && m.stats.inUse + Span(OrderFromSize(size).value) < U32_LIMIT && m.base <= pick.value.bumper
    ensures var out, (a', r) := AllocateBytes(m, mem, size), HeapModel.Allocate(a, size, |mem|);
            var pick := PickChunk(m.heads, m.bumper, mem, OrderFromSize(size).value).value;
            && out.result == r
            && out.machine == Machine(m.base, pick.bumper, pick.heads, false, |mem|, a'.stats)
            && out.mem == WriteHeader(mem, pick.header, Occupied(OrderFromSize(size).value))
            && a' == Allocator(Take(a.heap, OrderFromSize(size).value, |mem|).value.heap, false, |mem|, a'.stats)
  {
  }

  lemma CountersFit(a: Allocator, size: nat, memSize: nat)
    requires !a.poisoned && Inv(a) && |a.heap.free| == N_ORDERS && memSize < U32_LIMIT && a.seen <= memSize
    requires OrderFromSize(size).Ok? && Take(a.heap, OrderFromSize(size).value, memSize).Ok?
    ensures Inv(HeapModel.Allocate(a, size, memSize).0)
    ensures a.stats.inUse + Span(OrderFromSize(size).value) < U32_LIMIT
    ensures a.heap.base == Take(a.heap, OrderFromSize(size).value, memSize).value.heap.base
    ensures a.heap.base <= Take(a.heap, OrderFromSize(size).value, memSize).value.heap.bumper
  {
    hide HeapModel.Partitioned, HeapModel.Tiled, HeapModel.SpanSum;
    AllocateKeepsInv(a, size, memSize);
    LiveBytesBounded(HeapModel.Allocate(a, size, memSize).0);
  }

  lemma AllocateSucceeds(m: Machine, mem: seq<byte>, headers: map<nat, Header>, a: Allocator, size: nat)
    returns (headers': map<nat, Header>)
    requires !m.poisoned && Represents(m, mem, headers, a) && |mem| < U32_LIMIT
    requires a.seen <= |mem| && OrderFromSize(size).Ok? && Take(a.heap, OrderFromSize(size).value, |mem|).Ok?
    ensures AllocateBytes(m, mem, size).result == HeapModel.Allocate(a, size, |mem|).1 && AllocateBytes(m, mem, size).result.Ok?
    ensures Represents(AllocateBytes(m, mem, size).machine, AllocateBytes(m, mem, size).mem, headers',
                       HeapModel.Allocate(a, size, |mem|).0)
  {
    hide HeapModel.HeapInv, HeapModel.Accounted, HeapModel.Take, Linked, Holds, PickChunk;
    var o := OrderFromSize(size).value;
    CountersFit(a, size, |mem|);
    MemoryHoldsChunks(a, |mem|);
    PickRefinesTake(a.heap, m.heads, headers, mem, o);
    AllocateAgrees(m, mem, a, size);
    headers' := headers[Take(a.heap, o, |mem|).value.header := Occupied(o)];
  }

  lemma AllocateFails(m: Machine, mem: seq<byte>, headers: map<nat, Header>, a: Allocator, size: nat)
    requires Represents(m, mem, headers, a) && |mem| < U32_LIMIT
    requires a.poisoned || |mem| < a.seen || OrderFromSize(size).Err? || Take(a.heap, OrderFromSize(size).value, |mem|).Err?
    ensures AllocateBytes(m, mem, size).result == HeapModel.Allocate(a, size, |mem|).1 && AllocateBytes(m, mem, size).mem == mem
    ensures Represents(AllocateBytes(m, mem, size).machine, AllocateBytes(m, mem, size).mem, headers,
                       HeapModel.Allocate(a, size, |mem|).0)
  {
    if !a.poisoned && a.seen <= |mem| && OrderFromSize(size).Ok? {
      MemoryHoldsChunks(a, |mem|);
      PickRefinesTake(a.heap, m.heads, headers, mem, OrderFromSize(size).value);
    }
  }

  lemma AllocateSimulates(m: Machine, mem: seq<byte>, headers: map<nat, Header>, a: Allocator, size: nat)
    returns (headers': map<nat, Header>)
    requires Represents(m, mem, headers, a) && |mem| < U32_LIMIT
    ensures AllocateBytes(m, mem, size).result == HeapModel.Allocate(a, size, |mem|).1
    ensures AllocateBytes(m, mem, size).result.Err? ==> AllocateBytes(m, mem, size).mem == mem
    ensures Represents(AllocateBytes(m, mem, size).machine, AllocateBytes(m, mem, size).mem, headers',
                       HeapModel.Allocate(a, size, |mem|).0)
  {
    var order := OrderFromSize(size);
    if a.poisoned || |mem| < a.seen || order.Err? || Take(a.heap, order.value, |mem|).Err? {
      AllocateFails(m, mem, headers, a, size);
      headers' := headers;
    } else {
      headers' := AllocateSucceeds(m, mem, headers, a, size);
    }
  }

  lemma DeallocateAgrees(m: Machine, mem: seq<byte>, a: Allocator, ptr: nat)
    requires |a.heap.free| == N_ORDERS && Specified(a, ptr)
    requires !m.poisoned && !a.poisoned && m.seen == a.seen <= |mem| && m.stats == a.stats
    requires ptr >= HEADER_SIZE && ptr - HEADER_SIZE in a.heap.live
    requires var c := ptr - HEADER_SIZE;
             && a.heap.orders[c] < N_ORDERS && ReadHeader(mem, c) == Ok(Occupied(a.heap.orders[c]))
             && Span(a.heap.orders[c]) <= a.stats.inUse
    ensures var out, (a', r) := DeallocateBytes(m, mem, ptr), HeapModel.Deallocate(a, ptr, |mem|);
            var c := ptr - HEADER_SIZE;
            var o := a.heap.orders[c];
            && out.result == r && a'.heap == PushFree(a.heap, c)
            && a' == a.(seen := |mem|, heap := a'.heap, stats := a.stats.(inUse := a.stats.inUse - Span(o)))
            && out.machine == m.(heads := m.heads[o := Ptr(c)], seen := |mem|, stats := a'.stats)
            && InHeapRange(c, 8, |mem|) && out.mem == WriteHeader(mem, c, Free(m.heads[o]))
  {
  }

  lemma FreeLiveSucceeds(m: Machine, mem: seq<byte>, headers: map<nat, Header>, a: Allocator, c: nat, out: Outcome<()>, a': Allocator)
    returns (headers': map<nat, Header>)
    requires c in a.heap.orders && a.heap.orders[c] < N_ORDERS && |a.heap.free| == N_ORDERS
    requires out == DeallocateBytes(m, mem, c + HEADER_SIZE) && a' == HeapModel.Deallocate(a, c + HEADER_SIZE, |mem|).0
    requires !m.poisoned && |mem| < U32_LIMIT && a.seen <= |mem| && c in a.heap.live && Span(a.heap.orders[c]) <= a.stats.inUse
    requires Represents(m, mem, headers, a)
    ensures out.result == Ok(()) && Represents(out.machine, out.mem, headers', a')
  {
    hide HeapModel.HeapInv, HeapModel.Accounted, Linked, Holds;
    var o := a.heap.orders[c];
    headers' := headers[c := Free(m.heads[o])];
    ReturnRefinesPush(a.heap, m.heads, headers, mem, c);
    DeallocateAgrees(m, mem, a, c + HEADER_SIZE);
    DeallocateKeepsInv(a, c + HEADER_SIZE, |mem|);
  }

  lemma LiveFreeIsOk(a: Allocator, ptr: nat, memSize: nat)
    requires !a.poisoned && Inv(a) && |a.heap.free| == N_ORDERS && a.seen <= memSize && ptr >= HEADER_SIZE && ptr - HEADER_SIZE in a.heap.live
    ensures Specified(a, ptr) && HeapModel.Deallocate(a, ptr, memSize).1 == Ok(())
  {
    assert ptr - HEADER_SIZE in a.heap.orders;
    DeallocateSucceedsExactlyOnLive(a, ptr, memSize);
  }

  /** A freed or missing header makes both allocators fail with the same error. */
  lemma DeallocateRefusals(m: Machine, mem: seq<byte>, a: Allocator, ptr: nat)
    requires |a.heap.free| == N_ORDERS && Specified(a, ptr) && m.poisoned == a.poisoned && m.seen == a.seen
    requires a.poisoned || |mem| < a.seen || ptr < HEADER_SIZE
             || (ptr - HEADER_SIZE !in a.heap.live && ReadHeader(mem, ptr - HEADER_SIZE).Ok?
                 && ReadHeader(mem, ptr - HEADER_SIZE).value.Free?)
    ensures var out, (a', r) := DeallocateBytes(m, mem, ptr), HeapModel.Deallocate(a, ptr, |mem|);
            && out.result == r && out.mem == mem
            && out.machine == m.(poisoned := true, seen := a'.seen)
            && a' == a.(poisoned := true, seen := a'.seen)
  {
  }

  lemma ChunkHeader(m: Machine, mem: seq<byte>, headers: map<nat, Header>, a: Allocator, c: nat)
    requires !m.poisoned && Represents(m, mem, headers, a) && c in a.heap.orders
    ensures ReadHeader(mem, c).Ok?
    ensures c in a.heap.live ==> ReadHeader(mem, c) == Ok(Occupied(a.heap.orders[c]))
    ensures c !in a.heap.live ==> ReadHeader(mem, c).value.Free?
  {
    assert Inv(a) && Refines(a.heap, m.heads, m.bumper, headers, mem);
    assert HeapInv(a.heap);
    HeaderKind(a.heap, m.heads, headers, c);
  }

  lemma DoubleFreeFails(m: Machine, mem: seq<byte>, headers: map<nat, Header>, a: Allocator, c: nat)
    requires !m.poisoned && Represents(m, mem, headers, a) && a.seen <= |mem|
    requires c in a.heap.orders && c !in a.heap.live
    ensures DeallocateBytes(m, mem, c + HEADER_SIZE).result == HeapModel.Deallocate(a, c + HEADER_SIZE, |mem|).1
    ensures Represents(DeallocateBytes(m, mem, c + HEADER_SIZE).machine, DeallocateBytes(m, mem, c + HEADER_SIZE).mem, headers,
                       HeapModel.Deallocate(a, c + HEADER_SIZE, |mem|).0)
  {
    ChunkHeader(m, mem, headers, a, c);
    DeallocateRefusals(m, mem, a, c + HEADER_SIZE);
  }

  lemma DeallocateSimulates(m: Machine, mem: seq<byte>, headers: map<nat, Header>, a: Allocator, ptr: nat)
    returns (headers': map<nat, Header>)
    requires Represents(m, mem, headers, a) && |mem| < U32_LIMIT && Specified(a, ptr)
    ensures DeallocateBytes(m, mem, ptr).result == HeapModel.Deallocate(a, ptr, |mem|).1
    ensures Represents(DeallocateBytes(m, mem, ptr).machine, DeallocateBytes(m, mem, ptr).mem, headers',
                       HeapModel.Deallocate(a, ptr, |mem|).0)
  {
    hide HeapModel.HeapInv, HeapModel.Accounted, Refines;
    headers' := headers;
    if a.poisoned || |mem| < a.seen || ptr < HEADER_SIZE {
      DeallocateRefusals(m, mem, a, ptr);
    } else if ptr - HEADER_SIZE !in a.heap.live {
      DoubleFreeFails(m, mem, headers, a, ptr - HEADER_SIZE);
    } else {
      PushFreeAccounts(a, ptr - HEADER_SIZE);
      LiveFreeIsOk(a, ptr, |mem|);
      headers' := FreeLiveSucceeds(m, mem, headers, a, ptr - HEADER_SIZE,
                                   DeallocateBytes(m, mem, ptr), HeapModel.Deallocate(a, ptr, |mem|).0);
    }
  }

  // ----- what stays untouched

  ghost predicate OnlyHeaderChanged(mem: seq<byte>, mem': seq<byte>, ptr: nat)
  {
    && |mem'| == |mem|
    && forall i :: 0 <= i < |mem| && !(ptr - HEADER_SIZE <= i < ptr) ==> mem'[i] == mem[i]
  }

  /** On any memory, allocating writes at most the header of the chunk it returns. */
  lemma AllocateWritesOnlyHeader(m: Machine, mem: seq<byte>, size: nat)
    ensures var out := AllocateBytes(m, mem, size);
            && |out.mem| == |mem|
            && (out.result.Ok? ==> OnlyHeaderChanged(mem, out.mem, out.result.value))
            && (m.poisoned ==> out.mem == mem)
  {
  }

  /** On any memory, freeing writes at most the eight bytes before the pointer. */
  lemma DeallocateWritesOnlyHeader(m: Machine, mem: seq<byte>, ptr: nat)
    ensures OnlyHeaderChanged(mem, DeallocateBytes(m, mem, ptr).mem, ptr)
    ensures m.poisoned ==> DeallocateBytes(m, mem, ptr).mem == mem
  {
    hide LeBytes, EncodeHeader, DecodeHeader;
  }

  ghost predicate SamePayload(h: Heap, mem: seq<byte>, mem': seq<byte>, d: nat)
    requires d in h.orders
  {
    |mem| <= |mem'| && forall i :: d + HEADER_SIZE <= i < d + Span(h.orders[d]) && i < |mem| ==> mem'[i] == mem[i]
  }

  lemma HeaderWritesSparePayload(h: Heap, mem: seq<byte>, mem': seq<byte>, c: nat)
    requires Tiled(h.base, h.bumper, h.orders) && c in h.orders && OnlyHeaderChanged(mem, mem', c + HEADER_SIZE)
    ensures forall d <- h.orders :: SamePayload(h, mem, mem', d)
  {
    SpanBounds(h.orders[c]);
    forall d <- h.orders
      ensures SamePayload(h, mem, mem', d)
    {
    }
  }

  lemma Untouched(h: Heap, mem: seq<byte>)
    ensures forall d <- h.orders :: SamePayload(h, mem, mem, d)
  {
  }

  /** Allocating, whether it succeeds or fails, changes no payload byte of any chunk, live, free or new. */
  lemma AllocatePreservesPayloads(m: Machine, mem: seq<byte>, headers: map<nat, Header>, a: Allocator, size: nat)
    requires Represents(m, mem, headers, a) && |mem| < U32_LIMIT
    ensures var h' := HeapModel.Allocate(a, size, |mem|).0.heap;
            forall d <- h'.orders :: SamePayload(h', mem, AllocateBytes(m, mem, size).mem, d)
  {
    hide Refines, AllocateBytes, SamePayload, HeapModel.Allocate, HeapModel.HeapInv, HeapModel.Accounted;
    var h' := HeapModel.Allocate(a, size, |mem|).0.heap;
    var headers' := AllocateSimulates(m, mem, headers, a, size);
    if AllocateBytes(m, mem, size).result.Err? {
      Untouched(h', mem);
    } else {
      AllocateWritesOnlyHeader(m, mem, size);
      NewChunkIsTiled(a, size, |mem|);
      HeaderWritesSparePayload(h', mem, AllocateBytes(m, mem, size).mem, AllocateBytes(m, mem, size).result.value - HEADER_SIZE);
    }
  }

  lemma NewChunkIsTiled(a: Allocator, size: nat, memSize: nat)
    requires |a.heap.free| == N_ORDERS && (!a.poisoned ==> Inv(a)) && memSize < U32_LIMIT && HeapModel.Allocate(a, size, memSize).1.Ok?
    ensures var (a', r) := HeapModel.Allocate(a, size, memSize);
            Tiled(a'.heap.base, a'.heap.bumper, a'.heap.orders) && r.value >= HEADER_SIZE && r.value - HEADER_SIZE in a'.heap.orders
  {
    hide HeapModel.Partitioned, HeapModel.Accounted, HeapModel.Take, HeapModel.Tiled;
    AllocateKeepsInv(a, size, memSize);
    AllocateReturnsFreshChunk(a, size, memSize);
  }

  /** Freeing, whether it succeeds or fails, changes no payload byte of any chunk, live or free. */
  lemma DeallocatePreservesPayloads(m: Machine, mem: seq<byte>, headers: map<nat, Header>, a: Allocator, ptr: nat)
    requires Represents(m, mem, headers, a) && Specified(a, ptr)
    ensures forall d <- a.heap.orders :: SamePayload(a.heap, mem, DeallocateBytes(m, mem, ptr).mem, d)
  {
    hide Refines, DeallocateBytes, SamePayload, HeapModel.Partitioned, HeapModel.Accounted, HeapModel.Tiled;
    if m.poisoned || ptr < HEADER_SIZE {
      RefusedFreeWritesNothing(m, mem, ptr);
      Untouched(a.heap, mem);
    } else {
      DeallocateWritesOnlyHeader(m, mem, ptr);
      HeaderWritesSparePayload(a.heap, mem, DeallocateBytes(m, mem, ptr).mem, ptr - HEADER_SIZE);
    }
  }

  lemma RefusedFreeWritesNothing(m: Machine, mem: seq<byte>, ptr: nat)
    requires m.poisoned || ptr < HEADER_SIZE
    ensures DeallocateBytes(m, mem, ptr).mem == mem
  {
  }

  // ----- whole runs of a client

  /** What a client does: allocate, free, or use the memory (write payloads, grow it). */
  datatype ClientOp = DoAllocate(size: nat) | DoFree(ptr: nat) | UseMemory(mem: seq<byte>)

  datatype Pair = Pair(machine: Machine, mem: seq<byte>)

  function ClientStep(p: Pair, op: ClientOp): (p': Pair)
  {
    match op
    case DoAllocate(size) => Pair(AllocateBytes(p.machine, p.mem, size).machine, AllocateBytes(p.machine, p.mem, size).mem)
    case DoFree(ptr) => Pair(DeallocateBytes(p.machine, p.mem, ptr).machine, DeallocateBytes(p.machine, p.mem, ptr).mem)
    case UseMemory(mem) => Pair(p.machine, mem)
  }

  function ModelStep(a: Allocator, memSize: nat, op: ClientOp): (a': Allocator)
    requires |a.heap.free| == N_ORDERS && (op.DoFree? ==> Specified(a, op.ptr))
  {
    match op
    case DoAllocate(size) => HeapModel.Allocate(a, size, memSize).0
    case DoFree(ptr) => HeapModel.Deallocate(a, ptr, memSize).0
    case UseMemory(_) => a
  }

  /** The client frees only pointers to chunks and leaves the header bytes of all chunks alone. */
  ghost predicate WellBehaved(p: Pair, a: Allocator, op: ClientOp)
  {
    && |a.heap.free| == N_ORDERS && |p.mem| < U32_LIMIT
    && (op.DoFree? ==> Specified(a, op.ptr))
    && (op.UseMemory? ==>
          && |p.mem| <= |op.mem| < U32_LIMIT
          && forall c <- a.heap.orders :: c + 8 <= |p.mem| ==> p.mem[c..c + 8] == op.mem[c..c + 8])
  }

  ghost predicate WellBehavedRun(p: Pair, a: Allocator, ops: seq<ClientOp>)
    decreases |ops|
  {
    ops == [] || (WellBehaved(p, a, ops[0]) && WellBehavedRun(ClientStep(p, ops[0]), ModelStep(a, |p.mem|, ops[0]), ops[1..]))
  }

  function ClientRun(p: Pair, ops: seq<ClientOp>): (p': Pair)
    decreases |ops|
  {
    if ops == [] then p else ClientRun(ClientStep(p, ops[0]), ops[1..])
  }

  ghost function ModelRun(p: Pair, a: Allocator, ops: seq<ClientOp>): (a': Allocator)
    requires WellBehavedRun(p, a, ops)
    decreases |ops|
  {
    if ops == [] then a else ModelRun(ClientStep(p, ops[0]), ModelStep(a, |p.mem|, ops[0]), ops[1..])
  }

  lemma UseMemorySimulates(m: Machine, mem: seq<byte>, mem': seq<byte>, headers: map<nat, Header>, a: Allocator)
    requires Represents(m, mem, headers, a) && |mem| <= |mem'|
    requires forall c <- a.heap.orders :: c + 8 <= |mem| ==> mem[c..c + 8] == mem'[c..c + 8]
    ensures Represents(m, mem', headers, a)
  {
    hide HeapModel.HeapInv, HeapModel.Accounted;
    if !m.poisoned {
      ClientWritesKeepHeaders(mem, mem', headers);
    }
  }

  lemma StepSimulates(p: Pair, headers: map<nat, Header>, a: Allocator, op: ClientOp) returns (headers': map<nat, Header>)
    requires Represents(p.machine, p.mem, headers, a) && WellBehaved(p, a, op)
    ensures Represents(ClientStep(p, op).machine, ClientStep(p, op).mem, headers', ModelStep(a, |p.mem|, op))
  {
    hide HeapModel.Inv, Refines, AllocateBytes, DeallocateBytes;
    match op {
      case DoAllocate(size) => headers' := AllocateSimulates(p.machine, p.mem, headers, a, size);
      case DoFree(ptr) => headers' := DeallocateSimulates(p.machine, p.mem, headers, a, ptr);
      case UseMemory(mem) =>
        headers' := headers;
        UseMemorySimulates(p.machine, p.mem, mem, headers, a);
    }
  }

  /** Every run of the byte-level allocator under a well-behaved client is represented, step for step,
      by the run of the model, and so keeps the model's heap invariant until a call fails. */
  lemma {:induction false} RunSimulates(p: Pair, headers: map<nat, Header>, a: Allocator, ops: seq<ClientOp>)
    returns (headers': map<nat, Header>)
    requires Represents(p.machine, p.mem, headers, a) && WellBehavedRun(p, a, ops)
    ensures Represents(ClientRun(p, ops).machine, ClientRun(p, ops).mem, headers', ModelRun(p, a, ops))
    ensures !ClientRun(p, ops).machine.poisoned ==> Inv(ModelRun(p, a, ops))
    decreases |ops|
  {
    hide HeapModel.Inv, Refines, ClientStep, ModelStep;
    headers' := headers;
    if ops != [] {
      headers' := StepSimulates(p, headers, a, ops[0]);
      headers' := RunSimulates(ClientStep(p, ops[0]), headers', ModelStep(a, |p.mem|, ops[0]), ops[1..]);
    }
  }

  lemma TakeKeepsChunks(h: Heap, o: nat, memSize: nat, d: nat)
    requires |h.free| == N_ORDERS && o < N_ORDERS && Tiled(h.base, h.bumper, h.orders) && Take(h, o, memSize).Ok? && d in h.orders
    ensures var h' := Take(h, o, memSize).value.heap;
            d in h'.orders && h'.orders[d] == h.orders[d]
  {
    BumperIsFresh(h.base, h.bumper, h.orders);
    hide HeapModel.Tiled;
  }

  /** Chunks stay where they are, with their size. */
  lemma ChunksStay(a: Allocator, memSize: nat, op: ClientOp, d: nat)
    requires |a.heap.free| == N_ORDERS && (op.DoFree? ==> Specified(a, op.ptr)) && (!a.poisoned ==> Inv(a)) && d in a.heap.orders
    ensures var h' := ModelStep(a, memSize, op).heap;
            d in h'.orders && h'.orders[d] == a.heap.orders[d]
  {
    hide HeapModel.Partitioned, HeapModel.Accounted, HeapModel.Tiled, HeapModel.Take;
    if op.DoAllocate? && !a.poisoned {
      var order := OrderFromSize(op.size);
      if order.Ok? && Take(a.heap, order.value, memSize).Ok? {
        TakeKeepsChunks(a.heap, order.value, memSize, d);
      }
    }
  }

  /** The client leaves the payload of a chunk alone. */
  ghost predicate Spares(p: Pair, op: ClientOp, h: Heap, d: nat)
    requires d in h.orders
  {
    op.UseMemory? ==> SamePayload(h, p.mem, op.mem, d)
  }

  ghost predicate SparesAll(p: Pair, ops: seq<ClientOp>, h: Heap, d: nat)
    requires d in h.orders
    decreases |ops|
  {
    ops == [] || (Spares(p, ops[0], h, d) && SparesAll(ClientStep(p, ops[0]), ops[1..], h, d))
  }

  lemma StepPreservesPayload(p: Pair, headers: map<nat, Header>, a: Allocator, op: ClientOp, d: nat)
    requires Represents(p.machine, p.mem, headers, a) && WellBehaved(p, a, op) && d in a.heap.orders && Spares(p, op, a.heap, d)
    ensures SamePayload(a.heap, p.mem, ClientStep(p, op).mem, d)
    ensures var h' := ModelStep(a, |p.mem|, op).heap;
            d in h'.orders && h'.orders[d] == a.heap.orders[d]
  {
    hide HeapModel.Inv, Refines, AllocateBytes, DeallocateBytes, HeapModel.Allocate, HeapModel.Deallocate;
    ChunksStay(a, |p.mem|, op, d);
    match op
    case DoAllocate(size) => AllocatePreservesPayloads(p.machine, p.mem, headers, a, size);
    case DoFree(ptr) => DeallocatePreservesPayloads(p.machine, p.mem, headers, a, ptr);
    case UseMemory(_) =>
  }

  /** The payload of a chunk changes in no run other than by the client's own writes to it. */
  lemma {:induction false} RunPreservesPayload(p: Pair, headers: map<nat, Header>, a: Allocator, ops: seq<ClientOp>, h: Heap, d: nat)
    requires Represents(p.machine, p.mem, headers, a) && WellBehavedRun(p, a, ops)
    requires d in h.orders && d in a.heap.orders && a.heap.orders[d] == h.orders[d] && SparesAll(p, ops, h, d)
    ensures SamePayload(h, p.mem, ClientRun(p, ops).mem, d)
    decreases |ops|
  {
    hide HeapModel.Inv, Refines, AllocateBytes, DeallocateBytes, ModelStep;
    if ops != [] {
      var p', a' := ClientStep(p, ops[0]), ModelStep(a, |p.mem|, ops[0]);
      StepPreservesPayload(p, headers, a, ops[0], d);
      var headers' := StepSimulates(p, headers, a, ops[0]);
      RunPreservesPayload(p', headers', a', ops[1..], h, d);
    }
  }

  // ----- the allocator working in place

  class FreeingBumpHeapAllocator {
    const originalHeapBase: nat
    var bumper: nat
    var heads: Heads
    var poisoned: bool
    var lastObservedMemorySize: nat
    var stats: Stats

    function View(): (m: Machine)
      reads this
    {
      Machine(originalHeapBase, bumper, heads, poisoned, lastObservedMemorySize, stats)
    }

    /** A new allocator represents the empty heap on every memory. */
    constructor (heapBase: nat)
      requires heapBase + ALIGNMENT - 1 < U32_LIMIT
      ensures forall mem :: Represents(View(), mem, map[], New(heapBase))
    {
      var aligned := (heapBase + ALIGNMENT - 1) / ALIGNMENT * ALIGNMENT;
      originalHeapBase := aligned;
      bumper := aligned;
      heads := seq(N_ORDERS, _ => Nil);
      poisoned := false;
      lastObservedMemorySize := 0;
      stats := Stats(0, 0, 0, 0);
      new;
      NewSatisfiesInv(heapBase);
      forall mem
        ensures Represents(View(), mem, map[], New(heapBase))
      {
        assert Refines(New(heapBase).heap, heads, bumper, map[], mem);
      }
    }

    /** Finds a chunk of the order in the bytes of memory and removes it from where it was found. */
    method TakeChunk(mem: array<byte>, o: nat) returns (r: Result<nat>)
      requires o < N_ORDERS
      modifies this`heads, this`bumper
      ensures var pick := PickChunk(old(heads), old(bumper), mem[..], o);
              if pick.Ok? then r == Ok(pick.value.header) && heads == pick.value.heads && bumper == pick.value.bumper
              else r == Err(pick.error) && heads == old(heads) && bumper == old(bumper)
    {
      match heads[o] {
        case Ptr(p) =>
          if p + OrderSize(o) + HEADER_SIZE >= U32_LIMIT {
            return Err(Panicked("overflow"));
          }
          if p + OrderSize(o) + HEADER_SIZE > mem.Length {
            return Err(Panicked("only valid values are inserted into free lists"));
          }
          // The bounds just checked make the read succeed.
          var raw := ReadLeU64(mem, p);
          var header := DecodeHeader(raw.value);
          if header.Err? {
            return Err(header.error);
          }
          if header.value.Occupied? {
            return Err(Other("free list points to a occupied header"));
          }
          heads := heads[o := header.value.link];
          r := Ok(p);
        case Nil =>
          var size := OrderSize(o) + HEADER_SIZE;
          if bumper + size >= U32_LIMIT {
            return Err(Panicked("overflow"));
          }
          if bumper + size > mem.Length {
            return Err(AllocatorOutOfSpace);
          }
          r := Ok(bumper);
          bumper := bumper + size;
      }
    }

    /** Serves a request. The poison flag is raised on entry and lowered only on success, so that every
        early return leaves it raised. */
    method Allocate(mem: array<byte>, size: nat) returns (r: Result<nat>)
      requires mem.Length < U32_LIMIT
      modifies this, mem
      ensures Outcome(View(), mem[..], r) == AllocateBytes(old(View()), old(mem[..]), size)
    {
      hide PickChunk, WriteBytes, EncodeHeader, LeBytes;
      if poisoned {
        return Err(Poisoned);
      }
      poisoned := true;

      if mem.Length < lastObservedMemorySize {
        return Err(MemoryShrinked);
      }
      lastObservedMemorySize := mem.Length;

      var order := OrderFromSize(size);
      if order.Err? {
        return Err(order.error);
      }
      var o := order.value;
      var taken := TakeChunk(mem, o);
      if taken.Err? {
        return Err(taken.error);
      }
      var header := taken.value;

      var written := WriteLeU64(mem, header, EncodeHeader(Occupied(o)));
      if written.Err? {
        return Err(written.error);
      }

      var span := OrderSize(o) + HEADER_SIZE;
      if stats.inUse + span >= U32_LIMIT || bumper < originalHeapBase {
        return Err(Panicked("overflow"));
      }
      var inUse := stats.inUse + span;
      stats := Stats(inUse, if inUse > stats.peak then inUse else stats.peak, stats.total + span, bumper - originalHeapBase);

      poisoned := false;
      r := Ok(header + HEADER_SIZE);
    }

    method Deallocate(mem: array<byte>, ptr: nat) returns (r: Result<()>)
      requires mem.Length < U32_LIMIT
      modifies this, mem
      ensures Outcome(View(), mem[..], r) == DeallocateBytes(old(View()), old(mem[..]), ptr)
    {
      hide WriteBytes, EncodeHeader, LeBytes, FromLe;
      if poisoned {
        return Err(Poisoned);
      }
      poisoned := true;

      if mem.Length < lastObservedMemorySize {
        return Err(MemoryShrinked);
      }
      lastObservedMemorySize := mem.Length;

      if ptr < HEADER_SIZE {
        return Err(Other("Invalid pointer for deallocation"));
      }
      var c := ptr - HEADER_SIZE;
      var raw := ReadLeU64(mem, c);
      if raw.Err? {
        return Err(raw.error);
      }
      var header := DecodeHeader(raw.value);
      if header.Err? {
        return Err(header.error);
      }
      if header.value.Free? {
        return Err(Other("the allocation points to an empty header"));
      }
      var o := header.value.order;

      var prevHead := heads[o];
      heads := heads[o := Ptr(c)];
      var _ := WriteLeU64(mem, c, EncodeHeader(Free(prevHead)));

      if OrderSize(o) + HEADER_SIZE > stats.inUse {
        return Err(Other("underflow of the currently allocated bytes count"));
      }
      stats := stats.(inUse := stats.inUse - (OrderSize(o) + HEADER_SIZE));

      poisoned := false;
      r := Ok(());
    }
  }
}
