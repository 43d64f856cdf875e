/** The heap of the freeing-bump allocator as a value: which chunks exist, which are live, and the
    contents of each free list. Allocation and deallocation are functions on it. */
module HeapModel {
  import opened Basics
  import opened HeapLayout

  /** `orders` gives the order of the chunk at each header address, live or free;
      `free[o]` lists the free chunks of order `o`, most recently freed first. */
  datatype Heap = Heap(base: nat, bumper: nat, orders: map<nat, nat>, live: set<nat>, free: seq<seq<nat>>)

  datatype Stats = Stats(inUse: nat, peak: nat, total: nat, space: nat)

  datatype Allocator = Allocator(heap: Heap, poisoned: bool, seen: nat, stats: Stats)

  // ----- the heap invariant

  ghost predicate InChunk(orders: map<nat, nat>, c: nat, a: nat)
  {
    c in orders && c <= a < c + Span(orders[c])
  }

  ghost predicate Covered(orders: map<nat, nat>, a: nat)
  {
    exists c :: InChunk(orders, c, a)
  }

  /** The chunks are aligned, pairwise disjoint, and fill [base, bumper) without gaps. */
  ghost predicate Tiled(base: nat, bumper: nat, orders: map<nat, nat>)
  {
    && base % ALIGNMENT == 0 && base <= bumper && bumper % ALIGNMENT == 0
    && (forall c <- orders ::
          orders[c] < N_ORDERS && c % ALIGNMENT == 0 && base <= c && c + Span(orders[c]) <= bumper)
    && (forall c <- orders, d <- orders :: c < d ==> c + Span(orders[c]) <= d)
    && (forall a: nat :: base <= a < bumper ==> Covered(orders, a))
  }

  /** A free list of order `o`: chunks of that order that are not live, each once. */
  ghost predicate FreeList(orders: map<nat, nat>, live: set<nat>, o: nat, list: seq<nat>)
  {
    Distinct(list) && forall c <- list :: c in orders && orders[c] == o && c !in live
  }

  /** Every chunk is either live or on exactly one free list, the one of its order, exactly once. */
  ghost predicate Partitioned(h: Heap)
  {
    && |h.free| == N_ORDERS
    && (forall c <- h.live :: c in h.orders)
    && (forall o :: 0 <= o < N_ORDERS ==> FreeList(h.orders, h.live, o, h.free[o]))
    && (forall c <- h.orders :: c in h.live || (h.orders[c] < N_ORDERS && c in h.free[h.orders[c]]))
  }

  ghost predicate HeapInv(h: Heap)
  {
    Tiled(h.base, h.bumper, h.orders) && Partitioned(h)
  }

  // ----- sizes of sets of chunks

  ghost function SpanSum(orders: map<nat, nat>, s: set<nat>): (n: nat)
    requires s <= orders.Keys
  {
    if s == {} then 0 else
      var c :| c in s;
      Span(orders[c]) + SpanSum(orders, s - {c})
  }

  lemma {:induction false} SpanSumInsert(orders: map<nat, nat>, s: set<nat>, c: nat)
    requires s <= orders.Keys && c in orders && c !in s
    ensures SpanSum(orders, s + {c}) == SpanSum(orders, s) + Span(orders[c])
    decreases |s|
  {
    var t := s + {c};
    var d :| d in t && SpanSum(orders, t) == Span(orders[d]) + SpanSum(orders, t - {d});
    if d == c {
      assert t - {d} == s;
    } else {
      var u := s - {d};
      assert t - {d} == u + {c};
      SpanSumInsert(orders, u, c);
      assert s == u + {d};
      SpanSumInsert(orders, u, d);
    }
  }

  lemma {:induction false} SpanSumExtend(orders: map<nat, nat>, s: set<nat>, c: nat, o: nat)
    requires s <= orders.Keys && c !in s
    ensures SpanSum(orders[c := o], s) == SpanSum(orders, s)
    decreases |s|
  {
    if s != {} {
      var d :| d in s;
      var u := s - {d};
      assert s == u + {d};
      SpanSumExtend(orders, u, c, o);
      SpanSumInsert(orders, u, d);
      SpanSumInsert(orders[c := o], u, d);
    }
  }

  lemma {:induction false} SpanSumMonotone(orders: map<nat, nat>, s: set<nat>, t: set<nat>)
    requires s <= t <= orders.Keys
    ensures SpanSum(orders, s) <= SpanSum(orders, t)
    decreases |t - s|
  {
    if t <= s {
      assert s == t;
    } else {
      var c :| c in t && c !in s;
      SpanSumInsert(orders, s, c);
      SpanSumMonotone(orders, s + {c}, t);
    }
  }

  // ----- the allocator invariant

  /** The counters agree with the chunks: live bytes, and all bytes handed out by the bump pointer. */
  ghost predicate Accounted(h: Heap, s: Stats)
  {
    && h.live <= h.orders.Keys
    && h.base <= h.bumper
    && SpanSum(h.orders, h.orders.Keys) == h.bumper - h.base
    && s.space == h.bumper - h.base
    && s.inUse == SpanSum(h.orders, h.live)
    && s.inUse <= s.peak <= s.total
  }

  /** What holds between calls of an allocator that has not been poisoned. */
  ghost predicate Inv(a: Allocator)
  {
    && HeapInv(a.heap)
    && Accounted(a.heap, a.stats)
    && a.heap.bumper <= (if a.seen > a.heap.base then a.seen else a.heap.base)
    && a.seen < U32_LIMIT
  }

  ghost predicate GoodState(a: Allocator)
  {
    !a.poisoned ==> Inv(a)
  }

  function New(heapBase: nat): (a: Allocator)
  {
    var base := (heapBase + ALIGNMENT - 1) / ALIGNMENT * ALIGNMENT;
    Allocator(Heap(base, base, map[], {}, seq(N_ORDERS, _ => [])), false, 0, Stats(0, 0, 0, 0))
  }

  // ----- allocate

  function PopFree(h: Heap, order: nat): (h': Heap)
    requires order < |h.free| && h.free[order] != []
  {
    h.(live := h.live + {h.free[order][0]}, free := h.free[order := h.free[order][1..]])
  }

  function Bump(h: Heap, order: nat): (h': Heap)
  {
    h.(bumper := h.bumper + Span(order), orders := h.orders[h.bumper := order], live := h.live + {h.bumper})
  }

  function PushFree(h: Heap, c: nat): (h': Heap)
    requires c in h.orders && h.orders[c] < |h.free|
  {
    var o := h.orders[c];
    h.(live := h.live - {c}, free := h.free[o := [c] + h.free[o]])
  }

  function Poison<T>(a: Allocator, e: Error): (r: (Allocator, Result<T>))
  {
    (a.(poisoned := true), Err(e))
  }

  function CountAllocation(a: Allocator, h: Heap, span: nat): (a': Allocator)
  {
    var inUse := a.stats.inUse + span;
    var peak := if inUse > a.stats.peak then inUse else a.stats.peak;
    a.(heap := h, stats := Stats(inUse, peak, a.stats.total + span, if h.bumper >= h.base then h.bumper - h.base else 0))
  }

  datatype Taken = Taken(heap: Heap, header: nat)

  /** Finds a chunk for an order: the head of its free list, else a new chunk from the bump pointer. */
  function Take(h: Heap, order: nat, memSize: nat): (r: Result<Taken>)
    requires order < |h.free|
  {
    if h.free[order] != [] then Ok(Taken(PopFree(h, order), h.free[order][0]))
    else if h.bumper + Span(order) >= U32_LIMIT then Err(Panicked("overflow"))
    else if h.bumper + Span(order) > memSize then Err(AllocatorOutOfSpace)
    else Ok(Taken(Bump(h, order), h.bumper))
  }

  function Allocate(a: Allocator, size: nat, memSize: nat): (r: (Allocator, Result<nat>))
    requires |a.heap.free| == N_ORDERS
  {
    if a.poisoned then (a, Err(Poisoned))
    else if memSize < a.seen then Poison(a, MemoryShrinked)
    else
      var a1 := a.(seen := memSize);
      var o := OrderFromSize(size);
      if o.Err? then Poison(a1, o.error)
      else
        var taken := Take(a.heap, o.value, memSize);
        if taken.Err? then Poison(a1, taken.error)
        else (CountAllocation(a1, taken.value.heap, Span(o.value)), Ok(taken.value.header + HEADER_SIZE))
  }

  // ----- deallocate

  /** Freeing is specified for pointers that are too small to have a header and for pointers to the
      payload of a chunk, live or already free; any other pointer makes the allocator read a word the
      client may have written. */
  predicate Specified(a: Allocator, ptr: nat)
  {
    a.poisoned || ptr < HEADER_SIZE || ptr - HEADER_SIZE in a.heap.orders
  }

  function Deallocate(a: Allocator, ptr: nat, memSize: nat): (r: (Allocator, Result<()>))
    requires Specified(a, ptr) && |a.heap.free| == N_ORDERS
  {
    if a.poisoned then (a, Err(Poisoned))
    else if memSize < a.seen then Poison(a, MemoryShrinked)
    else
      var a1 := a.(seen := memSize);
      if ptr < HEADER_SIZE then Poison(a1, Other("Invalid pointer for deallocation"))
      else
        var c := ptr - HEADER_SIZE;
        if c !in a.heap.live then Poison(a1, Other("the allocation points to an empty header"))
        else if a.heap.orders[c] >= N_ORDERS then Poison(a1, Other("invalid order"))
        else
          var span := Span(a.heap.orders[c]);
          if span > a.stats.inUse then
            Poison(a1, Other("underflow of the currently allocated bytes count"))
          else
            (a1.(heap := PushFree(a.heap, c), stats := a.stats.(inUse := a.stats.inUse - span)), Ok(()))
  }

  // ----- every operation keeps the invariant

  lemma PopFreeKeepsInv(h: Heap, order: nat)
    requires HeapInv(h) && order < N_ORDERS && h.free[order] != []
    ensures HeapInv(PopFree(h, order))
    ensures h.free[order][0] in h.orders && h.orders[h.free[order][0]] == order && h.free[order][0] !in h.live
  {
  }

  lemma PushFreeKeepsInv(h: Heap, c: nat)
    requires HeapInv(h) && c in h.live
    ensures c in h.orders && h.orders[c] < N_ORDERS
    ensures HeapInv(PushFree(h, c))
  {
  }

  lemma BumperIsFresh(base: nat, bumper: nat, orders: map<nat, nat>)
    requires Tiled(base, bumper, orders)
    ensures bumper !in orders
  {
  }

  lemma TiledExtend(base: nat, bumper: nat, orders: map<nat, nat>, order: nat)
    requires Tiled(base, bumper, orders) && order < N_ORDERS
    ensures Tiled(base, bumper + Span(order), orders[bumper := order])
  {
    SpanBounds(order);
    BumperIsFresh(base, bumper, orders);
    var orders' := orders[bumper := order];
    forall a: nat | base <= a < bumper + Span(order)
      ensures Covered(orders', a)
    {
      if a < bumper {
        assert Covered(orders, a);
        var c :| InChunk(orders, c, a);
        assert InChunk(orders', c, a);
      } else {
        assert InChunk(orders', bumper, a);
      }
    }
  }

  lemma BumpKeepsInv(h: Heap, order: nat)
    requires HeapInv(h) && order < N_ORDERS
    ensures h.bumper !in h.orders
    ensures HeapInv(Bump(h, order))
  {
    BumperIsFresh(h.base, h.bumper, h.orders);
    TiledExtend(h.base, h.bumper, h.orders, order);
    BumpPartitions(h, order);
  }

  lemma BumpPartitions(h: Heap, order: nat)
    requires Partitioned(h) && h.bumper !in h.orders
    ensures Partitioned(Bump(h, order))
  {
    var h' := Bump(h, order);
    forall o | 0 <= o < N_ORDERS
      ensures FreeList(h'.orders, h'.live, o, h'.free[o])
    {
      assert FreeList(h.orders, h.live, o, h.free[o]);
    }
  }

  /** Live and free bytes together are exactly the address space used, so neither counter can overflow. */
  lemma LiveBytesBounded(a: Allocator)
    requires Inv(a)
    ensures a.stats.inUse <= a.stats.space == a.heap.bumper - a.heap.base
    ensures a.stats.space < U32_LIMIT
  {
    SpanSumMonotone(a.heap.orders, a.heap.live, a.heap.orders.Keys);
  }

  lemma CountNewLive(a: Allocator, h: Heap, c: nat)
    requires c in h.orders && c !in a.heap.live && a.heap.live <= h.orders.Keys
    requires h.live == a.heap.live + {c} && h.base <= h.bumper
    requires SpanSum(h.orders, a.heap.live) == a.stats.inUse <= a.stats.peak <= a.stats.total
    requires SpanSum(h.orders, h.orders.Keys) == h.bumper - h.base
    ensures Accounted(h, CountAllocation(a, h, Span(h.orders[c])).stats)
  {
    SpanSumInsert(h.orders, a.heap.live, c);
  }

  lemma BumpSums(h: Heap, o: nat)
    requires h.bumper !in h.orders && h.live <= h.orders.Keys && h.base <= h.bumper
    requires SpanSum(h.orders, h.orders.Keys) == h.bumper - h.base
    ensures var h' := Bump(h, o);
            && SpanSum(h'.orders, h'.orders.Keys) == h'.bumper - h'.base
            && SpanSum(h'.orders, h.live) == SpanSum(h.orders, h.live)
  {
    var c, orders' := h.bumper, h.orders[h.bumper := o];
    SpanSumExtend(h.orders, h.live, c, o);
    SpanSumExtend(h.orders, h.orders.Keys, c, o);
    SpanSumInsert(orders', h.orders.Keys, c);
    assert orders'.Keys == h.orders.Keys + {c};
  }

  lemma PopFreeAccounts(a: Allocator, o: nat)
    requires Inv(a) && o < N_ORDERS && a.heap.free[o] != []
    ensures Inv(CountAllocation(a, PopFree(a.heap, o), Span(o)))
  {
    PopFreeKeepsInv(a.heap, o);
    CountNewLive(a, PopFree(a.heap, o), a.heap.free[o][0]);
  }

  lemma BumpAccounts(a: Allocator, o: nat)
    requires Inv(a) && o < N_ORDERS && a.heap.bumper + Span(o) <= a.seen
    ensures Inv(CountAllocation(a, Bump(a.heap, o), Span(o)))
  {
    BumpKeepsInv(a.heap, o);
    BumpSums(a.heap, o);
    CountNewLive(a, Bump(a.heap, o), a.heap.bumper);
  }

  lemma AllocateKeepsInv(a: Allocator, size: nat, memSize: nat)
    requires GoodState(a) && |a.heap.free| == N_ORDERS && memSize < U32_LIMIT
    ensures GoodState(Allocate(a, size, memSize).0)
    ensures |Allocate(a, size, memSize).0.heap.free| == N_ORDERS
    ensures Allocate(a, size, memSize).0.poisoned <==> Allocate(a, size, memSize).1.Err?
  {
    if !a.poisoned && memSize >= a.seen && size <= MAX_POSSIBLE_ALLOCATION {
      var o := OrderFromSize(size).value;
      if a.heap.free[o] != [] {
        PopFreeAccounts(a.(seen := memSize), o);
      } else if a.heap.bumper + Span(o) <= memSize {
        BumpAccounts(a.(seen := memSize), o);
      }
    }
  }

  lemma UncountLive(h: Heap, s: Stats, c: nat)
    requires Accounted(h, s) && c in h.live && h.orders[c] < |h.free|
    ensures Span(h.orders[c]) <= s.inUse
    ensures Accounted(PushFree(h, c), s.(inUse := s.inUse - Span(h.orders[c])))
  {
    SpanSumInsert(h.orders, h.live - {c}, c);
    assert h.live - {c} + {c} == h.live;
  }

  lemma PushFreeAccounts(a: Allocator, c: nat)
    requires Inv(a) && c in a.heap.live
    ensures c in a.heap.orders && a.heap.orders[c] < N_ORDERS && Span(a.heap.orders[c]) <= a.stats.inUse
    ensures Inv(a.(heap := PushFree(a.heap, c), stats := a.stats.(inUse := a.stats.inUse - Span(a.heap.orders[c]))))
  {
    PushFreeKeepsInv(a.heap, c);
    UncountLive(a.heap, a.stats, c);
  }

  lemma DeallocateKeepsInv(a: Allocator, ptr: nat, memSize: nat)
    requires GoodState(a) && |a.heap.free| == N_ORDERS && Specified(a, ptr) && memSize < U32_LIMIT
    ensures GoodState(Deallocate(a, ptr, memSize).0)
    ensures |Deallocate(a, ptr, memSize).0.heap.free| == N_ORDERS
    ensures Deallocate(a, ptr, memSize).0.poisoned <==> Deallocate(a, ptr, memSize).1.Err?
  {
    if !a.poisoned && memSize >= a.seen && ptr >= HEADER_SIZE && ptr - HEADER_SIZE in a.heap.live {
      PushFreeAccounts(a.(seen := memSize), ptr - HEADER_SIZE);
    }
  }

  /** On a memory that has not shrunk, freeing succeeds exactly for live chunks: the underflow check
      never fires, and a second free of the same chunk is detected. */
  lemma DeallocateSucceedsExactlyOnLive(a: Allocator, ptr: nat, memSize: nat)
    requires !a.poisoned && Inv(a) && Specified(a, ptr) && a.seen <= memSize
    ensures Deallocate(a, ptr, memSize).1.Ok? <==> ptr >= HEADER_SIZE && ptr - HEADER_SIZE in a.heap.live
  {
    if ptr >= HEADER_SIZE && ptr - HEADER_SIZE in a.heap.live {
      PushFreeAccounts(a, ptr - HEADER_SIZE);
    }
  }

  // ----- what a successful allocation hands out

  ghost predicate Disjoint(p: nat, n: nat, q: nat, m: nat)
  {
    p + n <= q || q + m <= p
  }

  /** Chunk `c` of order `o` is newly live in `h'`: aligned, inside the heap and the memory, and
      overlapping no other chunk, live or free. */
  ghost predicate FreshChunk(h: Heap, h': Heap, c: nat, o: nat, memSize: nat)
  {
    && c % ALIGNMENT == 0 && h.base <= c && c + Span(o) <= memSize
    && c !in h.live && h'.live == h.live + {c}
    && c in h'.orders && h'.orders[c] == o
    && (forall d <- h'.orders :: d != c ==> Disjoint(c, Span(o), d, Span(h'.orders[d])))
  }

  lemma PopFreeIsFresh(h: Heap, o: nat, memSize: nat)
    requires HeapInv(h) && o < N_ORDERS && h.free[o] != [] && (h.bumper <= memSize || h.orders == map[])
    ensures FreshChunk(h, PopFree(h, o), h.free[o][0], o, memSize)
  {
  }

  lemma BumpIsFresh(h: Heap, o: nat, memSize: nat)
    requires HeapInv(h) && o < N_ORDERS && h.bumper + Span(o) <= memSize
    ensures FreshChunk(h, Bump(h, o), h.bumper, o, memSize)
  {
  }

  lemma NoChunksBelowBase(h: Heap)
    requires HeapInv(h) && h.bumper == h.base
    ensures h.orders == map[]
  {
  }

  lemma MemoryHoldsChunks(a: Allocator, memSize: nat)
    requires Inv(a) && a.seen <= memSize
    ensures a.heap.bumper <= memSize || a.heap.orders == map[]
  {
    if a.heap.bumper == a.heap.base {
      NoChunksBelowBase(a.heap);
    }
  }

  lemma TakeReturnsFreshChunk(h: Heap, o: nat, memSize: nat)
    requires HeapInv(h) && o < N_ORDERS && (h.bumper <= memSize || h.orders == map[])
    requires Take(h, o, memSize).Ok?
    ensures FreshChunk(h, Take(h, o, memSize).value.heap, Take(h, o, memSize).value.header, o, memSize)
  {
    if h.free[o] != [] {
      PopFreeIsFresh(h, o, memSize);
    } else {
      BumpIsFresh(h, o, memSize);
    }
  }

  ghost predicate SmallestFit(size: nat, order: nat)
  {
    size <= OrderSize(order) && forall o: nat :: size <= OrderSize(o) ==> order <= o
  }

  lemma AllocateTakes(a: Allocator, size: nat, memSize: nat)
    requires !a.poisoned && |a.heap.free| == N_ORDERS
    requires Allocate(a, size, memSize).1.Ok?
    ensures a.seen <= memSize && OrderFromSize(size).Ok?
    ensures var taken := Take(a.heap, OrderFromSize(size).value, memSize);
            && taken.Ok?
            && Allocate(a, size, memSize).0.heap == taken.value.heap
            && Allocate(a, size, memSize).1.value == taken.value.header + HEADER_SIZE
    ensures SmallestFit(size, OrderFromSize(size).value)
  {
    OrderFromSizeIsSmallest(size);
  }

  /** The returned pointer is eight bytes into a fresh chunk, whose order is the smallest that fits the request. */
  lemma AllocateReturnsFreshChunk(a: Allocator, size: nat, memSize: nat)
    requires !a.poisoned && Inv(a)
    requires Allocate(a, size, memSize).1.Ok?
    ensures var (a', r) := Allocate(a, size, memSize);
            var o := OrderFromSize(size);
            o.Ok? && SmallestFit(size, o.value) && r.value >= 8
            && FreshChunk(a.heap, a'.heap, r.value - 8, o.value, memSize)
  {
    AllocateTakes(a, size, memSize);
    MemoryHoldsChunks(a, memSize);
    TakeReturnsFreshChunk(a.heap, OrderFromSize(size).value, memSize);
  }

  /** A request fails, on a memory that has not shrunk, exactly when it is too large or when no chunk of
      its order is free and the unused part of the memory cannot hold a new one. */
  lemma AllocateFailsExactlyWhenFull(a: Allocator, size: nat, memSize: nat)
    requires !a.poisoned && Inv(a) && a.seen <= memSize < U32_LIMIT
    ensures Allocate(a, size, memSize).1.Err? <==>
            || size > MAX_POSSIBLE_ALLOCATION
            || (a.heap.free[OrderFromSize(size).value] == [] && a.heap.bumper + Span(OrderFromSize(size).value) > memSize)
    ensures a.heap.bumper + MAX_POSSIBLE_ALLOCATION + HEADER_SIZE < U32_LIMIT ==>
              !(Allocate(a, size, memSize).1.Err? && Allocate(a, size, memSize).1.error.Panicked?)
  {
    if size <= MAX_POSSIBLE_ALLOCATION {
      SpanBounds(OrderFromSize(size).value);
    }
  }

  /** A freed chunk is the next one handed out for its order. */
  lemma FreedChunkIsReused(a: Allocator, ptr: nat, size: nat, memSize: nat)
    requires !a.poisoned && Inv(a) && a.seen <= memSize < U32_LIMIT
    requires ptr >= HEADER_SIZE && ptr - HEADER_SIZE in a.heap.live
    requires OrderFromSize(size) == Ok(a.heap.orders[ptr - HEADER_SIZE])
    ensures var (freed, r) := Deallocate(a, ptr, memSize);
            && r == Ok(())
            && |freed.heap.free| == N_ORDERS
            && Allocate(freed, size, memSize).1 == Ok(ptr)
            && Allocate(freed, size, memSize).0.heap == a.heap
  {
    DeallocateSucceedsExactlyOnLive(a, ptr, memSize);
    var c := ptr - HEADER_SIZE;
    var o := a.heap.orders[c];
    var freed := Deallocate(a, ptr, memSize).0;
    assert freed.heap.free[o][1..] == a.heap.free[o];
    assert freed.heap.free[o := a.heap.free[o]] == a.heap.free;
    assert freed.heap.live + {c} == a.heap.live;
  }

  // ----- runs

  datatype Op = Alloc(size: nat, memSize: nat) | Dealloc(ptr: nat, memSize: nat)

  predicate Allowed(a: Allocator, op: Op)
  {
    && |a.heap.free| == N_ORDERS
    && op.memSize < U32_LIMIT
    && (op.Dealloc? ==> Specified(a, op.ptr))
  }

  function Step(a: Allocator, op: Op): (a': Allocator)
    requires Allowed(a, op)
  {
    match op
    case Alloc(size, memSize) => Allocate(a, size, memSize).0
    case Dealloc(ptr, memSize) => Deallocate(a, ptr, memSize).0
  }

  predicate Failed(a: Allocator, op: Op)
    requires Allowed(a, op)
  {
    match op
    case Alloc(size, memSize) => Allocate(a, size, memSize).1.Err?
    case Dealloc(ptr, memSize) => Deallocate(a, ptr, memSize).1.Err?
  }

  predicate AllowedRun(a: Allocator, ops: seq<Op>)
    decreases |ops|
  {
    ops == [] || (Allowed(a, ops[0]) && AllowedRun(Step(a, ops[0]), ops[1..]))
  }

  function Run(a: Allocator, ops: seq<Op>): (a': Allocator)
    requires AllowedRun(a, ops)
    decreases |ops|
  {
    if ops == [] then a else Run(Step(a, ops[0]), ops[1..])
  }

  lemma StepKeepsInv(a: Allocator, op: Op)
    requires GoodState(a) && Allowed(a, op)
    ensures GoodState(Step(a, op)) && |Step(a, op).heap.free| == N_ORDERS
    ensures Step(a, op).poisoned <==> Failed(a, op)
  {
    match op
    case Alloc(size, memSize) => AllocateKeepsInv(a, size, memSize);
    case Dealloc(ptr, memSize) => DeallocateKeepsInv(a, ptr, memSize);
  }

  /** Whatever the client allocates and frees, an allocator that has not failed keeps the heap invariant. */
  lemma {:induction false} RunKeepsInv(a: Allocator, ops: seq<Op>)
    requires GoodState(a) && AllowedRun(a, ops)
    ensures GoodState(Run(a, ops))
    decreases |ops|
  {
    if ops != [] {
      StepKeepsInv(a, ops[0]);
      RunKeepsInv(Step(a, ops[0]), ops[1..]);
    }
  }

  lemma NewSatisfiesInv(heapBase: nat)
    ensures Inv(New(heapBase)) && !New(heapBase).poisoned
    ensures heapBase <= New(heapBase).heap.base < heapBase + ALIGNMENT
  {
  }

  ghost predicate SomeCallFailed(a: Allocator, ops: seq<Op>)
    requires AllowedRun(a, ops)
    decreases |ops|
  {
    ops != [] && (Failed(a, ops[0]) || SomeCallFailed(Step(a, ops[0]), ops[1..]))
  }

  /** An allocator is poisoned exactly when some call of the run has failed, and then every further call fails. */
  lemma {:induction false} PoisonedExactlyAfterFailure(a: Allocator, ops: seq<Op>, next: Op)
    requires GoodState(a) && AllowedRun(a, ops)
    requires Allowed(Run(a, ops), next)
    ensures Run(a, ops).poisoned <==> a.poisoned || SomeCallFailed(a, ops)
    ensures Run(a, ops).poisoned ==> Failed(Run(a, ops), next) && Step(Run(a, ops), next) == Run(a, ops)
    decreases |ops|
  {
    if ops != [] {
      StepKeepsInv(a, ops[0]);
      PoisonedExactlyAfterFailure(Step(a, ops[0]), ops[1..], next);
    }
  }

  // ----- what the counters mean over a run

  /** The largest number of bytes in use after any call of the run. */
  function HighWaterMark(a: Allocator, ops: seq<Op>): (n: nat)
    requires AllowedRun(a, ops)
    decreases |ops|
  {
    if ops == [] then a.stats.inUse
    else Max(a.stats.inUse, HighWaterMark(Step(a, ops[0]), ops[1..]))
  }

  /** The bytes of all chunks handed out during the run, headers included. */
  function HandedOut(a: Allocator, ops: seq<Op>): (n: nat)
    requires AllowedRun(a, ops)
    decreases |ops|
  {
    if ops == [] then 0
    else
      (if ops[0].Alloc? && !Failed(a, ops[0]) then Span(OrderFromSize(ops[0].size).value) else 0)
      + HandedOut(Step(a, ops[0]), ops[1..])
  }

  lemma CountersAllocate(a: Allocator, size: nat, memSize: nat)
    requires |a.heap.free| == N_ORDERS && a.stats.inUse <= a.stats.peak
    ensures var (a', r) := Allocate(a, size, memSize);
            && a'.stats.inUse <= a'.stats.peak == Max(a.stats.peak, a'.stats.inUse)
            && a'.stats.total == a.stats.total + (if r.Ok? then Span(OrderFromSize(size).value) else 0)
  {
    var o := OrderFromSize(size);
    if !a.poisoned && memSize >= a.seen && o.Ok? {
      var taken := Take(a.heap, o.value, memSize);
      assert taken.Ok? ==> Allocate(a, size, memSize).0 == CountAllocation(a.(seen := memSize), taken.value.heap, Span(o.value));
    }
  }

  lemma CountersStep(a: Allocator, op: Op)
    requires Allowed(a, op) && a.stats.inUse <= a.stats.peak
    ensures Step(a, op).stats.inUse <= Step(a, op).stats.peak == Max(a.stats.peak, Step(a, op).stats.inUse)
    ensures Step(a, op).stats.total ==
            a.stats.total + (if op.Alloc? && !Failed(a, op) then Span(OrderFromSize(op.size).value) else 0)
  {
    if op.Alloc? {
      CountersAllocate(a, op.size, op.memSize);
    }
  }

  lemma {:induction false} CountersOverRun(a: Allocator, ops: seq<Op>)
    requires AllowedRun(a, ops) && a.stats.inUse <= a.stats.peak
    ensures Run(a, ops).stats.peak == Max(a.stats.peak, HighWaterMark(a, ops))
    ensures Run(a, ops).stats.total == a.stats.total + HandedOut(a, ops)
    decreases |ops|
  {
    if ops != [] {
      CountersStep(a, ops[0]);
      var a', rest := Step(a, ops[0]), ops[1..];
      CountersOverRun(a', rest);
      InUseBelowHighWater(a', rest);
    }
  }

  lemma InUseBelowHighWater(a: Allocator, ops: seq<Op>)
    requires AllowedRun(a, ops)
    ensures a.stats.inUse <= HighWaterMark(a, ops)
  {
  }
}
