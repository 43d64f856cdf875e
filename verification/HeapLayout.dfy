/** Sizes, links and headers of the freeing-bump allocator, with their encoding in linear memory. */
module HeapLayout {
  import opened Basics
  import opened PowerOfTwo

  const U32_LIMIT: nat := 0x1_0000_0000
  const ALIGNMENT: nat := 8
  const HEADER_SIZE: nat := 8
  const N_ORDERS: nat := 23
  const MIN_POSSIBLE_ALLOCATION: nat := 8
  const MAX_POSSIBLE_ALLOCATION: nat := 0x200_0000
  const NIL_MARKER: nat := 0xFFFF_FFFF

  datatype Error =
    | Poisoned
    | MemoryShrinked
    | RequestedAllocationTooLarge
    | AllocatorOutOfSpace
    | Other(reason: string)
    // A panic of the allocator: a failed assertion or an arithmetic overflow.
    | Panicked(reason: string)

  datatype Result<+T> = Ok(value: T) | Err(error: Error)

  // ----- orders

  /** Bytes of payload in a chunk of the given order: `8 << order`. */
  function OrderSize(order: nat): (s: nat)
  {
    MIN_POSSIBLE_ALLOCATION * Pow2(order)
  }

  /** Bytes a chunk of the given order takes, header included. */
  function Span(order: nat): (s: nat)
  {
    OrderSize(order) + HEADER_SIZE
  }

  function OrderFromRaw(raw: nat): (r: Result<nat>)
  {
    if raw < N_ORDERS then Ok(raw) else Err(Other("invalid order"))
  }

  lemma MaxIsPow2()
    ensures MAX_POSSIBLE_ALLOCATION == Pow2(25)
    ensures MIN_POSSIBLE_ALLOCATION == Pow2(3)
  {
    assert Pow2(5) == 32;
    assert Pow2(10) == 1024;
    assert Pow2(15) == 32768;
    assert Pow2(20) == 1048576;
    assert Pow2(25) == 33554432;
  }

  /** The exponent of a clamped request, rounded up, lies between those of the smallest and the largest chunk. */
  lemma ClampedExponent(clamped: nat)
    requires MIN_POSSIBLE_ALLOCATION <= clamped <= MAX_POSSIBLE_ALLOCATION
    ensures TrailingZeros(MIN_POSSIBLE_ALLOCATION) == 3
    ensures var k := TrailingZeros(NextPowerOfTwo(clamped));
            && 3 <= k <= 25
            && clamped <= Pow2(k)
            && forall j: nat :: clamped <= Pow2(j) ==> k <= j
  {
    MaxIsPow2();
    var k := NextPowerOfTwoIsLeast(clamped);
    TrailingZerosOfPow2(k);
    TrailingZerosOfPow2(3);
    if k < 3 {
      Pow2Monotone(k, 3);
    }
  }

  function OrderFromSize(size: nat): (r: Result<nat>)
    ensures r.Ok? <==> size <= MAX_POSSIBLE_ALLOCATION
    ensures r.Ok? ==> r.value < N_ORDERS
  {
    if size > MAX_POSSIBLE_ALLOCATION then
      Err(RequestedAllocationTooLarge)
    else
      var clamped := if size < MIN_POSSIBLE_ALLOCATION then MIN_POSSIBLE_ALLOCATION else size;
      ClampedExponent(clamped);
      Ok(TrailingZeros(NextPowerOfTwo(clamped)) - TrailingZeros(MIN_POSSIBLE_ALLOCATION))
  }

  /** A request up to 32 MiB gets the smallest order whose chunk holds it. */
  lemma OrderFromSizeIsSmallest(size: nat)
    requires size <= MAX_POSSIBLE_ALLOCATION
    ensures size <= OrderSize(OrderFromSize(size).value)
    ensures forall o: nat :: size <= OrderSize(o) ==> OrderFromSize(size).value <= o
  {
    var clamped := if size < MIN_POSSIBLE_ALLOCATION then MIN_POSSIBLE_ALLOCATION else size;
    ClampedExponent(clamped);
    var k := TrailingZeros(NextPowerOfTwo(clamped));
    ScalePow2(k - 3);
    forall o: nat | size <= OrderSize(o)
      ensures k - 3 <= o
    {
      ScalePow2(o);
    }
  }

  lemma ScalePow2(o: nat)
    ensures OrderSize(o) == Pow2(o + 3) && OrderSize(o) >= 8 && OrderSize(o) % 8 == 0
  {
    assert Pow2(o + 3) == 2 * Pow2(o + 2) == 4 * Pow2(o + 1) == 8 * Pow2(o);
  }

  lemma SpanBounds(order: nat)
    requires order < N_ORDERS
    ensures 16 <= Span(order) == Pow2(order + 3) + 8 <= 0x200_0008
    ensures Span(order) % 8 == 0
  {
    ScalePow2(order);
    MaxIsPow2();
    Pow2Monotone(order + 3, 25);
  }

  // ----- links and headers

  datatype Link = Nil | Ptr(ptr: nat)

  function LinkFromRaw(raw: nat): (l: Link)
  {
    if raw != NIL_MARKER then Ptr(raw) else Nil
  }

  function LinkIntoRaw(l: Link): (raw: nat)
  {
    match l
    case Nil => NIL_MARKER
    case Ptr(p) => p
  }

  datatype Header = Free(link: Link) | Occupied(order: nat)

  /** A header the allocator may write: a link to a header inside a 32-bit memory, or a supported order. */
  predicate Encodable(h: Header)
  {
    match h
    case Free(link) => link.Ptr? ==> link.ptr < NIL_MARKER
    case Occupied(order) => order < N_ORDERS
  }

  /** The 64-bit word of a header: data in the low half, the occupied flag in bit 32. */
  function EncodeHeader(h: Header): (raw: nat)
  {
    match h
    case Free(link) => LinkIntoRaw(link)
    case Occupied(order) => U32_LIMIT + order
  }

  function DecodeHeader(raw: nat): (r: Result<Header>)
  {
    var data := raw % U32_LIMIT;
    if raw / U32_LIMIT % 2 != 0 then
      var order := OrderFromRaw(data);
      if order.Ok? then Ok(Occupied(order.value)) else Err(order.error)
    else
      Ok(Free(LinkFromRaw(data)))
  }

  lemma HeaderCodec(h: Header)
    requires Encodable(h)
    ensures EncodeHeader(h) < 2 * U32_LIMIT && DecodeHeader(EncodeHeader(h)) == Ok(h)
  {
  }

  // ----- linear memory

  function LeBytes(v: nat, n: nat): (b: seq<byte>)
    ensures |b| == n
  {
    if n == 0 then [] else [v % 256] + LeBytes(v / 256, n - 1)
  }

  function FromLe(b: seq<byte>): (v: nat)
  {
    if b == [] then 0 else b[0] + 256 * FromLe(b[1..])
  }

  function Pow256(n: nat): (p: nat)
    ensures p >= 1
  {
    if n == 0 then 1 else 256 * Pow256(n - 1)
  }

  lemma {:induction false} LeRoundTrip(v: nat, n: nat)
    requires v < Pow256(n)
    ensures FromLe(LeBytes(v, n)) == v
  {
    if n > 0 {
      LeRoundTrip(v / 256, n - 1);
      assert LeBytes(v, n)[1..] == LeBytes(v / 256, n - 1);
    }
  }

  lemma WordFits(v: nat)
    requires v < 2 * U32_LIMIT
    ensures v < Pow256(8)
  {
  }

  /** `heap_range`: the accessed bytes must lie inside the memory and below 2^32. */
  predicate InHeapRange(ptr: nat, length: nat, heapLen: nat)
  {
    ptr + length < U32_LIMIT && ptr + length <= heapLen
  }

  function ReadWord(mem: seq<byte>, ptr: nat): (r: Result<nat>)
  {
    if InHeapRange(ptr, 8, |mem|) then Ok(FromLe(mem[ptr..ptr + 8]))
    else Err(Other("read out of heap bounds"))
  }

  function ReadHeader(mem: seq<byte>, ptr: nat): (r: Result<Header>)
  {
    var raw := ReadWord(mem, ptr);
    if raw.Ok? then DecodeHeader(raw.value) else Err(raw.error)
  }

  function WriteBytes(mem: seq<byte>, ptr: nat, bytes: seq<byte>): (mem': seq<byte>)
    requires ptr + |bytes| <= |mem|
    ensures |mem'| == |mem|
  {
    mem[..ptr] + bytes + mem[ptr + |bytes|..]
  }

  function WriteHeader(mem: seq<byte>, ptr: nat, h: Header): (mem': seq<byte>)
    requires InHeapRange(ptr, 8, |mem|)
    ensures |mem'| == |mem|
  {
    WriteBytes(mem, ptr, LeBytes(EncodeHeader(h), 8))
  }

  lemma WriteThenReadWord(mem: seq<byte>, ptr: nat, v: nat)
    requires InHeapRange(ptr, 8, |mem|) && v < 2 * U32_LIMIT
    ensures ReadWord(WriteBytes(mem, ptr, LeBytes(v, 8)), ptr) == Ok(v)
  {
    WordFits(v);
    LeRoundTrip(v, 8);
    var bytes := LeBytes(v, 8);
    assert WriteBytes(mem, ptr, bytes)[ptr..ptr + 8] == bytes;
  }

  /** A header read back from memory is the header that was written. */
  lemma HeaderRoundTrip(mem: seq<byte>, ptr: nat, h: Header)
    requires InHeapRange(ptr, 8, |mem|) && Encodable(h)
    ensures ReadHeader(WriteHeader(mem, ptr, h), ptr) == Ok(h)
  {
    HeaderCodec(h);
    WriteThenReadWord(mem, ptr, EncodeHeader(h));
  }

  /** Writing a header changes its eight bytes and no others. */
  lemma HeaderWriteBytes(mem: seq<byte>, ptr: nat, h: Header, i: nat)
    requires InHeapRange(ptr, 8, |mem|) && i < |mem|
    ensures WriteHeader(mem, ptr, h)[i] == if ptr <= i < ptr + 8 then LeBytes(EncodeHeader(h), 8)[i - ptr] else mem[i]
  {
  }

  /** A number without its lowest bytes. */
  function Shifted(v: nat, n: nat): (r: nat)
  {
    if n == 0 then v else Shifted(v / 256, n - 1)
  }

  lemma {:induction false} LeSplit(v: nat, n: nat, m: nat)
    ensures LeBytes(v, n + m) == LeBytes(v, n) + LeBytes(Shifted(v, n), m)
  {
    if n > 0 {
      LeSplit(v / 256, n - 1, m);
    }
  }

  lemma FourBytes(v: nat)
    ensures LeBytes(v, 4) == [v % 256, v / 256 % 256, v / 256 / 256 % 256, v / 256 / 256 / 256 % 256]
    ensures Shifted(v, 4) == v / 256 / 256 / 256 / 256
  {
    var v1, v2, v3 := v / 256, v / 256 / 256, v / 256 / 256 / 256;
    assert LeBytes(v3, 1) == [v3 % 256] + LeBytes(v3 / 256, 0) == [v3 % 256];
    assert LeBytes(v2, 2) == [v2 % 256] + LeBytes(v3, 1);
    assert LeBytes(v1, 3) == [v1 % 256] + LeBytes(v2, 2);
    assert Shifted(v3, 1) == Shifted(v3 / 256, 0) == v3 / 256;
    assert Shifted(v1, 3) == Shifted(v2, 2) == Shifted(v3, 1);
  }

  /** The two halves of an encoded header. */
  lemma HeaderHalves(h: Header)
    requires Encodable(h)
    ensures var raw := EncodeHeader(h);
            FromLe(LeBytes(raw, 4)) == raw % U32_LIMIT && Shifted(raw, 4) == if h.Occupied? then 1 else 0
  {
    hide LeBytes, FromLe, Shifted;
    var raw := EncodeHeader(h);
    FourBytes(raw);
    if h.Occupied? {
      FourBytes(h.order);
      SmallWord(h.order);
    } else {
      SmallWord(raw);
    }
  }

  lemma SmallWord(v: nat)
    requires v < U32_LIMIT
    ensures FromLe(LeBytes(v, 4)) == v
  {
    LeRoundTrip(v, 4);
  }

  lemma WrittenHalves(mem: seq<byte>, ptr: nat, low: seq<byte>, high: seq<byte>)
    requires ptr + 8 <= |mem| && |low| == |high| == 4
    ensures var mem' := WriteBytes(mem, ptr, low + high);
            mem'[ptr..ptr + 4] == low && mem'[ptr + 4..ptr + 8] == high
  {
  }

  /** The documented layout of a header: the first four bytes hold the order, or the address of the next free
      header, or all ones at the end of a list; the last four hold 1 in an occupied header and 0 in a free one. */
  lemma HeaderFormat(mem: seq<byte>, ptr: nat, h: Header)
    requires InHeapRange(ptr, 8, |mem|) && Encodable(h)
    ensures var mem' := WriteHeader(mem, ptr, h);
            && FromLe(mem'[ptr..ptr + 4]) ==
                 (match h case Occupied(order) => order case Free(Ptr(next)) => next case Free(Nil) => 0xFFFF_FFFF)
            && FromLe(mem'[ptr + 4..ptr + 8]) == if h.Occupied? then 1 else 0
  {
    hide LeBytes, FromLe, Shifted, WriteBytes;
    var raw, high := EncodeHeader(h), if h.Occupied? then 1 else 0;
    HeaderHalves(h);
    LeSplit(raw, 4, 4);
    SmallWord(high);
    WrittenHalves(mem, ptr, LeBytes(raw, 4), LeBytes(high, 4));
  }

  /** Writing one header leaves every header that does not overlap it readable as before. */
  lemma HeaderWriteFrame(mem: seq<byte>, ptr: nat, h: Header, other: nat)
    requires InHeapRange(ptr, 8, |mem|)
    requires other + 8 <= ptr || ptr + 8 <= other
    ensures ReadHeader(WriteHeader(mem, ptr, h), other) == ReadHeader(mem, other)
  {
    var mem' := WriteHeader(mem, ptr, h);
    if InHeapRange(other, 8, |mem|) {
      assert mem'[other..other + 8] == mem[other..other + 8];
    }
  }

  /** Header reads depend on the eight header bytes only, so they survive growth and payload writes. */
  lemma HeaderReadFrame(mem: seq<byte>, mem': seq<byte>, ptr: nat)
    requires |mem| <= |mem'| && ptr + 8 <= |mem|
    requires mem[ptr..ptr + 8] == mem'[ptr..ptr + 8]
    ensures ReadHeader(mem, ptr) == ReadHeader(mem', ptr)
  {
  }

  method ReadLeU64(mem: array<byte>, ptr: nat) returns (r: Result<nat>)
    ensures r == ReadWord(mem[..], ptr)
  {
    if !InHeapRange(ptr, 8, mem.Length) {
      return Err(Other("read out of heap bounds"));
    }
    var word: nat, i := 0, 8;
    while i > 0
      invariant 0 <= i <= 8
      invariant word == FromLe(mem[ptr + i..ptr + 8])
    {
      i := i - 1;
      assert mem[ptr + i..ptr + 8][1..] == mem[ptr + i + 1..ptr + 8];
      word := mem[ptr + i] + 256 * word;
    }
    assert mem[..][ptr..ptr + 8] == mem[ptr..ptr + 8];
    r := Ok(word);
  }

  method WriteLeU64(mem: array<byte>, ptr: nat, val: nat) returns (r: Result<()>)
    modifies mem
    ensures r.Ok? <==> InHeapRange(ptr, 8, mem.Length)
    ensures r.Ok? ==> mem[..] == WriteBytes(old(mem[..]), ptr, LeBytes(val, 8))
    ensures r.Err? ==> r.error == Other("write out of heap bounds") && mem[..] == old(mem[..])
  {
    if !InHeapRange(ptr, 8, mem.Length) {
      return Err(Other("write out of heap bounds"));
    }
    ghost var bytes := LeBytes(val, 8);
    var i, rest := 0, val;
    while i < 8
      invariant 0 <= i <= 8
      invariant LeBytes(rest, 8 - i) == bytes[i..]
      invariant forall k :: 0 <= k < mem.Length ==>
                  mem[k] == if ptr <= k < ptr + i then bytes[k - ptr] else old(mem[k])
    {
      mem[ptr + i] := rest % 256;
      assert bytes[i..][0] == rest % 256;
      assert bytes[i..][1..] == bytes[i + 1..];
      rest := rest / 256;
      i := i + 1;
    }
    assert mem[..] == WriteBytes(old(mem[..]), ptr, bytes);
    r := Ok(());
  }
}
