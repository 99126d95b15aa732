/** `memdbg.c`: the debug allocator's chain of live blocks, its byte counters and its guard words. */
module MemDebug {
  import opened Memory
  import opened Rounding

  const WRAP := 0x1_0000_0000
  const MAGIC1 := 0xCEEDDEB1
  const MAGIC2 := 0xCEEDDEB2
  const MAGIC3: bv32 := 0xCEEDDEB3

  /** `sizeof(mem_debug_header_t) - offsetof(mem_debug_header_t, magic3)`: the guard and its padding. */
  const SLACK := 16

  // ----- little-endian words

  function Write16(x: bv16): (p: Bytes)
    ensures |p| == 2
  {
    [(x & 255) as bv8, ((x >> 8) & 255) as bv8]
  }

  function Write32(x: bv32): (p: Bytes)
    ensures |p| == 4
  {
    Write16((x & 0xFFFF) as bv16) + Write16((x >> 16) as bv16)
  }

  function Read16(p: Bytes): bv16
    requires |p| == 2
  {
    p[0] as bv16 | (p[1] as bv16 << 8)
  }

  function Read32(p: Bytes): bv32
    requires |p| == 4
  {
    Read16(p[..2]) as bv32 | (Read16(p[2..]) as bv32 << 16)
  }

  lemma Halves16(x: bv16)
    ensures ((x & 255) as bv8) as bv16 | (((x >> 8) & 255) as bv8 as bv16 << 8) == x
  {
  }

  lemma Halves32(x: bv32)
    ensures ((x & 0xFFFF) as bv16) as bv32 | ((x >> 16) as bv16 as bv32 << 16) == x
  {
  }

  /** What is written is read back. */
  lemma ReadWrite16(x: bv16)
    ensures Read16(Write16(x)) == x
  {
    Halves16(x);
  }

  lemma ReadWrite32(x: bv32)
    ensures Read32(Write32(x)) == x
  {
    hide Read16, Write16;
    ReadWrite16((x & 0xFFFF) as bv16);
    ReadWrite16((x >> 16) as bv16);
    Halves32(x);
    assert Write32(x)[..2] == Write16((x & 0xFFFF) as bv16);
    assert Write32(x)[2..] == Write16((x >> 16) as bv16);
  }

  /** The words lie in memory with the low byte first. */
  lemma WordBytes(x: bv32)
    ensures Write32(x) == [(x & 0xFF) as bv8, ((x >> 8) & 0xFF) as bv8, ((x >> 16) & 0xFF) as bv8, ((x >> 24) & 0xFF) as bv8]
  {
    Shifts(x);
  }

  lemma Shifts(x: bv32)
    ensures ((x & 0xFFFF) as bv16 & 255) as bv8 == (x & 0xFF) as bv8
    ensures (((x & 0xFFFF) as bv16 >> 8) & 255) as bv8 == ((x >> 8) & 0xFF) as bv8
    ensures ((x >> 16) as bv16 & 255) as bv8 == ((x >> 16) & 0xFF) as bv8
    ensures (((x >> 16) as bv16 >> 8) & 255) as bv8 == ((x >> 24) & 0xFF) as bv8
  {
  }

  /** The guard in memory. */
  lemma GuardBytes(p: Bytes)
    requires |p| == 4
    ensures Read32(p) == MAGIC3 <==> p == [0xB3, 0xDE, 0xED, 0xCE]
  {
    ReadBytes(p);
    FourBytes(p[0], p[1], p[2], p[3]);
  }

  lemma ReadBytes(p: Bytes)
    requires |p| == 4
    ensures Read32(p) == p[0] as bv32 | (p[1] as bv32 << 8) | (p[2] as bv32 << 16) | (p[3] as bv32 << 24)
  {
    JoinBytes(p[0], p[1], p[2], p[3]);
  }

  lemma JoinBytes(b0: bv8, b1: bv8, b2: bv8, b3: bv8)
    ensures (b0 as bv16 | (b1 as bv16 << 8)) as bv32 | ((b2 as bv16 | (b3 as bv16 << 8)) as bv32 << 16)
            == b0 as bv32 | (b1 as bv32 << 8) | (b2 as bv32 << 16) | (b3 as bv32 << 24)
  {
  }

  lemma FourBytes(b0: bv8, b1: bv8, b2: bv8, b3: bv8)
    ensures b0 as bv32 | (b1 as bv32 << 8) | (b2 as bv32 << 16) | (b3 as bv32 << 24) == 0xCEEDDEB3 <==>
            b0 == 0xB3 && b1 == 0xDE && b2 == 0xED && b3 == 0xCE
  {
  }

  // ----- blocks

  /** `mem_debug_header_t`.  `tail` is the block from its user pointer to its end. */
  class Header {
    var magic1: nat
    var size: nat
    var prev: Header?
    var next: Header?
    var magic2: nat
    var tail: Bytes

    constructor (raw: Bytes)
      ensures tail == raw
    {
      tail := raw;
      prev, next := null, null;
    }
  }

  /** A block allocated for `room` bytes; its size field has 32 bits. */
  ghost predicate Good(h: Header, room: nat)
    reads h`magic1, h`size, h`magic2, h`tail
  {
    && h.magic1 == MAGIC1 && h.magic2 == MAGIC2
    && h.size == room % WRAP && |h.tail| == room + SLACK
  }

  /** The guard word lies inside the block and still holds its magic. */
  predicate Intact(h: Header)
    reads h`size, h`tail
  {
    h.size + 4 <= |h.tail| && Read32(h.tail[h.size..h.size + 4]) == MAGIC3
  }

  lemma GuardInside(size: nat, room: nat)
    requires size == room % WRAP
    ensures size + 4 <= room + SLACK
    ensures room < WRAP ==> size == room
  {
  }

  /** A block of the chain, in numbers. */
  lemma BlockIs(h: Header, room: nat)
    ensures Good(h, room) <==>
            && h.magic1 == 0xCEEDDEB1 && h.magic2 == 0xCEEDDEB2
            && h.size == room % 0x1_0000_0000 && |h.tail| == room + 16
    ensures Intact(h) <==> h.size + 4 <= |h.tail| && h.tail[h.size..h.size + 4] == [0xB3, 0xDE, 0xED, 0xCE]
  {
    hide Read32;
    if h.size + 4 <= |h.tail| {
      GuardBytes(h.tail[h.size..h.size + 4]);
    }
  }

  function WithGuard(raw: Bytes, size: nat): (tail: Bytes)
    requires size + 4 <= |raw|
    ensures |tail| == |raw|
  {
    Write(raw, size, Write32(MAGIC3))
  }

  lemma GuardReads(raw: Bytes, size: nat)
    requires size + 4 <= |raw|
    ensures Read32(WithGuard(raw, size)[size..size + 4]) == MAGIC3
    ensures WithGuard(raw, size)[..size] == raw[..size]
  {
    hide Read32, Write32;
    ReadWrite32(MAGIC3);
    assert WithGuard(raw, size)[size..size + 4] == Write32(MAGIC3);
  }

  /** Writing to the user's bytes leaves the guard alone, unless the size field has wrapped. */
  method PokeBlock(h: Header, ghost room: nat, at: nat, v: Bytes)
    requires Good(h, room) && at + |v| <= room
    modifies h`tail
    ensures Good(h, room) && h.tail == Write(old(h.tail), at, v)
    ensures room < WRAP ==> Intact(h) == old(Intact(h))
  {
    hide Read32;
    var before := h.tail;
    h.tail := Write(h.tail, at, v);
    GuardInside(h.size, room);
    if room < WRAP {
      assert h.tail[h.size..h.size + 4] == before[h.size..h.size + 4];
    }
  }

  // ----- the chain

  function Sum(rooms: seq<nat>): nat {
    if rooms == [] then 0 else rooms[0] + Sum(rooms[1..])
  }

  lemma {:induction false} SumAt(rooms: seq<nat>, k: nat)
    requires k < |rooms|
    ensures Sum(rooms) == rooms[k] + Sum(rooms[..k] + rooms[k + 1..])
  {
    if k > 0 {
      SumAt(rooms[1..], k - 1);
      var rest := rooms[..k] + rooms[k + 1..];
      assert rest[1..] == rooms[1..][..k - 1] + rooms[1..][k..];
    } else {
      assert rooms[..0] + rooms[1..] == rooms[1..];
    }
  }

  lemma SumUpdate(rooms: seq<nat>, k: nat, x: nat)
    requires k < |rooms|
    ensures Sum(rooms[k := x]) == Sum(rooms) - rooms[k] + x
  {
    SumAt(rooms, k);
    SumAt(rooms[k := x], k);
    assert rooms[k := x][..k] + rooms[k := x][k + 1..] == rooms[..k] + rooms[k + 1..];
  }

  function At(blocks: seq<Header>, i: int): Header? {
    if 0 <= i < |blocks| then blocks[i] else null
  }

  /** A well-formed doubly linked list. */
  ghost predicate Linked(blocks: seq<Header>)
    reads blocks`prev, blocks`next
  {
    && (forall i, j :: 0 <= i < j < |blocks| ==> blocks[i] != blocks[j])
    && (forall i {:trigger blocks[i].prev} :: 0 <= i < |blocks| ==> blocks[i].prev == At(blocks, i - 1))
    && (forall i {:trigger blocks[i].next} :: 0 <= i < |blocks| ==> blocks[i].next == At(blocks, i + 1))
  }

  ghost predicate AllGood(blocks: seq<Header>, rooms: seq<nat>)
    reads blocks`magic1, blocks`size, blocks`magic2, blocks`tail
  {
    |rooms| == |blocks| && forall i :: 0 <= i < |blocks| ==> Good(blocks[i], rooms[i])
  }

  /** Every live block whose size fits its field has its guard inside it and undamaged. */
  ghost predicate AllIntact(blocks: seq<Header>, rooms: seq<nat>)
    reads blocks`size, blocks`tail
  {
    |rooms| == |blocks| && forall i :: 0 <= i < |blocks| && rooms[i] < WRAP ==> Intact(blocks[i])
  }

  /** The counters against the true number of live bytes and its peak. */
  ghost predicate Counts(total: nat, peak: nat, curSize: nat, maxSize: nat) {
    && curSize == total % WRAP && total <= peak
    && (peak < WRAP ==> maxSize == peak)
  }

  lemma CountsGrow(total: nat, peak: nat, cur: nat, max: nat, size: nat)
    requires Counts(total, peak, cur, max)
    ensures var cur' := (cur + size) % WRAP;
            Counts(total + size, Max(peak, total + size), cur', Max(max, cur'))
  {
  }

  /** Whether the check lets a block of this size through: only a block whose size field has wrapped
      can have lost its guard. */
  ghost predicate Passes(room: nat, ok: bool) {
    && (room < WRAP ==> (ok <==> room != WRAP - 1))
    && (ok ==> room % WRAP != WRAP - 1)
  }

  lemma CountsShrink(total: nat, peak: nat, cur: nat, max: nat, room: nat)
    requires Counts(total, peak, cur, max) && room <= total
    ensures Counts(total - room, peak, (cur + WRAP - room % WRAP) % WRAP, max)
  {
    ModSub(total, room);
  }

  /** One block changes its size. */
  lemma CountsResize(total: nat, peak: nat, cur: nat, max: nat, room: nat, size: nat, cur': nat, max': nat)
    requires Counts(total, peak, cur, max) && room <= total
    requires cur' == ((cur + WRAP - room % WRAP) % WRAP + size) % WRAP && max' == Max(max, cur')
    ensures Counts(total - room + size, Max(peak, total - room + size), cur', max')
  {
    hide Counts, Max;
    CountsShrink(total, peak, cur, max, room);
    CountsGrow(total - room, peak, (cur + WRAP - room % WRAP) % WRAP, max, size);
  }

  lemma ModSub(total: nat, room: nat)
    requires room <= total
    ensures (total % WRAP + WRAP - room % WRAP) % WRAP == (total - room) % WRAP
  {
  }

  ghost function Position(blocks: seq<Header>, h: Header): (k: nat)
    requires h in blocks
    ensures k < |blocks| && blocks[k] == h
  {
    var k :| 0 <= k < |blocks| && blocks[k] == h;
    k
  }

  ghost function Cut<T>(s: seq<T>, k: nat): (r: seq<T>)
    requires k < |s|
    ensures |r| == |s| - 1
    ensures forall i :: 0 <= i < |r| ==> r[i] == s[if i < k then i else i + 1]
  {
    s[..k] + s[k + 1..]
  }

  class Heap {
    var chain: Header?
    var curSize: nat
    var maxSize: nat
    /** The live blocks, the bytes each was allocated for, and the most bytes ever live at once. */
    ghost var blocks: seq<Header>
    ghost var rooms: seq<nat>
    ghost var peak: nat

    /** The chain links exactly the live blocks, their guards are undamaged, the counters are right
        modulo their 32 bits, and the maximum is the true peak as long as that fits. */
    ghost predicate Valid()
      reads this, blocks
    {
      && Linked(blocks) && AllGood(blocks, rooms) && AllIntact(blocks, rooms) && chain == At(blocks, 0)
      && Counts(Sum(rooms), peak, curSize, maxSize)
    }

    lemma ValidParts()
      ensures Valid() <==>
        && Linked(blocks) && AllGood(blocks, rooms) && AllIntact(blocks, rooms) && chain == At(blocks, 0)
        && Counts(Sum(rooms), peak, curSize, maxSize)
    {
    }

    lemma Totals()
      requires Valid()
      ensures |rooms| == |blocks| && curSize == Sum(rooms) % WRAP && Max(peak, Sum(rooms)) == peak
      ensures forall i :: 0 <= i < |blocks| ==> |blocks[i].tail| == rooms[i] + SLACK
      ensures forall i :: 0 <= i < |blocks| ==> Position(blocks, blocks[i]) == i
    {
      assert AllGood(blocks, rooms);
    }

    constructor ()
      ensures Valid() && blocks == [] && rooms == [] && peak == 0
    {
      chain, curSize, maxSize := null, 0, 0;
      blocks, rooms, peak := [], [], 0;
    }

    /** `malloc_check`. */
    method Check(h: Header) returns (ok: bool)
      requires Valid() && h in blocks
      ensures ok == (Intact(h) && h.size != WRAP - 1)
    {
      ghost var k :| 0 <= k < |blocks| && blocks[k] == h;
      GuardInside(h.size, rooms[k]);
      ok := h.magic1 == MAGIC1 && h.magic2 == MAGIC2 && Read32(h.tail[h.size..h.size + 4]) == MAGIC3
        && h.size != WRAP - 1;
    }

    /** `mem_cur_size += size`, and the maximum after it. */
    method Grow(size: nat)
      modifies this`curSize, this`maxSize
      ensures curSize == (old(curSize) + size) % WRAP
      ensures maxSize == Max(old(maxSize), curSize)
    {
      curSize := (curSize + size) % WRAP;
      if curSize > maxSize {
        maxSize := curSize;
      }
    }

    /** A block enters the chain at its head. */
    method Link(header: Header)
      requires Linked(blocks) && chain == At(blocks, 0) && header !in blocks
      modifies this`chain, header`prev, header`next, blocks`prev
      ensures Linked([header] + blocks) && chain == header
    {
      header.next := chain;
      header.prev := null;
      if header.next != null {
        header.next.prev := header;
      }
      chain := header;
    }

    /** `mdbg_malloc_debug`; `raw` is what the system's `malloc` hands out. */
    method Malloc(size: nat, raw: Bytes) returns (header: Header)
      requires Valid() && |raw| == size + SLACK
      modifies this, blocks`prev
      ensures Valid() && fresh(header) && Intact(header)
      ensures blocks == [header] + old(blocks) && rooms == [size] + old(rooms)
      ensures peak == Max(old(peak), Sum(rooms)) && maxSize == Max(old(maxSize), curSize)
      ensures |header.tail| == size + SLACK && (size < WRAP ==> header.tail[..size] == raw[..size])
      ensures header.magic1 == 0xCEEDDEB1 && header.magic2 == 0xCEEDDEB2 && |header.tail| == size + 16
      ensures size < 0x1_0000_0000 ==>
                header.size == size && header.tail[size..size + 4] == [0xB3, 0xDE, 0xED, 0xCE]
      ensures curSize == (old(curSize) + size) % 0x1_0000_0000
    {
      hide Linked, Good, Intact, AllGood, AllIntact, Counts, Sum, Max, At, Valid;
      header := NewBlock(size, raw);
      BlockIs(header, size);
      Enter(header, size);
    }

    /** A new block joins the chain and the counts. */
    method Enter(header: Header, size: nat)
      requires Valid() && header !in blocks && Good(header, size) && Intact(header)
      modifies this, header`prev, header`next, blocks`prev
      ensures Valid() && blocks == [header] + old(blocks) && rooms == [size] + old(rooms)
      ensures peak == Max(old(peak), Sum(rooms)) && maxSize == Max(old(maxSize), curSize)
      ensures curSize == (old(curSize) + size) % WRAP
    {
      hide Linked, Good, Intact, AllGood, AllIntact, Counts, Sum, Max, At, Valid;
      ValidParts();
      AllGoodCons(header, size, blocks, rooms);
      AllIntactCons(header, size, blocks, rooms);
      HeadOf(header, blocks);
      Link(header);
      SumCons(size, rooms);
      CountsGrow(Sum(rooms), peak, curSize, maxSize, size);
      Grow(size);
      blocks, rooms := [header] + blocks, [size] + rooms;
      peak := Max(peak, Sum(rooms));
      ValidParts();
    }

    /** The links around block `k` close over it. */
    method Unlink(header: Header, ghost k: nat)
      requires Linked(blocks) && chain == At(blocks, 0) && k < |blocks| && blocks[k] == header
      modifies this`chain, blocks`prev, blocks`next
      ensures Linked(Cut(blocks, k)) && chain == At(Cut(blocks, k), 0)
    {
      if header.next != null {
        header.next.prev := header.prev;
      }
      if header.prev != null {
        header.prev.next := header.next;
      }
      if header == chain {
        chain := header.next;
      }
      ghost var rest := Cut(blocks, k);
      forall i | 0 <= i < |rest|
        ensures rest[i].prev == At(rest, i - 1) && rest[i].next == At(rest, i + 1)
      {
        ghost var j := if i < k then i else i + 1;
        assert old(blocks[j].prev) == At(blocks, j - 1) && old(blocks[j].next) == At(blocks, j + 1);
      }
    }

    /** A block that the system moved takes the place of the old one in the chain. */
    method Relink(header: Header, ghost k: nat, head: bool)
      requires Linked(blocks) && chain == At(blocks, 0) && k < |blocks|
      requires header == blocks[k] || header !in blocks
      requires header.prev == blocks[k].prev && header.next == blocks[k].next && head == (blocks[k] == chain)
      modifies this`chain, blocks`prev, blocks`next
      ensures Linked(blocks[k := header]) && chain == At(blocks[k := header], 0)
    {
      if header.next != null {
        header.next.prev := header;
      }
      if header.prev != null {
        header.prev.next := header;
      }
      if head {
        chain := header;
      }
      ghost var all := blocks[k := header];
      forall i | 0 <= i < |all| ensures all[i].prev == At(all, i - 1) && all[i].next == At(all, i + 1) {
        assert old(blocks[i].prev) == At(blocks, i - 1) && old(blocks[i].next) == At(blocks, i + 1);
      }
    }

    /** The program writes to its own bytes of a live block. */
    method Poke(h: Header, ghost k: nat, at: nat, v: Bytes)
      requires Valid() && k < |blocks| == |rooms| && blocks[k] == h && at + |v| <= rooms[k]
      modifies h`tail
      ensures Valid() && h.tail == Write(old(h.tail), at, v)
      ensures rooms[k] < WRAP ==> Intact(h) == old(Intact(h))
    {
      hide Linked, Good, Intact, AllGood, AllIntact, Counts, Sum, Cut, At, Write, Valid;
      ValidParts();
      GoodAt(blocks, rooms, k);
      IntactAt(blocks, rooms, k);
      AllGoodCut(blocks, rooms, k);
      AllIntactCut(blocks, rooms, k);
      CutMisses(blocks, k);
      PokeBlock(h, rooms[k], at, v);
      AllGoodSwap(blocks, rooms, k, h, rooms[k]);
      AllIntactSwap(blocks, rooms, k, h, rooms[k]);
      assert blocks[k := h] == blocks && rooms[k := rooms[k]] == rooms;
      ValidParts();
    }

    /** `mem_cur_size -= header->size`, in 32 bits. */
    method Shrink(header: Header)
      modifies this`curSize
      ensures curSize == (old(curSize) + WRAP - header.size % WRAP) % WRAP
    {
      curSize := (curSize + WRAP - header.size % WRAP) % WRAP;
    }

    /** `mdbg_free_debug`: the block leaves the chain and the count.  A damaged block stays, and so
        does one whose size field reads 2^32 - 1, which the check takes for already freed. */
    method Free(ptr: Header?) returns (freed: bool)
      requires Valid() && (ptr != null ==> ptr in blocks)
      modifies this, blocks`prev, blocks`next, blocks`size
      ensures Valid() && peak == old(peak) && maxSize == old(maxSize)
      ensures forall b :: b in old(blocks) && b != ptr ==> b.size == old(b.size)
      ensures freed == (ptr != null && old(Intact(ptr)) && old(ptr.size) != WRAP - 1)
      ensures ptr != null ==> Passes(old(rooms)[Position(old(blocks), ptr)], freed)
      ensures !freed ==> blocks == old(blocks) && rooms == old(rooms) && curSize == old(curSize)
      ensures freed ==> blocks == Cut(old(blocks), Position(old(blocks), ptr))
                        && rooms == Cut(old(rooms), Position(old(blocks), ptr))
    {
      hide Linked, Good, Intact, AllGood, AllIntact, Counts, Sum, Cut, At, Max, Valid;
      ValidParts();
      freed := false;
      if ptr == null {
        return;
      }
      ghost var k := Position(blocks, ptr);
      freed := Check(ptr);
      SizeIs(blocks, rooms, k);
      IntactAt(blocks, rooms, k);
      if !freed {
        return;
      }
      SumCut(rooms, k);
      CountsShrink(Sum(rooms), peak, curSize, maxSize, rooms[k]);
      Shrink(ptr);
      TakeOut(ptr, k);
      blocks, rooms := Cut(blocks, k), Cut(rooms, k);
      ValidParts();
    }

    /** The block is marked as freed and leaves the chain. */
    method TakeOut(ptr: Header, ghost k: nat)
      requires Linked(blocks) && AllGood(blocks, rooms) && AllIntact(blocks, rooms) && chain == At(blocks, 0)
      requires k < |blocks| && blocks[k] == ptr
      modifies this`chain, blocks`prev, blocks`next, ptr`size
      ensures |rooms| == |blocks| && Linked(Cut(blocks, k)) && chain == At(Cut(blocks, k), 0)
      ensures AllGood(Cut(blocks, k), Cut(rooms, k)) && AllIntact(Cut(blocks, k), Cut(rooms, k))
    {
      hide Linked, Good, Intact, AllGood, AllIntact, Cut, At;
      SizeIs(blocks, rooms, k);
      AllGoodCut(blocks, rooms, k);
      AllIntactCut(blocks, rooms, k);
      CutMisses(blocks, k);
      ptr.size := WRAP - 1;
      Unlink(ptr, k);
    }

    /** `mdbg_realloc_debug`; `moves` says whether the system moved the block, and `raw` what it
        handed back: the old contents, as far as they fit.  No other block is touched. */
    method Realloc(ptr: Header?, size: nat, raw: Bytes, moves: bool) returns (header: Header?)
      requires Valid() && (ptr != null ==> ptr in blocks) && |raw| == size + SLACK
      requires ptr != null ==> forall i :: 0 <= i < |raw| && i < |ptr.tail| ==> raw[i] == ptr.tail[i]
      modifies this, blocks
      ensures Valid()
      ensures forall b :: b in old(blocks) && b != ptr ==> b.tail == old(b.tail) && b.size == old(b.size)
      ensures header != null ==> Intact(header) && |header.tail| == size + SLACK
      ensures header != null && size < WRAP ==> header.tail[..size] == raw[..size]
      ensures ptr == null ==> header != null && fresh(header)
                              && blocks == [header] + old(blocks) && rooms == [size] + old(rooms)
      ensures ptr != null ==> (header != null <==> old(Intact(ptr)) && old(ptr.size) != WRAP - 1)
      ensures ptr != null ==> Passes(old(rooms)[Position(old(blocks), ptr)], header != null)
      ensures header == null ==> blocks == old(blocks) && rooms == old(rooms) && peak == old(peak)
                                 && curSize == old(curSize) && maxSize == old(maxSize)
      ensures ptr != null && header != null ==>
                (if moves then fresh(header) else header == ptr)
                && blocks == old(blocks)[Position(old(blocks), ptr) := header]
                && rooms == old(rooms)[Position(old(blocks), ptr) := size]
      ensures header != null ==> peak == Max(old(peak), Sum(rooms)) && maxSize == Max(old(maxSize), curSize)
    {
      hide Linked, Good, Intact, AllGood, AllIntact, Counts, Sum, Cut, Max;
      if ptr == null {
        header := Malloc(size, raw);
        return;
      }
      ghost var k := Position(blocks, ptr);
      var ok := Check(ptr);
      SizeIs(blocks, rooms, k);
      IntactAt(blocks, rooms, k);
      if !ok {
        return null;
      }
      header := Resize(ptr, k, size, raw, moves);
    }

    method Resize(ptr: Header, ghost k: nat, size: nat, raw: Bytes, moves: bool) returns (header: Header)
      requires Valid() && k < |blocks| && blocks[k] == ptr && |raw| == size + SLACK
      modifies this, blocks`prev, blocks`next, ptr`size, ptr`tail
      ensures Valid() && Intact(header) && |header.tail| == size + SLACK
      ensures if moves then fresh(header) else header == ptr
      ensures size < WRAP ==> header.tail[..size] == raw[..size]
      ensures |old(rooms)| == |old(blocks)|
      ensures blocks == old(blocks)[k := header] && rooms == old(rooms)[k := size]
      ensures peak == Max(old(peak), Sum(rooms)) && maxSize == Max(old(maxSize), curSize)
    {
      hide *;
      ValidParts();
      SizeIs(blocks, rooms, k);
      SumRoom(rooms, k, size);
      ghost var total, cur, max := Sum(rooms), curSize, maxSize;
      Shrink(ptr);
      header := Replace(ptr, k, size, raw, moves);
      Grow(size);
      CountsResize(total, peak, cur, max, rooms[k], size, curSize, maxSize);
      blocks, rooms := blocks[k := header], rooms[k := size];
      peak := Max(peak, Sum(rooms));
      ValidParts();
    }

    /** The block is resized, and the chain follows it where it moves. */
    method Replace(ptr: Header, ghost k: nat, size: nat, raw: Bytes, moves: bool) returns (header: Header)
      requires Linked(blocks) && AllGood(blocks, rooms) && AllIntact(blocks, rooms) && chain == At(blocks, 0)
      requires k < |blocks| && blocks[k] == ptr && |raw| == size + SLACK
      modifies this`chain, blocks`prev, blocks`next, ptr`size, ptr`tail
      ensures if moves then fresh(header) else header == ptr
      ensures |rooms| == |blocks| && Linked(blocks[k := header]) && chain == At(blocks[k := header], 0)
      ensures AllGood(blocks[k := header], rooms[k := size]) && AllIntact(blocks[k := header], rooms[k := size])
      ensures Intact(header) && |header.tail| == size + SLACK
      ensures size < WRAP ==> header.tail[..size] == raw[..size]
    {
      hide Linked, Good, Intact, AllGood, AllIntact, Cut, At;
      SizeIs(blocks, rooms, k);
      AllGoodCut(blocks, rooms, k);
      AllIntactCut(blocks, rooms, k);
      CutMisses(blocks, k);
      var head := ptr == chain;
      header := Move(ptr, size, raw, moves);
      AllGoodSwap(blocks, rooms, k, header, size);
      AllIntactSwap(blocks, rooms, k, header, size);
      Relink(header, k, head);
    }
  }

  /** The system's `realloc` and the repair of the size field and the guard. */
  method Move(ptr: Header, size: nat, raw: Bytes, moves: bool) returns (header: Header)
    requires |raw| == size + SLACK && ptr.magic1 == MAGIC1 && ptr.magic2 == MAGIC2
    modifies ptr`size, ptr`tail
    ensures if moves then fresh(header) else header == ptr
    ensures Good(header, size) && Intact(header) && header.prev == ptr.prev && header.next == ptr.next
    ensures |header.tail| == size + SLACK
    ensures size < WRAP ==> header.tail[..size] == raw[..size]
  {
    hide Read32, Write32, WithGuard;
    if moves {
      header := new Header(raw);
      header.magic1, header.magic2 := ptr.magic1, ptr.magic2;
      header.prev, header.next := ptr.prev, ptr.next;
    } else {
      header := ptr;
    }
    header.size := size % WRAP;
    GuardInside(header.size, size);
    GuardReads(raw, header.size);
    header.tail := WithGuard(raw, header.size);
  }

  lemma AllGoodCut(blocks: seq<Header>, rooms: seq<nat>, k: nat)
    requires AllGood(blocks, rooms) && k < |blocks|
    ensures AllGood(Cut(blocks, k), Cut(rooms, k))
  {
  }

  lemma AllIntactCut(blocks: seq<Header>, rooms: seq<nat>, k: nat)
    requires AllIntact(blocks, rooms) && k < |blocks|
    ensures AllIntact(Cut(blocks, k), Cut(rooms, k))
  {
  }

  lemma AllIntactSwap(blocks: seq<Header>, rooms: seq<nat>, k: nat, h: Header, room: nat)
    requires k < |blocks| == |rooms| && AllIntact(Cut(blocks, k), Cut(rooms, k)) && (room < WRAP ==> Intact(h))
    ensures AllIntact(blocks[k := h], rooms[k := room])
  {
    var blocks', rooms' := blocks[k := h], rooms[k := room];
    forall i | 0 <= i < |blocks'| && rooms'[i] < WRAP ensures Intact(blocks'[i]) {
      if i != k {
        var j := if i < k then i else i - 1;
        assert Intact(Cut(blocks, k)[j]);
      }
    }
  }

  lemma HeadOf(h: Header, blocks: seq<Header>)
    ensures At([h] + blocks, 0) == h
  {
  }

  lemma AllIntactCons(h: Header, room: nat, blocks: seq<Header>, rooms: seq<nat>)
    requires Intact(h) && AllIntact(blocks, rooms)
    ensures AllIntact([h] + blocks, [room] + rooms)
  {
  }

  lemma IntactAt(blocks: seq<Header>, rooms: seq<nat>, k: nat)
    requires AllIntact(blocks, rooms) && k < |blocks|
    ensures |rooms| == |blocks| && (rooms[k] < WRAP ==> Intact(blocks[k]))
  {
  }

  lemma AllGoodSwap(blocks: seq<Header>, rooms: seq<nat>, k: nat, h: Header, room: nat)
    requires k < |blocks| == |rooms| && AllGood(Cut(blocks, k), Cut(rooms, k)) && Good(h, room)
    ensures AllGood(blocks[k := h], rooms[k := room])
  {
    var blocks', rooms' := blocks[k := h], rooms[k := room];
    forall i | 0 <= i < |blocks'| ensures Good(blocks'[i], rooms'[i]) {
      if i != k {
        var j := if i < k then i else i - 1;
        assert Good(Cut(blocks, k)[j], Cut(rooms, k)[j]);
      }
    }
  }

  lemma SumCut(rooms: seq<nat>, k: nat)
    requires k < |rooms|
    ensures Sum(Cut(rooms, k)) == Sum(rooms) - rooms[k] && rooms[k] <= Sum(rooms)
  {
    SumAt(rooms, k);
  }

  lemma SumRoom(rooms: seq<nat>, k: nat, x: nat)
    requires k < |rooms|
    ensures Sum(rooms[k := x]) == Sum(rooms) - rooms[k] + x && rooms[k] <= Sum(rooms)
  {
    SumAt(rooms, k);
    SumUpdate(rooms, k, x);
  }

  lemma SizeIs(blocks: seq<Header>, rooms: seq<nat>, k: nat)
    requires AllGood(blocks, rooms) && k < |blocks|
    ensures |rooms| == |blocks| && blocks[k].size == rooms[k] % WRAP == blocks[k].size % WRAP
    ensures blocks[k].magic1 == MAGIC1 && blocks[k].magic2 == MAGIC2
  {
    assert Good(blocks[k], rooms[k]);
  }

  lemma GoodAt(blocks: seq<Header>, rooms: seq<nat>, k: nat)
    requires AllGood(blocks, rooms) && k < |blocks|
    ensures |rooms| == |blocks| && Good(blocks[k], rooms[k]) && |blocks[k].tail| == rooms[k] + SLACK
  {
  }

  lemma CutMisses(blocks: seq<Header>, k: nat)
    requires Linked(blocks) && k < |blocks|
    ensures blocks[k] !in Cut(blocks, k)
  {
  }

  method NewBlock(size: nat, raw: Bytes) returns (header: Header)
    requires |raw| == size + SLACK
    ensures fresh(header) && Good(header, size) && Intact(header) && |header.tail| == size + SLACK
    ensures size < WRAP ==> header.tail[..size] == raw[..size]
  {
    hide Read32, Write32, WithGuard;
    header := new Header(raw);
    header.magic1, header.magic2 := MAGIC1, MAGIC2;
    header.size := size % WRAP;
    GuardInside(header.size, size);
    GuardReads(raw, header.size);
    header.tail := WithGuard(raw, header.size);
  }

  lemma SumCons(size: nat, rooms: seq<nat>)
    ensures Sum([size] + rooms) == Sum(rooms) + size
  {
    assert ([size] + rooms)[1..] == rooms;
  }

  lemma AllGoodCons(h: Header, room: nat, blocks: seq<Header>, rooms: seq<nat>)
    requires Good(h, room) && AllGood(blocks, rooms)
    ensures AllGood([h] + blocks, [room] + rooms)
  {
  }

  // ----- runs

  /** A call of the program.  `at` names a live block by its place in the chain; any other number
      stands for the null pointer.  `raw` is what the system's allocator hands out. */
  datatype Call =
    | Allocate(size: nat, raw: Bytes)
    | Release(at: int)
    | Change(at: int, size: nat, raw: Bytes, moves: bool)
    | Store(at: int, from: nat, v: Bytes)
  {
    predicate WellFormed() {
      Allocate? || Change? ==> |raw| == size + SLACK
    }
  }

  /** The live blocks, latest first, and the bytes each was asked for. */
  datatype Live = Live(blocks: seq<Header>, rooms: seq<nat>)

  ghost predicate Paired(s: Live) {
    |s.blocks| == |s.rooms|
  }

  /** The live blocks after a call; `r` is the block it allocated, moved or freed, if it did. */
  ghost function After(s: Live, c: Call, r: Header?): (s': Live)
    requires Paired(s)
    ensures Paired(s')
  {
    if r == null then s
    else match c
      case Allocate(size, _) => Live([r] + s.blocks, [size] + s.rooms)
      case Release(at) =>
        if 0 <= at < |s.blocks| then Live(Cut(s.blocks, at), Cut(s.rooms, at)) else s
      case Change(at, size, _, _) =>
        if 0 <= at < |s.blocks| then Live(s.blocks[at := r], s.rooms[at := size])
        else Live([r] + s.blocks, [size] + s.rooms)
      case Store(_, _, _) => s
  }

  /** What a call answers: a new block, or the block it freed or resized, or null. */
  ghost predicate Right(s: Live, c: Call, r: Header?)
    requires Paired(s)
  {
    match c
    case Allocate(_, _) => r != null && r !in s.blocks
    case Release(at) =>
      if 0 <= at < |s.blocks| then (r == null || r == s.blocks[at]) && Passes(s.rooms[at], r != null)
      else r == null
    case Change(at, _, _, moves) =>
      if 0 <= at < |s.blocks| then
        (r == null || (if moves then r !in s.blocks else r == s.blocks[at])) && Passes(s.rooms[at], r != null)
      else r != null && r !in s.blocks
    case Store(_, _, _) => r == null
  }

  /** The calls after which the code brings its maximum up to date. */
  predicate Grows(c: Call, r: Header?) {
    (c.Allocate? || c.Change?) && r != null
  }

  ghost function AfterAll(s: Live, cs: seq<Call>, rs: seq<Header?>): (s': Live)
    requires Paired(s) && |cs| == |rs|
    ensures Paired(s')
  {
    if cs == [] then s
    else After(AfterAll(s, cs[..|cs| - 1], rs[..|cs| - 1]), cs[|cs| - 1], rs[|cs| - 1])
  }

  ghost predicate AllRight(s: Live, cs: seq<Call>, rs: seq<Header?>)
    requires Paired(s) && |cs| == |rs|
  {
    if cs == [] then true
    else
      var n := |cs| - 1;
      AllRight(s, cs[..n], rs[..n]) && Right(AfterAll(s, cs[..n], rs[..n]), cs[n], rs[n])
  }

  /** The bytes live at a time, and the most that have been since the start of the run. */
  ghost function Total(s: Live, cs: seq<Call>, rs: seq<Header?>): nat
    requires Paired(s) && |cs| == |rs|
  {
    Sum(AfterAll(s, cs, rs).rooms)
  }

  ghost function Peak(s: Live, peak: nat, cs: seq<Call>, rs: seq<Header?>): nat
    requires Paired(s) && |cs| == |rs|
  {
    if cs == [] then peak
    else Max(Peak(s, peak, cs[..|cs| - 1], rs[..|cs| - 1]), Total(s, cs, rs))
  }

  lemma NextCall(s: Live, peak: nat, cs: seq<Call>, rs: seq<Header?>, i: nat, r: Header?)
    requires Paired(s) && i == |rs| < |cs|
    ensures AfterAll(s, cs[..i + 1], rs + [r]) == After(AfterAll(s, cs[..i], rs), cs[i], r)
    ensures AllRight(s, cs[..i + 1], rs + [r]) <==> AllRight(s, cs[..i], rs) && Right(AfterAll(s, cs[..i], rs), cs[i], r)
    ensures Peak(s, peak, cs[..i + 1], rs + [r])
            == Max(Peak(s, peak, cs[..i], rs), Sum(After(AfterAll(s, cs[..i], rs), cs[i], r).rooms))
  {
    hide After, Right, Sum, Max;
    assert cs[..i + 1][..i] == cs[..i] && (rs + [r])[..i] == rs;
  }

  lemma NoCalls(s: Live, peak: nat)
    requires Paired(s)
    ensures AfterAll(s, [], []) == s && AllRight(s, [], []) && Peak(s, peak, [], []) == peak
  {
  }

  /** The block at a place in the chain, found by following the links. */
  method Nth(h: Heap, at: int) returns (p: Header?)
    requires h.Valid()
    ensures p == At(h.blocks, at)
  {
    if at < 0 {
      return null;
    }
    p := h.chain;
    var i := 0;
    while i < at && p != null
      invariant 0 <= i <= at && p == At(h.blocks, i)
    {
      p := p.next;
      i := i + 1;
    }
  }

  method Perform(h: Heap, c: Call) returns (r: Header?)
    requires h.Valid() && c.WellFormed()
    modifies h, h.blocks
    ensures h.Valid() && |h.blocks| == |h.rooms|
    ensures var s := Live(old(h.blocks), old(h.rooms));
            Paired(s) && Right(s, c, r) && Live(h.blocks, h.rooms) == After(s, c, r)
    ensures h.peak == Max(old(h.peak), Sum(h.rooms))
    ensures h.maxSize == if Grows(c, r) then Max(old(h.maxSize), h.curSize) else old(h.maxSize)
    ensures forall b :: b in h.blocks ==> b in old(h.blocks) || fresh(b)
  {
    hide Heap.Valid, Intact, Sum, Max, Passes, Cut, Write;
    h.Totals();
    match c {
      case Allocate(size, raw) =>
        r := h.Malloc(size, raw);
      case Release(at) =>
        var p := Nth(h, at);
        var freed := h.Free(p);
        r := if freed then p else null;
      case Change(at, size, raw, moves) =>
        var p := Nth(h, at);
        var back := if p == null then raw else Reallocated(p.tail, raw);
        r := h.Realloc(p, size, back, moves);
      case Store(at, from, v) =>
        var p := Nth(h, at);
        if p != null && from + |v| + SLACK <= |p.tail| {
          h.Poke(p, at, from, v);
        }
        r := null;
    }
    h.Totals();
  }

  /** What `realloc` hands back: the old bytes as far as they fit. */
  function Reallocated(tail: Bytes, raw: Bytes): (b: Bytes)
    ensures |b| == |raw| && forall i :: 0 <= i < |b| && i < |tail| ==> b[i] == tail[i]
  {
    if |tail| <= |raw| then tail + raw[|tail|..] else tail[..|raw|]
  }

  /** `mem_max_size` after a run, from the values of `mem_cur_size` after each call. */
  ghost function Top(max: nat, cs: seq<Call>, rs: seq<Header?>, sizes: seq<nat>): nat
    requires |cs| == |rs| == |sizes|
  {
    if cs == [] then max
    else
      var n := |cs| - 1;
      var before := Top(max, cs[..n], rs[..n], sizes[..n]);
      if Grows(cs[n], rs[n]) then Max(before, sizes[n]) else before
  }

  /** The running maximum of `mem_cur_size`. */
  function RunningMax(max: nat, sizes: seq<nat>): nat {
    if sizes == [] then max else Max(RunningMax(max, sizes[..|sizes| - 1]), sizes[|sizes| - 1])
  }

  /** The recorded maximum is the running maximum after every call. */
  ghost predicate TopIsMax(max: nat, cs: seq<Call>, rs: seq<Header?>, sizes: seq<nat>)
    requires |cs| == |rs| == |sizes|
  {
    if cs == [] then true
    else
      var n := |cs| - 1;
      TopIsMax(max, cs[..n], rs[..n], sizes[..n]) && Top(max, cs, rs, sizes) == RunningMax(max, sizes)
  }

  /** `mem_max_size` after a run, from the live totals. */
  ghost function Recorded(s: Live, max: nat, cs: seq<Call>, rs: seq<Header?>): nat
    requires Paired(s) && |cs| == |rs|
  {
    if cs == [] then max
    else
      var n := |cs| - 1;
      var before := Recorded(s, max, cs[..n], rs[..n]);
      if Grows(cs[n], rs[n]) then Max(before, Total(s, cs, rs) % WRAP) else before
  }

  /** Releasing `room` of `total` live bytes takes the 32-bit counter below zero, and what it wraps to
      exceeds the recorded maximum. */
  predicate WrapsAbove(total: nat, room: nat, max: nat) {
    total % WRAP < room % WRAP && total % WRAP + WRAP - room % WRAP > max
  }

  /** No release of the run does that. */
  ghost predicate NoWrapAbove(s: Live, max: nat, cs: seq<Call>, rs: seq<Header?>)
    requires Paired(s) && |cs| == |rs|
  {
    if cs == [] then true
    else
      var n := |cs| - 1;
      var before := AfterAll(s, cs[..n], rs[..n]);
      && NoWrapAbove(s, max, cs[..n], rs[..n])
      && (cs[n].Release? && rs[n] != null && 0 <= cs[n].at < |before.rooms| ==>
            !WrapsAbove(Sum(before.rooms), before.rooms[cs[n].at], Recorded(s, max, cs[..n], rs[..n])))
  }

  /** After each call the size counter is the live total modulo 2^32. */
  ghost predicate SizesRight(s: Live, cs: seq<Call>, rs: seq<Header?>, sizes: seq<nat>)
    requires Paired(s) && |cs| == |rs| == |sizes|
  {
    if cs == [] then true
    else
      var n := |cs| - 1;
      SizesRight(s, cs[..n], rs[..n], sizes[..n]) && sizes[n] == Total(s, cs, rs) % WRAP
  }

  lemma SizesLast(s: Live, cs: seq<Call>, rs: seq<Header?>, sizes: seq<nat>)
    requires Paired(s) && |cs| == |rs| == |sizes| > 0 && AllRight(s, cs, rs) && SizesRight(s, cs, rs, sizes)
    ensures var n := |cs| - 1;
            var before := AfterAll(s, cs[..n], rs[..n]);
            && AllRight(s, cs[..n], rs[..n]) && SizesRight(s, cs[..n], rs[..n], sizes[..n])
            && Right(before, cs[n], rs[n]) && sizes[n] == Sum(After(before, cs[n], rs[n]).rooms) % WRAP
            && Total(s, cs, rs) == Sum(After(before, cs[n], rs[n]).rooms)
            && Total(s, cs[..n], rs[..n]) == Sum(before.rooms)
  {
    hide After, Right, Sum, Paired;
  }

  lemma {:induction false} RecordedIsTop(s: Live, max: nat, cs: seq<Call>, rs: seq<Header?>, sizes: seq<nat>)
    requires Paired(s) && |cs| == |rs| == |sizes| && AllRight(s, cs, rs) && SizesRight(s, cs, rs, sizes)
    ensures Top(max, cs, rs, sizes) == Recorded(s, max, cs, rs)
  {
    hide AfterAll, AllRight, Total, SizesRight, Grows;
    if cs != [] {
      var n := |cs| - 1;
      SizesLast(s, cs, rs, sizes);
      RecordedIsTop(s, max, cs[..n], rs[..n], sizes[..n]);
    }
  }

  /** The size counter after a call that does not bring the maximum up to date. */
  lemma Lowered(s: Live, c: Call, r: Header?)
    requires Paired(s) && Right(s, c, r) && !Grows(c, r)
    ensures var size := Sum(After(s, c, r).rooms) % WRAP;
            if c.Release? && r != null then
              0 <= c.at < |s.rooms| &&
              size == (if Sum(s.rooms) % WRAP < s.rooms[c.at] % WRAP
                       then Sum(s.rooms) % WRAP + WRAP - s.rooms[c.at] % WRAP
                       else Sum(s.rooms) % WRAP - s.rooms[c.at] % WRAP)
            else size == Sum(s.rooms) % WRAP
    ensures c.Release? && r != null && Sum(s.rooms) % WRAP >= s.rooms[c.at] % WRAP ==>
              Sum(After(s, c, r).rooms) % WRAP <= Sum(s.rooms) % WRAP
  {
    hide Sum;
    if c.Release? && r != null {
      SumAt(s.rooms, c.at);
      ModSub(Sum(s.rooms), s.rooms[c.at]);
    }
  }

  lemma LastSize(s: Live, max: nat, cs: seq<Call>, rs: seq<Header?>, sizes: seq<nat>)
    requires Paired(s) && |cs| == |rs| == |sizes| && SizesRight(s, cs, rs, sizes) && Sum(s.rooms) % WRAP <= max
    ensures Total(s, cs, rs) % WRAP <= RunningMax(max, sizes)
  {
    hide Sum;
  }

  /** Over every run that starts with the counter not above the maximum: the recorded maximum is the
      largest value of the counter so far, after every call, if and only if no release takes the counter
      below zero to a value above it. */
  lemma {:induction false} TopExact(s: Live, max: nat, cs: seq<Call>, rs: seq<Header?>, sizes: seq<nat>)
    requires Paired(s) && |cs| == |rs| == |sizes| && AllRight(s, cs, rs) && SizesRight(s, cs, rs, sizes)
    requires Sum(s.rooms) % WRAP <= max
    ensures TopIsMax(max, cs, rs, sizes) <==> NoWrapAbove(s, max, cs, rs)
  {
    hide *;
    if cs == [] {
      NothingMissed(s, max);
    } else {
      var n := |cs| - 1;
      var before := AfterAll(s, cs[..n], rs[..n]);
      SizesLast(s, cs, rs, sizes);
      TopExact(s, max, cs[..n], rs[..n], sizes[..n]);
      TopNow(max, cs[..n], rs[..n], sizes[..n]);
      RecordedIsTop(s, max, cs[..n], rs[..n], sizes[..n]);
      LastSize(s, max, cs[..n], rs[..n], sizes[..n]);
      TopStep(max, cs, rs, sizes);
      NoWrapStep(s, max, cs, rs);
      if !Grows(cs[n], rs[n]) {
        Lowered(before, cs[n], rs[n]);
      } else {
        GrowsIs(cs[n], rs[n]);
      }
    }
  }

  lemma GrowsIs(c: Call, r: Header?)
    ensures Grows(c, r) ==> !c.Release?
  {
  }

  lemma NothingMissed(s: Live, max: nat)
    requires Paired(s)
    ensures TopIsMax(max, [], [], []) && NoWrapAbove(s, max, [], [])
  {
  }

  lemma TopStep(max: nat, cs: seq<Call>, rs: seq<Header?>, sizes: seq<nat>)
    requires |cs| == |rs| == |sizes| > 0
    ensures var n := |cs| - 1;
            var top, most, size := Top(max, cs[..n], rs[..n], sizes[..n]), RunningMax(max, sizes[..n]), sizes[n];
            TopIsMax(max, cs, rs, sizes) <==>
            TopIsMax(max, cs[..n], rs[..n], sizes[..n])
            && (if Grows(cs[n], rs[n]) && size > top then size else top) == if size > most then size else most
  {
    hide Grows;
  }

  lemma NoWrapStep(s: Live, max: nat, cs: seq<Call>, rs: seq<Header?>)
    requires Paired(s) && |cs| == |rs| > 0
    ensures var n := |cs| - 1;
            var before := AfterAll(s, cs[..n], rs[..n]);
            NoWrapAbove(s, max, cs, rs) <==>
            NoWrapAbove(s, max, cs[..n], rs[..n])
            && (cs[n].Release? && rs[n] != null && 0 <= cs[n].at < |before.rooms| ==>
                  var total, room := Sum(before.rooms), before.rooms[cs[n].at];
                  !(total % WRAP < room % WRAP && total % WRAP + WRAP - room % WRAP > Recorded(s, max, cs[..n], rs[..n])))
  {
    hide AfterAll, Sum, Recorded;
  }

  lemma TopNow(max: nat, cs: seq<Call>, rs: seq<Header?>, sizes: seq<nat>)
    requires |cs| == |rs| == |sizes|
    ensures TopIsMax(max, cs, rs, sizes) ==> Top(max, cs, rs, sizes) == RunningMax(max, sizes)
  {
    hide Grows;
  }

  /** Over every run of calls: the chain is exactly the live blocks, every guard of a block below
      2^32 bytes lies inside it and reads back its magic, the size counter is the live total modulo
      2^32 after each call, and the maximum is the largest size after an allocation. */
  method Run(h: Heap, cs: seq<Call>) returns (rs: seq<Header?>, sizes: seq<nat>)
    requires h.Valid() && forall c :: c in cs ==> c.WellFormed()
    modifies h, h.blocks
    ensures h.Valid() && |h.blocks| == |h.rooms| && |rs| == |sizes| == |cs|
    ensures var s := Live(old(h.blocks), old(h.rooms));
            && Paired(s) && AllRight(s, cs, rs) && Live(h.blocks, h.rooms) == AfterAll(s, cs, rs)
            && h.peak == Peak(s, old(h.peak), cs, rs)
            && SizesRight(s, cs, rs, sizes)
    ensures Linked(h.blocks) && h.chain == At(h.blocks, 0)
    ensures forall i :: 0 <= i < |h.blocks| && h.rooms[i] < WRAP ==> Intact(h.blocks[i])
    ensures h.curSize == Sum(h.rooms) % WRAP && h.maxSize == Top(old(h.maxSize), cs, rs, sizes)
    ensures h.peak < WRAP ==> h.curSize == Sum(h.rooms) && h.maxSize == h.peak
    ensures var s := Live(old(h.blocks), old(h.rooms));
            && Paired(s) && h.maxSize == Recorded(s, old(h.maxSize), cs, rs)
            && (old(h.curSize) <= old(h.maxSize) ==>
                  (TopIsMax(old(h.maxSize), cs, rs, sizes) <==> NoWrapAbove(s, old(h.maxSize), cs, rs)))
  {
    hide *;
    rs, sizes := [], [];
    ghost var s, peak, max := Live(h.blocks, h.rooms), h.peak, h.maxSize;
    NoCallsYet(h, s, peak, max);
    h.Totals();
    assert cs[..0] == [];
    while |rs| < |cs|
      invariant |rs| == |sizes| <= |cs| && h.Valid() && Paired(s)
      invariant forall k :: 0 <= k < |h.blocks| ==> h.blocks[k] in old(h.blocks) || fresh(h.blocks[k])
      invariant AllRight(s, cs[..|rs|], rs) && Live(h.blocks, h.rooms) == AfterAll(s, cs[..|rs|], rs)
      invariant h.peak == Peak(s, peak, cs[..|rs|], rs)
      invariant SizesRight(s, cs[..|rs|], rs, sizes)
      invariant h.maxSize == Top(max, cs[..|rs|], rs, sizes)
    {
      var i := |rs|;
      ghost var pre := h.blocks;
      assert forall b :: b in pre ==> b in old(h.blocks) || fresh(b);
      var r := Perform(h, cs[i]);
      assert forall k :: 0 <= k < |h.blocks| ==> h.blocks[k] in h.blocks;
      NextCall(s, peak, cs, rs, i, r);
      NextTop(max, cs, rs, sizes, i, r, h.curSize);
      NextSize(h, s, cs, rs, sizes, i, r);
      rs, sizes := rs + [r], sizes + [h.curSize];
    }
    assert cs[..|rs|] == cs;
    Spelled(h);
    RecordedIsTop(s, max, cs, rs, sizes);
    if old(h.curSize) <= max {
      TopExact(s, max, cs, rs, sizes);
    }
  }

  lemma NoCallsYet(h: Heap, s: Live, peak: nat, max: nat)
    requires h.Valid() && s == Live(h.blocks, h.rooms) && peak == h.peak && max == h.maxSize
    ensures Paired(s) && AfterAll(s, [], []) == s && AllRight(s, [], []) && Peak(s, peak, [], []) == peak
    ensures Top(max, [], [], []) == max && SizesRight(s, [], [], [])
  {
    NoCalls(s, peak);
  }

  lemma NextTop(max: nat, cs: seq<Call>, rs: seq<Header?>, sizes: seq<nat>, i: nat, r: Header?, size: nat)
    requires i == |rs| == |sizes| < |cs|
    ensures Top(max, cs[..i + 1], rs + [r], sizes + [size])
            == var before := Top(max, cs[..i], rs, sizes); if Grows(cs[i], r) then Max(before, size) else before
  {
    assert cs[..i + 1][..i] == cs[..i] && (rs + [r])[..i] == rs && (sizes + [size])[..i] == sizes;
  }

  lemma NextSize(h: Heap, s: Live, cs: seq<Call>, rs: seq<Header?>, sizes: seq<nat>, i: nat, r: Header?)
    requires h.Valid() && Paired(s) && i == |rs| == |sizes| < |cs|
    requires Live(h.blocks, h.rooms) == AfterAll(s, cs[..i + 1], rs + [r]) && SizesRight(s, cs[..i], rs, sizes)
    ensures SizesRight(s, cs[..i + 1], rs + [r], sizes + [h.curSize])
  {
    h.Totals();
    assert cs[..i + 1][..i] == cs[..i] && (rs + [r])[..i] == rs && (sizes + [h.curSize])[..i] == sizes;
  }

  lemma Spelled(h: Heap)
    requires h.Valid()
    ensures |h.blocks| == |h.rooms| && Linked(h.blocks) && h.chain == At(h.blocks, 0)
    ensures forall i :: 0 <= i < |h.blocks| && h.rooms[i] < WRAP ==> Intact(h.blocks[i])
    ensures h.curSize == Sum(h.rooms) % WRAP
    ensures h.peak < WRAP ==> h.curSize == Sum(h.rooms) && h.maxSize == h.peak
  {
  }

  // ----- a maximum that is missed

  lemma Three(h: Heap)
    requires h.Valid()
    ensures |h.blocks| == |h.rooms| && h.curSize == Sum(h.rooms) % WRAP
    ensures h.peak == 0 ==> h.maxSize == 0
    ensures forall k :: 0 <= k < |h.blocks| ==> Position(h.blocks, h.blocks[k]) == k
  {
    hide Sum, Linked;
    h.Totals();
  }

  lemma TwoSums(x: nat, y: nat)
    ensures Sum([x]) == x && Sum([x, y]) == x + y && Sum([]) == 0
  {
    assert [x, y][1..] == [y] && [x][1..] == [] && [y][1..] == [];
  }

  /** 3 GB, then 3.75 GB, then the first one freed: releasing wraps the counter up to 0xF0000000, above
      the recorded 0xC0000000. */
  method MaximumMissed(raw1: Bytes, raw2: Bytes) returns (h: Heap)
    requires |raw1| == 0xC000_0000 + SLACK && |raw2| == 0xF000_0000 + SLACK
    ensures fresh(h) && h.Valid() && h.curSize == 0xF000_0000 && h.maxSize == 0xC000_0000
  {
    hide Heap.Valid, Intact, Sum, Position, Cut;
    h := new Heap();
    Three(h);
    TwoSums(0xF000_0000, 0xC000_0000);
    TwoSums(0xC000_0000, 0);
    var p := h.Malloc(0xC000_0000, raw1);
    assert h.rooms == [0xC000_0000];
    Three(h);
    assert h.curSize == 0xC000_0000 && h.maxSize == 0xC000_0000;
    var q := h.Malloc(0xF000_0000, raw2);
    assert h.rooms == [0xF000_0000, 0xC000_0000] && h.blocks == [q, p];
    Three(h);
    assert h.curSize == 0xB000_0000 && h.maxSize == 0xC000_0000;
    var freed := h.Free(p);
    Three(h);
    OneCut(0xF000_0000, 0xC000_0000);
  }

  lemma OneCut(x: nat, y: nat)
    ensures Cut([x, y], 1) == [x]
  {
  }

  lemma AllocateOne(s: Live, c: Call, r: Header)
    requires Paired(s) && c.Allocate? && r !in s.blocks
    ensures After(s, c, r) == Live([r] + s.blocks, [c.size] + s.rooms) && Right(s, c, r) && Grows(c, r)
  {
  }

  lemma ReleaseRight(s: Live, at: int)
    requires Paired(s) && 0 <= at < |s.blocks| && s.rooms[at] < WRAP - 1
    ensures Right(s, Release(at), s.blocks[at])
  {
  }

  /** After the two allocations. */
  lemma TwoAllocated(s: Live, p: Header, q: Header, c1: Call, c2: Call)
    requires s == Live([], []) && p != q && c1.Allocate? && c2.Allocate?
    ensures Paired(s) && AllRight(s, [c1, c2], [p, q])
    ensures AfterAll(s, [c1, c2], [p, q]) == Live([q, p], [c2.size, c1.size])
    ensures Recorded(s, 0, [c1, c2], [p, q]) == Max(Max(0, c1.size % WRAP), (c2.size + c1.size) % WRAP)
  {
    hide *;
    EmptyPaired(s);
    var cs := [c1, c2];
    assert cs[..0] == [] && cs[..1] == [c1] && cs[..2] == cs && [] + [p] == [p] && [p] + [q] == [p, q];
    TwoSums(c2.size, c1.size);
    TwoSums(c1.size, 0);
    NoCalls(s, 0);
    NextCall(s, 0, cs, [], 0, p);
    AllocateOne(s, c1, p);
    var s1 := Live([p], [c1.size]);
    assert [p] + s.blocks == [p] && [c1.size] + s.rooms == [c1.size];
    NextCall(s, 0, cs, [p], 1, q);
    AllocateOne(s1, c2, q);
    assert [q] + s1.blocks == [q, p] && [c2.size] + s1.rooms == [c2.size, c1.size];
    RecordedNext(s, 0, cs, [], 0, p);
    RecordedNext(s, 0, cs, [p], 1, q);
  }

  lemma EmptyPaired(s: Live)
    requires s == Live([], [])
    ensures Paired(s)
  {
  }

  lemma Largest(x: nat, y: nat)
    ensures Max(x, y) == if x >= y then x else y
  {
  }

  lemma Numbers()
    ensures WRAP == 0x1_0000_0000 && 0xC000_0000 % WRAP == 0xC000_0000
    ensures (0xF000_0000 + 0xC000_0000) % WRAP == 0xB000_0000
  {
  }

  /** The same run against the condition of `TopExact`. */
  lemma MaximumMissedWraps(p: Header, q: Header, raw1: Bytes, raw2: Bytes)
    requires p != q
    ensures var s, rs := Live([], []), [p, q, p];
            var cs := [Allocate(0xC000_0000, raw1), Allocate(0xF000_0000, raw2), Release(1)];
            AllRight(s, cs, rs) && !NoWrapAbove(s, 0, cs, rs)
  {
    hide *;
    var c1, c2, c3 := Allocate(0xC000_0000, raw1), Allocate(0xF000_0000, raw2), Release(1);
    var s, cs, rs := Live([], []), [c1, c2, c3], [p, q, p];
    assert cs[..2] == [c1, c2] && rs[..2] == [p, q] && cs[..3] == cs && [p, q] + [p] == rs;
    Numbers();
    TwoAllocated(s, p, q, c1, c2);
    NextCall(s, 0, cs, [p, q], 2, p);
    ReleaseRight(Live([q, p], [0xF000_0000, 0xC000_0000]), 1);
    TwoSums(0xF000_0000, 0xC000_0000);
    Largest(0, 0xC000_0000);
    Largest(0xC000_0000, 0xB000_0000);
    NoWrapStep(s, 0, cs, rs);
  }

  lemma RecordedNext(s: Live, max: nat, cs: seq<Call>, rs: seq<Header?>, i: nat, r: Header?)
    requires Paired(s) && i == |rs| < |cs|
    ensures Recorded(s, max, [], []) == max
    ensures var before := Recorded(s, max, cs[..i], rs);
            Recorded(s, max, cs[..i + 1], rs + [r])
            == if Grows(cs[i], r) then Max(before, Sum(AfterAll(s, cs[..i + 1], rs + [r]).rooms) % WRAP) else before
  {
    hide AfterAll, Sum;
    assert cs[..i + 1][..i] == cs[..i] && (rs + [r])[..i] == rs;
  }
}
