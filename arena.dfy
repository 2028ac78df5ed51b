/** The bump allocator of include/json/arena.hpp. Memory is modelled abstractly:
    `blocks` holds the sizes of the blocks in `blocks_`, in allocation order, and
    an address is a (block index, byte offset) pair. Blocks come from
    `::operator new`, whose result is aligned to `MaxAlign`, so aligning an
    address to a power of two no larger than that is aligning its offset. */
module Arena {

  const DefaultBlockSize: nat := 64 * 1024

  /** The alignment `::operator new` guarantees (__STDCPP_DEFAULT_NEW_ALIGNMENT__). */
  const MaxAlign: nat := 16

  /** Layout of the allocated types on a 64-bit target. */
  const NodeSize: nat := 24
  const NodeAlign: nat := 8
  const PointerSize: nat := 8
  const PointerAlign: nat := 8
  const PairSize: nat := 24
  const PairAlign: nat := 8

  predicate IsPowerOfTwo(n: nat) {
    n == 1 || (n >= 2 && n % 2 == 0 && IsPowerOfTwo(n / 2))
  }

  /** An alignment `alloc<T>` can ask for: `alignof(T)` is a power of two, and
      none of the allocated types is over-aligned. */
  predicate ValidAlign(align: nat) {
    IsPowerOfTwo(align) && align <= MaxAlign
  }

  lemma ValidAlignCases(align: nat)
    requires ValidAlign(align)
    ensures align == 1 || align == 2 || align == 4 || align == 8 || align == 16
  {
    if align > 1 {
      assert IsPowerOfTwo(align / 2);
      if align / 2 > 1 {
        assert IsPowerOfTwo(align / 4);
        if align / 4 > 1 {
          assert IsPowerOfTwo(align / 8);
        }
      }
    }
  }

  datatype Addr = Addr(block: nat, offset: nat)

  /** A region handed out by `alloc`: its first byte and its length. */
  datatype Region = Region(at: Addr, size: nat)

  /** `(addr + alignment - 1) & ~(alignment - 1)`: the least multiple of `align`
      that is at least `off`. */
  function AlignUp(off: nat, align: nat): (r: nat)
    requires ValidAlign(align)
    ensures r % align == 0
    ensures off <= r < off + align
    ensures off % align == 0 ==> r == off
  {
    AlignUpBounds(off, align);
    off + (align - off % align) % align
  }

  lemma AlignUpBounds(off: nat, align: nat)
    requires ValidAlign(align)
    ensures (off + (align - off % align) % align) % align == 0
    ensures 0 <= (align - off % align) % align < align
    ensures off % align == 0 ==> (align - off % align) % align == 0
  {
    ValidAlignCases(align);
    if align == 1 {
      AlignUp1(off);
    } else if align == 2 {
      AlignUp2(off);
    } else if align == 4 {
      AlignUp4(off);
    } else if align == 8 {
      AlignUp8(off);
    } else {
      AlignUp16(off);
    }
  }

  lemma AlignUp1(off: nat)
    ensures (off + (1 - off % 1) % 1) % 1 == 0 && (1 - off % 1) % 1 == 0
  {
  }

  lemma AlignUp2(off: nat)
    ensures (off + (2 - off % 2) % 2) % 2 == 0 && 0 <= (2 - off % 2) % 2 < 2
    ensures off % 2 == 0 ==> (2 - off % 2) % 2 == 0
  {
  }

  lemma AlignUp4(off: nat)
    ensures (off + (4 - off % 4) % 4) % 4 == 0 && 0 <= (4 - off % 4) % 4 < 4
    ensures off % 4 == 0 ==> (4 - off % 4) % 4 == 0
  {
  }

  lemma AlignUp8(off: nat)
    ensures (off + (8 - off % 8) % 8) % 8 == 0 && 0 <= (8 - off % 8) % 8 < 8
    ensures off % 8 == 0 ==> (8 - off % 8) % 8 == 0
  {
  }

  lemma AlignUp16(off: nat)
    ensures (off + (16 - off % 16) % 16) % 16 == 0 && 0 <= (16 - off % 16) % 16 < 16
    ensures off % 16 == 0 ==> (16 - off % 16) % 16 == 0
  {
  }

  /** Two regions share no byte. */
  predicate Disjoint(a: Region, b: Region) {
    a.at.block != b.at.block
    || a.at.offset + a.size <= b.at.offset
    || b.at.offset + b.size <= a.at.offset
  }

  /** The region lies inside one block. */
  ghost predicate InsideBlock(blocks: seq<nat>, r: Region) {
    r.at.block < |blocks| && r.at.offset + r.size <= blocks[r.at.block]
  }

  /** Every live region lies inside one block, below the bump pointer when it is in
      the current block, and no two live regions overlap. */
  ghost predicate LiveRegions(blocks: seq<nat>, current: Addr, live: seq<Region>) {
    && (forall i | 0 <= i < |live| :: InsideBlock(blocks, live[i]))
    && (forall i | 0 <= i < |live| && live[i].at.block == current.block ::
          live[i].at.offset + live[i].size <= current.offset)
    && (forall i, j | 0 <= i < j < |live| :: Disjoint(live[i], live[j]))
  }

  /** Bumping a region at or after the bump pointer keeps the live regions apart. */
  lemma BumpKeepsLive(blocks: seq<nat>, current: Addr, live: seq<Region>, a: Addr, size: nat)
    requires LiveRegions(blocks, current, live)
    requires current.block < |blocks|
    requires a.block == current.block && current.offset <= a.offset
    requires a.offset + size <= blocks[a.block]
    ensures LiveRegions(blocks, Addr(a.block, a.offset + size), live + [Region(a, size)])
  {
    var live' := live + [Region(a, size)];
    forall i, j | 0 <= i < j < |live'| ensures Disjoint(live'[i], live'[j]) {
      if j == |live| {
        assert live'[i] == live[i];
      }
    }
  }

  /** A region at the start of a block appended to `blocks` is apart from every
      live region; the bump pointer may stay or move to that block. */
  lemma NewBlockKeepsLive(blocks: seq<nat>, current: Addr, live: seq<Region>, size: nat,
                          blockSize: nat, current': Addr)
    requires LiveRegions(blocks, current, live)
    requires current.block < |blocks|
    requires current' == current || (current' == Addr(|blocks|, size) && size <= blockSize)
    ensures LiveRegions(blocks + [if current' == current then size else blockSize], current',
                        live + [Region(Addr(|blocks|, 0), size)])
  {
    var blocks' := blocks + [if current' == current then size else blockSize];
    var live' := live + [Region(Addr(|blocks|, 0), size)];
    forall i | 0 <= i < |live'| ensures InsideBlock(blocks', live'[i]) {
      if i < |live| {
        assert live'[i] == live[i];
        assert blocks'[live[i].at.block] == blocks[live[i].at.block];
      }
    }
    forall i | 0 <= i < |live'| && live'[i].at.block == current'.block
      ensures live'[i].at.offset + live'[i].size <= current'.offset
    {
      if i < |live| {
        assert live'[i] == live[i];
      }
    }
    forall i, j | 0 <= i < j < |live'| ensures Disjoint(live'[i], live'[j]) {
      if j == |live| {
        assert live'[i] == live[i];
      }
    }
  }

  class Arena {
    const blockSize: nat
    /** Sizes of the blocks in `blocks_`; block 0 is the first standard block. */
    var blocks: seq<nat>
    /** `current_`: the bump pointer, inside a standard block. */
    var current: Addr
    /** `remaining_`: bytes left in the current block after `current`. */
    var remaining: nat
    /** The regions handed out since construction or the last `reset`. */
    ghost var live: seq<Region>

    ghost predicate Valid()
      reads this
    {
      && |blocks| > 0
      && blocks[0] == blockSize
      && current.block < |blocks|
      && blocks[current.block] == blockSize
      // current_ + remaining_ is the end of the current block
      && current.offset + remaining == blockSize
      && LiveRegions(blocks, current, live)
    }

    /** The request fits the current block after alignment padding. */
    function Fits(size: nat, align: nat): bool
      requires ValidAlign(align)
      reads this
    {
      AlignUp(current.offset, align) + size <= current.offset + remaining
    }

    /** `Arena(block_size)`: one standard block, the bump pointer at its start. */
    constructor (blockSize: nat)
      ensures Valid()
      ensures this.blockSize == blockSize
      ensures blocks == [blockSize] && current == Addr(0, 0) && remaining == blockSize
      ensures live == []
    {
      this.blockSize := blockSize;
      blocks := [];
      current := Addr(0, 0);
      remaining := 0;
      live := [];
      new;
      AllocateBlock();
    }

    /** `allocate_block`: appends a standard block and moves the bump pointer to it. */
    method AllocateBlock()
      modifies this
      ensures blocks == old(blocks) + [blockSize]
      ensures current == Addr(old(|blocks|), 0) && remaining == blockSize
      ensures live == old(live)
    {
      blocks := blocks + [blockSize];
      current := Addr(|blocks| - 1, 0);
      remaining := blockSize;
    }

    /** `alloc<T>(count)` for `size == sizeof(T) * count` bytes aligned to
        `align == alignof(T)`. A request that fits is bumped from the current block;
        one larger than a standard block gets a dedicated block of exactly its size
        and leaves the bump pointer alone; otherwise a new standard block is started
        and the request retried once, which then always fits. */
    method Alloc(size: nat, align: nat) returns (a: Addr)
      requires Valid()
      requires ValidAlign(align)
      modifies this
      decreases if Fits(size, align) then 0 else 1
      ensures Valid()
      ensures a.offset % align == 0
      ensures live == old(live) + [Region(a, size)]
      ensures old(Fits(size, align)) ==>
        && a == Addr(old(current.block), AlignUp(old(current.offset), align))
        && blocks == old(blocks)
        && current == Addr(a.block, a.offset + size)
        && remaining == old(remaining) - (a.offset - old(current.offset)) - size
      ensures !old(Fits(size, align)) && size > blockSize ==>
        && a == Addr(old(|blocks|), 0)
        && blocks == old(blocks) + [size]
        && current == old(current) && remaining == old(remaining)
      ensures !old(Fits(size, align)) && size <= blockSize ==>
        && a == Addr(old(|blocks|), 0)
        && blocks == old(blocks) + [blockSize]
        && current == Addr(old(|blocks|), size) && remaining == blockSize - size
    {
      var aligned := AlignUp(current.offset, align);
      var padding := aligned - current.offset;
      if padding + size > remaining {
        if size > blockSize {
          a := AllocLarge(size);
          return;
        }
        AllocateBlock();
        assert LiveRegions(blocks, current, live) by {
          assert forall i | 0 <= i < |live| :: live[i].at.block < |blocks| - 1;
        }
        assert AlignUp(current.offset, align) == 0;
        a := Alloc(size, align);
        return;
      }
      a := Bump(size, align);
    }

    /** The bump in `alloc`: padding up to the alignment, then `size` bytes. */
    method Bump(size: nat, align: nat) returns (a: Addr)
      requires Valid() && ValidAlign(align) && Fits(size, align)
      modifies this
      ensures Valid()
      ensures live == old(live) + [Region(a, size)]
      ensures a == Addr(old(current.block), AlignUp(old(current.offset), align))
      ensures blocks == old(blocks)
      ensures current == Addr(a.block, a.offset + size)
      ensures remaining == old(remaining) - (a.offset - old(current.offset)) - size
    {
      var padding := AlignUp(current.offset, align) - current.offset;
      BumpKeepsLive(blocks, current, live, Addr(current.block, current.offset + padding), size);
      current := Addr(current.block, current.offset + padding);
      remaining := remaining - padding;
      a := current;
      current := Addr(current.block, current.offset + size);
      remaining := remaining - size;
      live := live + [Region(a, size)];
    }

    /** The large-allocation branch of `alloc`: a dedicated block of exactly `size`
        bytes, appended to `blocks_`; the bump pointer stays in its block. */
    method AllocLarge(size: nat) returns (a: Addr)
      requires Valid()
      modifies this
      ensures Valid()
      ensures a == Addr(old(|blocks|), 0)
      ensures live == old(live) + [Region(a, size)]
      ensures blocks == old(blocks) + [size]
      ensures current == old(current) && remaining == old(remaining)
    {
      NewBlockKeepsLive(blocks, current, live, size, blockSize, current);
      a := Addr(|blocks|, 0);
      blocks := blocks + [size];
      live := live + [Region(a, size)];
    }

    /** `reset`: rewinds the bump pointer to the start of block 0. Nothing is freed;
        every earlier region is dead, and any request of at most a block fits. */
    method Reset()
      requires Valid()
      modifies this
      ensures Valid()
      ensures blocks == old(blocks)
      ensures current == Addr(0, 0) && remaining == blockSize
      ensures live == []
      ensures forall size: nat, align: nat | size <= blockSize && ValidAlign(align) :: Fits(size, align)
    {
      if |blocks| > 0 {
        current := Addr(0, 0);
        remaining := blockSize;
      }
      live := [];
    }
  }

  /** After `reset` the next allocation that fits a standard block returns the base
      of block 0 and adds no block. */
  method ResetReusesFirstBlock(arena: Arena, size: nat, align: nat) returns (a: Addr)
    requires arena.Valid() && ValidAlign(align)
    requires size <= arena.blockSize
    modifies arena
    ensures a == Addr(0, 0)
    ensures arena.blocks == old(arena.blocks)
  {
    arena.Reset();
    a := arena.Alloc(size, align);
  }
}
