/** The runtime context's device memory: a block list updated in place. */
module DeviceContext {
  import opened Arithmetic
  import opened Words
  import opened BlockList
  import opened DeviceMemory
  import opened Rounding

  datatype Status = Success | BadArgument | OutOfRange | NoMemory | NotFound

  datatype Reply<+T> = Done(value: T) | Error(status: Status)

  datatype Buffer = Buffer(addr: nat, size: nat)

  const COMPILER_SPILL_BYTES := 8192
  const INSTRUCTION_BYTES := 4

  datatype Config = Config(memoryBase: Word, memorySize: nat, programMemorySize: nat, defaultAlignment: nat)

  /** The alignment used when the configuration gives none. */
  function Alignment(c: Config): nat {
    if c.defaultAlignment != 0 then c.defaultAlignment else 4
  }

  /** Bytes set aside for the compiler: an eighth of memory, between 4 and 8192, rounded up. */
  function SpillSize(c: Config): nat {
    AlignUpSize(Min(COMPILER_SPILL_BYTES, Max(4, c.memorySize / 8)), Alignment(c))
  }

  /** The spill area leaves some memory over, and addresses do not wrap. */
  predicate Laid(c: Config) {
    c.memoryBase + c.memorySize < WORD_MODULUS && SpillSize(c) < c.memorySize
  }

  /** Rounding a small byte count never wraps. */
  lemma SmallRoundingExact(v: nat, alignment: nat)
    requires 0 < alignment < SIZE_MODULUS && v < WORD_MODULUS
    ensures AlignUpSize(v, alignment) >= v && AlignUpSize(v, alignment) % alignment == 0
  {
    if v % alignment != 0 {
      RoundedUp(v, alignment);
      ModBelow(v, alignment);
      var rounded := v + (alignment - v % alignment);
      assert rounded < SIZE_MODULUS;
      NoWrap(v, alignment, rounded);
    }
  }

  lemma NoWrap(v: nat, alignment: nat, rounded: nat)
    requires alignment != 0 && v % alignment != 0 && rounded == v + (alignment - v % alignment) < SIZE_MODULUS
    ensures AlignUpSize(v, alignment) == rounded
  {
    ModBelow(rounded, SIZE_MODULUS);
  }

  /** Where the spill area leaves memory over, it is a whole number of alignment units of at least four
      bytes, and the managed range below it is not empty. */
  lemma SpillLayout(c: Config)
    requires Laid(c) && c.defaultAlignment < SIZE_MODULUS
    ensures Alignment(c) != 0 && 4 <= SpillSize(c) < c.memorySize && SpillSize(c) % Alignment(c) == 0
    ensures c.memoryBase + c.memorySize < WORD_MODULUS
  {
    hide AlignUpSize;
    SmallRoundingExact(Min(COMPILER_SPILL_BYTES, Max(4, c.memorySize / 8)), Alignment(c));
  }

  /** The spill area a configuration asks for: the least multiple of the alignment that reaches an
      eighth of memory, that eighth counted as 4 at least and 8192 at most. */
  predicate SpillArea(c: Config, size: nat) {
    var unit := if c.defaultAlignment == 0 then 4 else c.defaultAlignment;
    var eighth := c.memorySize / 8;
    var need := if eighth < 4 then 4 else if eighth > 8192 then 8192 else eighth;
    size % unit == 0 && need <= size < need + unit
  }

  lemma SpillAreaUnique(c: Config, size: nat, other: nat)
    requires SpillArea(c, size) && SpillArea(c, other)
    ensures size == other
  {
    var unit := if c.defaultAlignment == 0 then 4 else c.defaultAlignment;
    if size < other { MultipleBetween(size, other, unit); }
    if other < size { MultipleBetween(other, size, unit); }
  }

  lemma SpillSizeIs(c: Config)
    requires c.defaultAlignment < SIZE_MODULUS
    ensures SpillArea(c, SpillSize(c))
  {
    var need := Min(COMPILER_SPILL_BYTES, Max(4, c.memorySize / 8));
    SmallRoundingExact(need, Alignment(c));
    RoundingHonours(need, Alignment(c));
  }

  predicate InBounds(bs: seq<Block>) {
    forall i :: 0 <= i < |bs| ==> End(bs[i]) < WORD_MODULUS
  }

  lemma FirstFitAt(bs: seq<Block>, size: nat, alignment: nat, i: nat)
    requires Unit(alignment) != 0 && Addressable(bs) && i < |bs| && Admits(bs[i], size, alignment)
    requires forall j :: 0 <= j < i ==> !Admits(bs[j], size, alignment)
    ensures FirstFit(bs, size, alignment) == Some(i)
  {
  }

  lemma FirstFitNone(bs: seq<Block>, size: nat, alignment: nat)
    requires Unit(alignment) != 0 && Addressable(bs)
    requires forall j :: 0 <= j < |bs| ==> !Admits(bs[j], size, alignment)
    ensures FirstFit(bs, size, alignment) == None
  {
  }

  lemma LiveIndexAt(bs: seq<Block>, addr: nat, i: nat)
    requires i < |bs| && !bs[i].free && bs[i].offset == addr
    requires forall j :: 0 <= j < i ==> bs[j].free || bs[j].offset != addr
    ensures LiveIndex(bs, addr) == Some(i)
    decreases |bs|
  {
    if i > 0 { LiveIndexAt(bs[1..], addr, i - 1); }
  }

  lemma CarveInBounds(bs: seq<Block>, i: nat, addr: nat, size: nat)
    requires InBounds(bs) && i < |bs| && bs[i].offset <= addr && addr + size <= End(bs[i])
    ensures InBounds(Carve(bs, i, addr, size))
  {
  }

  lemma CarveIs(bs: seq<Block>, i: nat, addr: nat, size: nat, result: seq<Block>, front: seq<Block>, back: seq<Block>)
    requires i < |bs| && bs[i].offset <= addr && addr + size <= End(bs[i])
    requires front == bs[..i] + Piece(bs[i].offset, addr - bs[i].offset) && back == bs[i + 1..]
    requires addr + size == End(bs[i]) ==> result == front + [Block(addr, size, false)] + back
    requires addr + size < End(bs[i]) ==>
               result == front + [Block(addr, size, false)]
                         + [Block(addr + size, End(bs[i]) - addr - size, true)] + back
    ensures result == Carve(bs, i, addr, size)
  {
  }

  lemma UpdateAt<T>(front: seq<T>, x: T, back: seq<T>, y: T)
    ensures (front + [x] + back)[|front| := y] == front + [y] + back
  {
  }

  lemma InsertAt<T>(front: seq<T>, back: seq<T>, x: T)
    ensures (front + back)[..|front|] + [x] + (front + back)[|front|..] == front + [x] + back
  {
  }

  lemma MergeJoins(bs: seq<Block>, i: nat, joined: seq<Block>)
    requires i + 1 < |bs| && bs[i].free && bs[i + 1].free && End(bs[i]) == bs[i + 1].offset
    requires joined == bs[..i] + [Block(bs[i].offset, bs[i].size + bs[i + 1].size, true)] + bs[i + 2..]
    ensures joined[..i] == bs[..i] && Merge(joined[i..]) == Merge(bs[i..])
    ensures InBounds(bs) ==> InBounds(joined)
  {
    var tail := bs[i..];
    assert joined[i..] == [Block(tail[0].offset, tail[0].size + tail[1].size, true)] + tail[2..];
  }

  lemma MergeShort(bs: seq<Block>)
    requires |bs| < 2
    ensures Merge(bs) == bs
  {
  }

  lemma MergePasses(bs: seq<Block>, i: nat)
    requires i + 1 < |bs| && !(bs[i].free && bs[i + 1].free && End(bs[i]) == bs[i + 1].offset)
    ensures bs[..i] + Merge(bs[i..]) == bs[..i + 1] + Merge(bs[i + 1..])
  {
    assert bs[i..][1..] == bs[i + 1..];
  }

  class Context {
    const memoryBase: Word
    const memorySize: nat
    const spillBase: nat
    const spillSize: nat
    const defaultAlignment: nat
    var blocks: seq<Block>

    /** Weak enough to survive a request whose rounding wrapped. */
    predicate Valid()
      reads this
    {
      InBounds(blocks) && defaultAlignment != 0
    }

    ghost predicate Tiled()
      reads this
    {
      spillSize <= memorySize && Managed(blocks, memoryBase, memorySize - spillSize)
    }

    constructor (c: Config)
      requires Laid(c) && c.defaultAlignment < SIZE_MODULUS
      ensures Valid() && Tiled()
      ensures blocks == [Block(c.memoryBase, c.memorySize - SpillSize(c), true)]
      ensures memoryBase == c.memoryBase && memorySize == c.memorySize
      ensures spillSize == SpillSize(c) && spillBase == c.memoryBase + c.memorySize - SpillSize(c)
      ensures defaultAlignment == Alignment(c)
    {
      hide SpillSize, Alignment;
      SpillLayout(c);
      memoryBase := c.memoryBase;
      memorySize := c.memorySize;
      defaultAlignment := Alignment(c);
      spillSize := SpillSize(c);
      spillBase := Wrap(c.memoryBase + Wrap(c.memorySize - SpillSize(c)));
      blocks := [Block(c.memoryBase, c.memorySize - SpillSize(c), true)];
      new;
      assert blocks[1..] == [] && Tiles(blocks[1..], memoryBase + blocks[0].size, 0);
    }

    /** Construction succeeds, or throws the status that the configuration's fields earn: memory must not
        be empty, program memory must be a positive number of whole words, the addresses must not pass
        32 bits, and the spill area must leave some memory over. */
    static method Open(c: Config) returns (status: Status, context: Context?)
      requires c.defaultAlignment < SIZE_MODULUS
      ensures status == BadArgument <==>
                c.memorySize == 0 || c.programMemorySize == 0 || c.programMemorySize % 4 != 0
      ensures status == OutOfRange <==>
                && c.memorySize > 0 && c.programMemorySize > 0 && c.programMemorySize % 4 == 0
                && c.memoryBase + c.memorySize > 0xFFFF_FFFF
      ensures forall spill: nat :: SpillArea(c, spill) ==>
                (status == NoMemory <==>
                   && c.memorySize > 0 && c.programMemorySize > 0 && c.programMemorySize % 4 == 0
                   && c.memoryBase + c.memorySize <= 0xFFFF_FFFF && c.memorySize <= spill)
      ensures forall spill: nat :: SpillArea(c, spill) ==>
                (status == Success <==>
                   && c.memorySize > 0 && c.programMemorySize > 0 && c.programMemorySize % 4 == 0
                   && c.memoryBase + c.memorySize <= 0xFFFF_FFFF && spill < c.memorySize)
      ensures status == Success <==> context != null
      ensures context != null ==>
                && fresh(context) && context.Valid() && context.Tiled()
                && SpillArea(c, context.spillSize) && context.spillSize < c.memorySize
                && context.memoryBase == c.memoryBase && context.memorySize == c.memorySize
                && context.spillBase == c.memoryBase + c.memorySize - context.spillSize
                && context.blocks == [Block(c.memoryBase, c.memorySize - context.spillSize, true)]
                && context.defaultAlignment == (if c.defaultAlignment == 0 then 4 else c.defaultAlignment)
    {
      hide SpillArea, SpillSize;
      SpillSizeIs(c);
      forall spill: nat | SpillArea(c, spill) ensures spill == SpillSize(c) { SpillAreaUnique(c, spill, SpillSize(c)); }
      if c.memorySize == 0 {
        return BadArgument, null;
      }
      if c.programMemorySize == 0 || c.programMemorySize % INSTRUCTION_BYTES != 0 {
        return BadArgument, null;
      }
      if c.memorySize > WORD_MODULUS - 1 - c.memoryBase {
        return OutOfRange, null;
      }
      if SpillSize(c) >= c.memorySize {
        return NoMemory, null;
      }
      status := Success;
      context := new Context(c);
    }

    /** Splits a free block around an aligned range, keeping what is before and after it free. */
    method CarveAt(at: nat, aligned: nat, padding: nat, size: nat)
      requires Valid() && at < |blocks| && blocks[at].free
      requires aligned == blocks[at].offset + padding && aligned + size <= End(blocks[at])
      modifies this`blocks
      ensures Valid() && blocks == Carve(old(blocks), at, aligned, size)
    {
      assert End(blocks[at]) < WORD_MODULUS;
      hide Carve, InBounds;
      ghost var was, front, back := blocks[at], blocks[..at], blocks[at + 1..];
      CarveInBounds(blocks, at, aligned, size);
      var index := at;
      if padding != 0 {
        var prefix := Block(blocks[index].offset, padding, true);
        blocks := blocks[index := Block(aligned, blocks[index].size - padding, true)];
        InsertAt(front, [blocks[index]] + back, prefix);
        assert blocks == front + ([blocks[index]] + back);
        blocks := blocks[..index] + [prefix] + blocks[index..];
        index := index + 1;
        front := front + [prefix];
      }
      ghost var whole := Block(aligned, was.size - padding, true);
      assert blocks == front + [whole] + back && index == |front|;
      UpdateAt(front, whole, back, Block(aligned, size, false));
      var addr := blocks[index].offset;
      if blocks[index].size > size {
        var tail := Block(Wrap(blocks[index].offset + Wrap(size)), blocks[index].size - size, true);
        blocks := blocks[index := Block(addr, size, false)];
        InsertAt(front + [Block(addr, size, false)], back, tail);
        assert tail == Block(aligned + size, End(was) - aligned - size, true);
        assert index + 1 == |front + [Block(addr, size, false)]|;
        blocks := blocks[..index + 1] + [tail] + blocks[index + 1..];
      } else {
        blocks := blocks[index := blocks[index].(free := false)];
      }
      CarveIs(old(blocks), at, aligned, size, blocks, front, back);
    }

    method DeviceMallocAligned(size: nat, alignment: nat) returns (r: Reply<Buffer>)
      requires Valid() && size < SIZE_MODULUS && alignment < SIZE_MODULUS
      requires alignment != 0 ==> Unit(alignment) != 0
      modifies this`blocks
      ensures Valid()
      ensures size == 0 || alignment == 0 ==> r == Error(BadArgument) && blocks == old(blocks)
      ensures size != 0 && alignment != 0 ==>
                match Malloc(old(blocks), size, alignment)
                case None => r == Error(NoMemory) && blocks == old(blocks)
                case Some(g) => r == Done(Buffer(g.addr, g.size)) && blocks == g.blocks
      ensures old(Tiled()) && AlignUpSize(size, alignment) != 0 ==> Tiled()
    {
      hide Unit, AlignUpAddr, Tiles, Settled, Carve, Busy, AlignUpSize;
      if size == 0 || alignment == 0 {
        return Error(BadArgument);
      }
      var rounded := AlignUpSize(size, alignment);
      var index := 0;
      while index < |blocks|
        invariant index <= |blocks| && blocks == old(blocks)
        invariant forall j :: 0 <= j < index ==> !Admits(blocks[j], rounded, alignment)
      {
        var aligned := AlignUpAddr(blocks[index].offset, alignment);
        var padding := Wrap(aligned - blocks[index].offset);
        assert padding == Padding(blocks[index].offset, alignment);
        if !blocks[index].free || padding > blocks[index].size || rounded > blocks[index].size - padding {
          index := index + 1;
          continue;
        }
        FirstFitAt(blocks, rounded, alignment, index);
        assert aligned == blocks[index].offset + padding;
        CarveAt(index, aligned, padding, rounded);
        if old(Tiled()) && rounded != 0 {
          ghost var i := PlaceKeeps(old(blocks), memoryBase, memorySize - spillSize, rounded, alignment);
        }
        return Done(Buffer(aligned, rounded));
      }
      FirstFitNone(blocks, rounded, alignment);
      return Error(NoMemory);
    }

    /** Merges free neighbours in one pass, staying at a block while it still grows. */
    method CoalesceFreeBlocks()
      requires Valid()
      modifies this`blocks
      ensures Valid() && blocks == Merge(old(blocks))
    {
      hide InBounds, Merge;
      var i := 0;
      assert blocks[0..] == blocks;
      while i + 1 < |blocks|
        invariant InBounds(blocks) && i <= |blocks|
        invariant blocks == [] ==> i == 0
        invariant Merge(old(blocks)) == blocks[..i] + Merge(blocks[i..])
        decreases |blocks| - i
      {
        var block, next := blocks[i], blocks[i + 1];
        ghost var was := blocks;
        if block.free && next.free && End(block) == next.offset {
          blocks := blocks[i := Block(block.offset, block.size + next.size, true)];
          blocks := blocks[..i + 1] + blocks[i + 2..];
          MergeJoins(was, i, blocks);
        } else {
          MergePasses(was, i);
          i := i + 1;
        }
      }
      MergeShort(blocks[i..]);
      assert blocks[..i] + blocks[i..] == blocks;
    }

    /** Frees the live block at an address, or reports that there is none. */
    method DeviceFree(addr: nat) returns (status: Status)
      requires Valid()
      modifies this`blocks
      ensures Valid()
      ensures match Free(old(blocks), addr)
              case None => status == NotFound && blocks == old(blocks)
              case Some(bs) => status == Success && blocks == bs
      ensures old(Tiled()) ==> Tiled()
    {
      var i := 0;
      while i < |blocks|
        invariant i <= |blocks| && blocks == old(blocks)
        invariant forall j :: 0 <= j < i ==> blocks[j].free || blocks[j].offset != addr
      {
        if !blocks[i].free && blocks[i].offset == addr {
          LiveIndexAt(blocks, addr, i);
          blocks := blocks[i := blocks[i].(free := true)];
          CoalesceFreeBlocks();
          if old(Tiled()) {
            ReleaseKeeps(old(blocks), memoryBase, memorySize - spillSize, i);
          }
          return Success;
        }
        i := i + 1;
      }
      return NotFound;
    }

    /** Free bytes of the list; with the live bytes they make up the managed range. */
    method MemoryFree() returns (total: nat)
      ensures total == FreeBytes(blocks)
      ensures Tiled() ==> total + LiveBytes(Busy(blocks)) == memorySize - spillSize
    {
      total := 0;
      var i := 0;
      assert blocks[0..] == blocks;
      while i < |blocks|
        invariant i <= |blocks| && total + FreeBytes(blocks[i..]) == FreeBytes(blocks)
      {
        assert blocks[i..][1..] == blocks[i + 1..];
        if blocks[i].free {
          total := total + blocks[i].size;
        }
        i := i + 1;
      }
      if spillSize <= memorySize && Managed(blocks, memoryBase, memorySize - spillSize) {
        Conservation(blocks, memoryBase, memorySize - spillSize);
      }
    }

    /** Whether a transfer lies inside one live block; an empty transfer always does. */
    method RangeIsAllocated(addr: Word, size: nat) returns (r: bool)
      requires Valid()
      ensures r <==> size == 0 || exists b :: b in Busy(blocks) && b.offset <= addr && addr + size <= End(b)
    {
      if size == 0 {
        return true;
      }
      var i := 0;
      while i < |blocks|
        invariant i <= |blocks|
        invariant forall j :: 0 <= j < i ==>
                    !(!blocks[j].free && blocks[j].offset <= addr && addr + size <= End(blocks[j]))
      {
        if !blocks[i].free && addr >= blocks[i].offset && size <= WORD_MODULUS - 1 - addr
           && addr + size <= End(blocks[i]) {
          BusyIn(blocks, blocks[i]);
          return true;
        }
        i := i + 1;
      }
      forall b | b in Busy(blocks) && b.offset <= addr && addr + size <= End(b) ensures false {
        BusyIn(blocks, b);
      }
      return false;
    }
  }
}
