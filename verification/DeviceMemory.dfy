/** The first-fit device allocator on block lists: placement, freeing, and what any run of
    allocations and frees keeps. */
module DeviceMemory {
  import opened Words
  import opened BlockList
  import opened Rounding

  predicate Admits(b: Block, size: nat, alignment: nat)
    requires Unit(alignment) != 0 && b.offset < WORD_MODULUS
  {
    b.free && Padding(b.offset, alignment) <= b.size && size <= b.size - Padding(b.offset, alignment)
  }

  /** Every block starts at a 32-bit address. */
  predicate Addressable(bs: seq<Block>) {
    forall i :: 0 <= i < |bs| ==> bs[i].offset < WORD_MODULUS
  }

  function FirstFit(bs: seq<Block>, size: nat, alignment: nat): (i: Option<nat>)
    requires Unit(alignment) != 0 && Addressable(bs)
    ensures i.Some? ==> i.value < |bs| && Admits(bs[i.value], size, alignment)
    ensures forall j :: 0 <= j < (if i.Some? then i.value else |bs|) ==> !Admits(bs[j], size, alignment)
  {
    if bs == [] then None
    else if Admits(bs[0], size, alignment) then Some(0)
    else match FirstFit(bs[1..], size, alignment)
      case None => None
      case Some(i) => Some(i + 1)
  }

  function Piece(offset: nat, size: nat): seq<Block> {
    if size == 0 then [] else [Block(offset, size, true)]
  }

  /** Block i with its middle taken: what is left before and after stays free. */
  function Carve(bs: seq<Block>, i: nat, addr: nat, size: nat): seq<Block>
    requires i < |bs| && bs[i].offset <= addr && addr + size <= End(bs[i])
  {
    bs[..i]
    + (Piece(bs[i].offset, addr - bs[i].offset) + [Block(addr, size, false)]
       + Piece(addr + size, End(bs[i]) - addr - size))
    + bs[i + 1..]
  }

  datatype Grant = Grant(blocks: seq<Block>, addr: nat, size: nat)

  /** Allocation of a rounded byte count. */
  function Place(bs: seq<Block>, size: nat, alignment: nat): Option<Grant>
    requires Unit(alignment) != 0 && Addressable(bs)
  {
    match FirstFit(bs, size, alignment)
    case None => None
    case Some(i) =>
      var addr := bs[i].offset + Padding(bs[i].offset, alignment);
      Some(Grant(Carve(bs, i, addr, size), addr, size))
  }

  function Malloc(bs: seq<Block>, size: nat, alignment: nat): Option<Grant>
    requires Unit(alignment) != 0 && Addressable(bs)
  {
    Place(bs, AlignUpSize(size, alignment), alignment)
  }

  function LiveIndex(bs: seq<Block>, addr: nat): (i: Option<nat>)
    ensures i.Some? ==> i.value < |bs| && !bs[i.value].free && bs[i.value].offset == addr
    ensures i.None? ==> forall j :: 0 <= j < |bs| ==> bs[j].free || bs[j].offset != addr
  {
    if bs == [] then None
    else if !bs[0].free && bs[0].offset == addr then Some(0)
    else match LiveIndex(bs[1..], addr)
      case None => None
      case Some(i) => Some(i + 1)
  }

  function Release(bs: seq<Block>, i: nat): seq<Block>
    requires i < |bs|
  {
    Merge(bs[i := bs[i].(free := true)])
  }

  /** None stands for NotFound. */
  function Free(bs: seq<Block>, addr: nat): Option<seq<Block>> {
    match LiveIndex(bs, addr)
    case None => None
    case Some(i) => Some(Release(bs, i))
  }

  /** A managed range below 2^32 whose blocks tile it with no two free neighbours. */
  predicate Managed(bs: seq<Block>, base: nat, size: nat) {
    base + size < WORD_MODULUS && Tiles(bs, base, size) && Settled(bs)
  }

  lemma ManagedAddressable(bs: seq<Block>, base: nat, size: nat)
    requires base + size < WORD_MODULUS && Tiles(bs, base, size)
    ensures Addressable(bs)
    ensures forall i :: 0 <= i < |bs| ==> base <= bs[i].offset && End(bs[i]) <= base + size && 0 < bs[i].size
  {
    forall i | 0 <= i < |bs|
      ensures bs[i].offset < WORD_MODULUS
      ensures base <= bs[i].offset && End(bs[i]) <= base + size && 0 < bs[i].size
    {
      Within(bs, base, size, i);
    }
  }

  /** The placement test, read as arithmetic on true addresses: a block below 2^32 is admitted
      exactly when an aligned run of that many bytes lies inside it. */
  lemma AdmitsExact(b: Block, size: nat, alignment: nat)
    requires Unit(alignment) != 0 && End(b) < WORD_MODULUS
    ensures Admits(b, size, alignment)
            <==> b.free && exists x :: b.offset <= x && x + size <= End(b) && x % Unit(alignment) == 0
  {
    PaddingExact(b.offset, alignment);
    var at := b.offset + Padding(b.offset, alignment);
    if Admits(b, size, alignment) {
      assert b.offset <= at && at + size <= End(b) && at % Unit(alignment) == 0;
    }
  }

  // ----- free runs -----

  ghost predicate FreeRun(bs: seq<Block>, x: nat, size: nat) {
    forall y :: x <= y < x + size ==> ByteFree(bs, y)
  }

  lemma ByteOfBlock(bs: seq<Block>, base: nat, size: nat, i: nat, x: nat)
    requires Tiles(bs, base, size) && i < |bs| && bs[i].offset <= x < End(bs[i])
    ensures ByteFree(bs, x) <==> bs[i].free
  {
    if j :| 0 <= j < |bs| && bs[j].free && bs[j].offset <= x < End(bs[j]) {
      if j < i {
        Ordered(bs, base, size, j, i);
      } else if i < j {
        Ordered(bs, base, size, i, j);
      }
    }
  }

  /** With no two free neighbours, a run of free bytes never crosses a block boundary. */
  lemma RunInOneBlock(bs: seq<Block>, base: nat, size: nat, x: nat, n: nat) returns (i: nat)
    requires Tiles(bs, base, size) && Settled(bs) && 0 < n && FreeRun(bs, x, n)
    ensures i < |bs| && bs[i].free && bs[i].offset <= x && x + n <= End(bs[i])
  {
    assert ByteFree(bs, x);
    i :| 0 <= i < |bs| && bs[i].free && bs[i].offset <= x < End(bs[i]);
    if End(bs[i]) < x + n {
      var y := End(bs[i]);
      assert ByteFree(bs, y);
      var j :| 0 <= j < |bs| && bs[j].free && bs[j].offset <= y < End(bs[j]);
      if j < i {
        Ordered(bs, base, size, j, i);
      } else if i < j {
        if i + 1 < j {
          Ordered(bs, base, size, i, i + 1);
          Within(bs, base, size, i + 1);
          Ordered(bs, base, size, i + 1, j);
        }
        SettledAt(bs, i);
      }
      assert false;
    }
  }

  lemma RunOfBlock(bs: seq<Block>, base: nat, size: nat, i: nat, x: nat, n: nat)
    requires Tiles(bs, base, size) && i < |bs| && bs[i].free && bs[i].offset <= x && x + n <= End(bs[i])
    ensures FreeRun(bs, x, n)
  {
    forall y | x <= y < x + n ensures ByteFree(bs, y) {
      ByteOfBlock(bs, base, size, i, y);
    }
  }

  /** Completeness: placement fails exactly when no aligned run of free bytes of that length
      exists, and otherwise takes the lowest one. */
  lemma PlacesLowestRun(bs: seq<Block>, base: nat, managed: nat, size: nat, alignment: nat)
    requires Managed(bs, base, managed) && Addressable(bs) && Unit(alignment) != 0 && 0 < size
    ensures Place(bs, size, alignment).None? <==> !exists x: nat :: x % Unit(alignment) == 0 && FreeRun(bs, x, size)
    ensures Place(bs, size, alignment).Some? ==>
              var g := Place(bs, size, alignment).value;
              && g.addr % Unit(alignment) == 0 && FreeRun(bs, g.addr, size)
              && forall x: nat :: x % Unit(alignment) == 0 && FreeRun(bs, x, size) ==> g.addr <= x
  {
    hide Settled, Tiles, FreeRun, Carve;
    ManagedAddressable(bs, base, managed);
    var fit := FirstFit(bs, size, alignment);
    if fit.Some? {
      var b := bs[fit.value];
      PaddingExact(b.offset, alignment);
      RunOfBlock(bs, base, managed, fit.value, b.offset + Padding(b.offset, alignment), size);
    }
    forall x: nat | x % Unit(alignment) == 0 && FreeRun(bs, x, size)
      ensures fit.Some? && Place(bs, size, alignment).value.addr <= x
    {
      var i := RunInOneBlock(bs, base, managed, x, size);
      AdmitsExact(bs[i], size, alignment);
      if fit.value < i {
        Ordered(bs, base, managed, fit.value, i);
      } else {
        PaddingExact(bs[i].offset, alignment);
      }
    }
  }

  /** The same for a request as made, when its rounding does not wrap: no aligned run of the
      rounded size exactly when the request fails, and the lowest one otherwise. */
  lemma MallocComplete(bs: seq<Block>, base: nat, managed: nat, size: nat, alignment: nat)
    requires Managed(bs, base, managed) && Addressable(bs)
    requires 0 < size < SIZE_MODULUS && 0 < alignment < WORD_MODULUS && size <= AlignUpSize(size, alignment)
    ensures var n := AlignUpSize(size, alignment);
            && size <= n < size + alignment && n % alignment == 0
            && (Malloc(bs, size, alignment).None? <==> !exists x: nat :: x % alignment == 0 && FreeRun(bs, x, n))
            && (Malloc(bs, size, alignment).Some? ==>
                  var g := Malloc(bs, size, alignment).value;
                  && g.size == n && g.addr % alignment == 0 && FreeRun(bs, g.addr, n)
                  && forall x: nat :: x % alignment == 0 && FreeRun(bs, x, n) ==> g.addr <= x)
  {
    hide Managed, Addressable, FreeRun, FirstFit, Carve;
    assert Unit(alignment) == alignment;
    RoundingHonours(size, alignment);
    PlacesLowestRun(bs, base, managed, AlignUpSize(size, alignment), alignment);
  }

  // ----- what one operation keeps -----

  lemma PieceTiles(offset: nat, size: nat)
    ensures Tiles(Piece(offset, size), offset, size) && Busy(Piece(offset, size)) == []
    ensures Settled(Piece(offset, size))
  {
  }

  lemma Single(b: Block)
    ensures Settled([b]) && Busy([b]) == if b.free then [] else [b]
    ensures 0 < b.size ==> Tiles([b], b.offset, b.size)
  {
  }

  lemma CutTiles(b: Block, addr: nat, size: nat)
    requires b.free && b.offset <= addr && addr + size <= End(b) && 0 < size
    ensures var cut := Piece(b.offset, addr - b.offset) + [Block(addr, size, false)]
                       + Piece(addr + size, End(b) - addr - size);
            && Tiles(cut, b.offset, b.size) && Settled(cut) && Busy(cut) == [Block(addr, size, false)] && cut != []
  {
    var front, taken := Piece(b.offset, addr - b.offset), [Block(addr, size, false)];
    var back := Piece(addr + size, End(b) - addr - size);
    PieceTiles(b.offset, addr - b.offset);
    PieceTiles(addr + size, End(b) - addr - size);
    assert Tiles(taken, addr, size);
    TilesConcat(front, taken, b.offset, addr - b.offset, size);
    TilesConcat(front + taken, back, b.offset, addr - b.offset + size, End(b) - addr - size);
    SettledConcat(front, taken);
    SettledConcat(front + taken, back);
    BusyConcat(front, taken);
    BusyConcat(front + taken, back);
  }

  /** Replacing a block by a tiling of its own bytes. */
  lemma SpliceTiles(bs: seq<Block>, base: nat, size: nat, i: nat, cut: seq<Block>)
    requires Tiles(bs, base, size) && i < |bs| && Tiles(cut, bs[i].offset, bs[i].size)
    ensures Tiles(bs[..i] + cut + bs[i + 1..], base, size)
  {
    var front, back := bs[..i], bs[i + 1..];
    var n := TilesSplit(bs, base, size, i);
    assert bs[i..][1..] == back;
    assert bs[i].offset == base + n && Tiles(back, base + n + bs[i].size, size - n - bs[i].size);
    TilesConcat(front, cut, base, n, bs[i].size);
    TilesConcat(front + cut, back, base, n + bs[i].size, size - n - bs[i].size);
  }

  lemma SpliceBusy(bs: seq<Block>, i: nat, cut: seq<Block>)
    requires i < |bs|
    ensures Busy(bs[..i] + cut + bs[i + 1..]) == Busy(bs[..i]) + Busy(cut) + Busy(bs[i + 1..])
    ensures Busy(bs) == Busy(bs[..i]) + (if bs[i].free then [] else [bs[i]]) + Busy(bs[i + 1..])
  {
    hide Busy;
    var front, back := bs[..i], bs[i + 1..];
    assert bs == front + [bs[i]] + back;
    Single(bs[i]);
    BusyConcat(front, cut);
    BusyConcat(front + cut, back);
    BusyConcat(front, [bs[i]]);
    BusyConcat(front + [bs[i]], back);
  }

  /** Cutting up a free block leaves the list settled when the pieces are. */
  lemma SpliceSettled(bs: seq<Block>, i: nat, cut: seq<Block>)
    requires Settled(bs) && i < |bs| && bs[i].free && Settled(cut) && cut != []
    ensures Settled(bs[..i] + cut + bs[i + 1..])
  {
    hide Settled;
    var front, back := bs[..i], bs[i + 1..];
    assert bs == front + [bs[i]] + back;
    SettledConcat(front, [bs[i]]);
    SettledConcat(front + [bs[i]], back);
    SettledConcat(front, cut);
    SettledConcat(front + cut, back);
  }

  /** Taking the middle of a free block keeps the range tiled and settled, and inserts one block
      into the live blocks, in address order. */
  lemma CarveKeeps(bs: seq<Block>, base: nat, managed: nat, i: nat, addr: nat, size: nat)
    requires Tiles(bs, base, managed) && Settled(bs) && i < |bs| && bs[i].free && 0 < size
    requires bs[i].offset <= addr && addr + size <= End(bs[i])
    ensures Tiles(Carve(bs, i, addr, size), base, managed) && Settled(Carve(bs, i, addr, size))
    ensures Busy(bs) == Busy(bs[..i]) + Busy(bs[i + 1..])
    ensures Busy(Carve(bs, i, addr, size)) == Busy(bs[..i]) + [Block(addr, size, false)] + Busy(bs[i + 1..])
  {
    hide Tiles, Settled, Busy, Piece;
    var b := bs[i];
    CutTiles(b, addr, size);
    var cut := Piece(b.offset, addr - b.offset) + [Block(addr, size, false)]
               + Piece(addr + size, End(b) - addr - size);
    SpliceTiles(bs, base, managed, i, cut);
    SpliceSettled(bs, i, cut);
    SpliceBusy(bs, i, cut);
  }

  /** A successful allocation keeps the managed range tiled and settled, and the live blocks are
      the old ones with the new block inserted in address order. */
  lemma PlaceKeeps(bs: seq<Block>, base: nat, managed: nat, size: nat, alignment: nat) returns (i: nat)
    requires Managed(bs, base, managed) && Addressable(bs) && Unit(alignment) != 0 && 0 < size
    requires Place(bs, size, alignment).Some?
    ensures var g := Place(bs, size, alignment).value;
            && Managed(g.blocks, base, managed) && g.addr % Unit(alignment) == 0 && g.size == size
            && base <= g.addr && g.addr + size <= base + managed
            && i < |bs| && Busy(bs) == Busy(bs[..i]) + Busy(bs[i + 1..])
            && Busy(g.blocks) == Busy(bs[..i]) + [Block(g.addr, size, false)] + Busy(bs[i + 1..])
  {
    hide Tiles, Settled, Busy, Carve, Padding, Unit;
    i := FirstFit(bs, size, alignment).value;
    PaddingExact(bs[i].offset, alignment);
    Within(bs, base, managed, i);
    CarveKeeps(bs, base, managed, i, bs[i].offset + Padding(bs[i].offset, alignment), size);
  }

  /** Freeing keeps the managed range tiled and settled and takes exactly one live block away. */
  lemma ReleaseKeeps(bs: seq<Block>, base: nat, managed: nat, i: nat)
    requires Managed(bs, base, managed) && i < |bs| && !bs[i].free
    ensures Managed(Release(bs, i), base, managed)
    ensures Busy(bs) == Busy(bs[..i]) + [bs[i]] + Busy(bs[i + 1..])
    ensures Busy(Release(bs, i)) == Busy(bs[..i]) + Busy(bs[i + 1..])
  {
    hide Tiles, Settled, Busy, Merge;
    var freed := [bs[i].(free := true)];
    Within(bs, base, managed, i);
    Single(freed[0]);
    assert bs[i := freed[0]] == bs[..i] + freed + bs[i + 1..];
    SpliceTiles(bs, base, managed, i, freed);
    SpliceBusy(bs, i, freed);
    MergeSettles(bs[i := freed[0]], base, managed);
  }

  /** Live blocks have distinct addresses. */
  lemma LiveAddressUnique(bs: seq<Block>, base: nat, managed: nat, i: nat, j: nat)
    requires Tiles(bs, base, managed) && i < |bs| && j < |bs| && bs[i].offset == bs[j].offset
    ensures i == j
  {
    Within(bs, base, managed, i);
    Within(bs, base, managed, j);
    if i < j {
      Ordered(bs, base, managed, i, j);
    } else if j < i {
      Ordered(bs, base, managed, j, i);
    }
  }

  // ----- inverse operations -----

  /** Freeing what was just allocated restores the block list exactly. */
  lemma MallocThenFree(bs: seq<Block>, base: nat, managed: nat, size: nat, alignment: nat)
    requires Managed(bs, base, managed) && Addressable(bs) && Unit(alignment) != 0 && 0 < size
    requires Place(bs, size, alignment).Some?
    ensures var g := Place(bs, size, alignment).value; Free(g.blocks, g.addr) == Some(bs)
  {
    hide Tiles, Settled, Release, Place;
    var g := Place(bs, size, alignment).value;
    var i := PlaceKeeps(bs, base, managed, size, alignment);
    var b := Block(g.addr, size, false);
    assert b in Busy(g.blocks);
    BusyIn(g.blocks, b);
    var k :| 0 <= k < |g.blocks| && g.blocks[k] == b;
    var j := LiveIndex(g.blocks, g.addr).value;
    LiveAddressUnique(g.blocks, base, managed, k, j);
    ReleaseKeeps(g.blocks, base, managed, j);
    InsertionPoint(g.blocks, base, managed, j, Busy(bs[..i]), Busy(bs[i + 1..]));
    Canonical(Release(g.blocks, j), bs, base, managed);
  }

  /** The live block at index j splits the live blocks in one way only. */
  lemma InsertionPoint(bs: seq<Block>, base: nat, managed: nat, j: nat, front: seq<Block>, back: seq<Block>)
    requires Tiles(bs, base, managed) && j < |bs| && !bs[j].free
    requires Busy(bs) == Busy(bs[..j]) + [bs[j]] + Busy(bs[j + 1..]) == front + [bs[j]] + back
    ensures front == Busy(bs[..j]) && back == Busy(bs[j + 1..])
  {
    BusyDistinct(bs, base, managed);
    var mine := Busy(bs[..j]);
    assert Busy(bs)[|mine|] == bs[j] && Busy(bs)[|front|] == bs[j];
    assert |mine| == |front|;
    assert mine == Busy(bs)[..|mine|] && front == Busy(bs)[..|front|];
    assert back == Busy(bs)[|front| + 1..] == Busy(bs[j + 1..]);
  }

  lemma {:induction false} BusyDistinct(bs: seq<Block>, base: nat, managed: nat)
    requires Tiles(bs, base, managed)
    ensures forall i, j :: 0 <= i < j < |Busy(bs)| ==> Busy(bs)[i].offset < Busy(bs)[j].offset
    decreases |bs|
  {
    if bs != [] {
      var rest := bs[1..];
      BusyDistinct(rest, base + bs[0].size, managed - bs[0].size);
      forall k | 0 <= k < |Busy(rest)| ensures bs[0].offset < Busy(rest)[k].offset {
        BusyIn(rest, Busy(rest)[k]);
        var m :| 0 <= m < |rest| && rest[m] == Busy(rest)[k];
        Within(rest, base + bs[0].size, managed - bs[0].size, m);
      }
    }
  }

  /** A live block has an address no other live block has. */
  lemma UniqueLive(bs: seq<Block>, base: nat, managed: nat, front: seq<Block>, taken: Block, back: seq<Block>)
    requires Tiles(bs, base, managed) && Busy(bs) == front + [taken] + back
    ensures forall b :: b in front || b in back ==> b.offset != taken.offset
  {
    BusyDistinct(bs, base, managed);
    forall b | b in front || b in back ensures b.offset != taken.offset {
      assert Busy(bs)[|front|] == taken;
      if b in front {
        var k :| 0 <= k < |front| && front[k] == b;
        assert Busy(bs)[k] == b;
      } else {
        var k :| 0 <= k < |back| && back[k] == b;
        assert Busy(bs)[|front| + 1 + k] == b;
      }
    }
  }
}
