/** Runs of allocations and frees, seen from the client: a ledger of what is live. */
module DeviceRuns {
  import opened Words
  import opened BlockList
  import opened DeviceMemory
  import opened Rounding

  datatype Request = Allocate(size: nat, alignment: nat) | GiveBack(addr: nat)

  /** What a client asked for and was granted at an address. */
  datatype Lease = Lease(asked: nat, size: nat, alignment: nat)

  datatype State = State(blocks: seq<Block>, ledger: map<nat, Lease>)

  /** 64-bit arguments, an alignment that is not zero as an address, and a rounded size that did not
      wrap all the way to zero. */
  predicate Sane(r: Request) {
    r.Allocate? && r.size != 0 && r.alignment != 0 ==>
      && r.size < SIZE_MODULUS && r.alignment < SIZE_MODULUS
      && Unit(r.alignment) != 0 && AlignUpSize(r.size, r.alignment) != 0
  }

  /** Zero sizes and alignments, exhausted memory and unknown addresses change nothing. */
  function Serve(s: State, r: Request): State
    requires Addressable(s.blocks) && Sane(r)
  {
    match r
    case Allocate(size, alignment) =>
      if size == 0 || alignment == 0 then s
      else (match Malloc(s.blocks, size, alignment)
            case None => s
            case Some(g) => State(g.blocks, s.ledger[g.addr := Lease(size, g.size, alignment)]))
    case GiveBack(addr) =>
      match Free(s.blocks, addr)
      case None => s
      case Some(bs) => State(bs, s.ledger - {addr})
  }

  /** A lease with an aligned address and the rounded size of what was asked for. */
  predicate Fair(a: nat, lease: Lease) {
    && 0 < lease.asked < SIZE_MODULUS && 0 < lease.alignment < SIZE_MODULUS && Unit(lease.alignment) != 0
    && a % Unit(lease.alignment) == 0 && lease.size == AlignUpSize(lease.asked, lease.alignment)
  }

  /** The ledger and the live blocks list the same allocations, and each of them is fair. */
  ghost predicate Balanced(s: State) {
    && (forall b :: b in Busy(s.blocks) ==> b.offset in s.ledger && s.ledger[b.offset].size == b.size)
    && (forall a :: a in s.ledger ==> Block(a, s.ledger[a].size, false) in Busy(s.blocks))
    && (forall a :: a in s.ledger ==> Fair(a, s.ledger[a]))
  }

  ghost predicate Sound(s: State, base: nat, managed: nat) {
    Managed(s.blocks, base, managed) && Addressable(s.blocks) && Balanced(s)
  }

  lemma AllocateSound(s: State, size: nat, alignment: nat, base: nat, managed: nat)
    requires Sound(s, base, managed) && Sane(Allocate(size, alignment))
    ensures Sound(Serve(s, Allocate(size, alignment)), base, managed)
  {
    hide Tiles, Settled, Busy, Place, AlignUpSize, Balanced, Unit;
    if size != 0 && alignment != 0 && Malloc(s.blocks, size, alignment).Some? {
      var rounded := AlignUpSize(size, alignment);
      var g := Place(s.blocks, rounded, alignment).value;
      var i := PlaceKeeps(s.blocks, base, managed, rounded, alignment);
      ManagedAddressable(g.blocks, base, managed);
      LeaseRecorded(s, g.blocks, base, managed, Busy(s.blocks[..i]), Block(g.addr, g.size, false),
                    Busy(s.blocks[i + 1..]), Lease(size, g.size, alignment));
    }
  }

  /** Inserting a live block and writing it into the ledger keeps the books balanced. */
  lemma LeaseRecorded(s: State, bs: seq<Block>, base: nat, managed: nat,
                      front: seq<Block>, taken: Block, back: seq<Block>, lease: Lease)
    requires Balanced(s) && Tiles(bs, base, managed) && !taken.free
    requires Busy(s.blocks) == front + back && Busy(bs) == front + [taken] + back
    requires Fair(taken.offset, lease) && taken.size == lease.size
    ensures Balanced(State(bs, s.ledger[taken.offset := lease]))
  {
    hide Tiles, Busy, Fair;
    UniqueLive(bs, base, managed, front, taken, back);
    assert forall b :: b in Busy(s.blocks) <==> b in front || b in back;
    assert forall b :: b in Busy(bs) <==> b in front || b in back || b == taken;
  }

  lemma GiveBackSound(s: State, addr: nat, base: nat, managed: nat)
    requires Sound(s, base, managed)
    ensures Sound(Serve(s, GiveBack(addr)), base, managed)
  {
    hide Tiles, Settled, Busy, Release;
    var found := LiveIndex(s.blocks, addr);
    if found.Some? {
      var i := found.value;
      ReleaseKeeps(s.blocks, base, managed, i);
      ManagedAddressable(Release(s.blocks, i), base, managed);
      var front, back := Busy(s.blocks[..i]), Busy(s.blocks[i + 1..]);
      UniqueLive(s.blocks, base, managed, front, s.blocks[i], back);
      assert forall b :: b in Busy(s.blocks) <==> b in front || b in back || b == s.blocks[i];
      assert forall b :: b in Busy(Release(s.blocks, i)) <==> b in front || b in back;
    }
  }

  /** Every request keeps the state sound. */
  lemma ServeSound(s: State, r: Request, base: nat, managed: nat)
    requires Sound(s, base, managed) && Sane(r)
    ensures Sound(Serve(s, r), base, managed)
  {
    match r
    case Allocate(size, alignment) => AllocateSound(s, size, alignment, base, managed);
    case GiveBack(addr) => GiveBackSound(s, addr, base, managed);
  }

  ghost function ServeAll(s: State, rs: seq<Request>, base: nat, managed: nat): State
    requires Sound(s, base, managed) && forall i :: 0 <= i < |rs| ==> Sane(rs[i])
    decreases |rs|
  {
    if rs == [] then s
    else
      ServeSound(s, rs[0], base, managed);
      ServeAll(Serve(s, rs[0]), rs[1..], base, managed)
  }

  lemma {:induction false} ServeAllSound(s: State, rs: seq<Request>, base: nat, managed: nat)
    requires Sound(s, base, managed) && forall i :: 0 <= i < |rs| ==> Sane(rs[i])
    ensures Sound(ServeAll(s, rs, base, managed), base, managed)
    decreases |rs|
  {
    if rs != [] {
      ServeSound(s, rs[0], base, managed);
      ServeAllSound(Serve(s, rs[0]), rs[1..], base, managed);
    }
  }

  function Fresh(base: nat, managed: nat): State {
    State([Block(base, managed, true)], map[])
  }

  lemma FreshSound(base: nat, managed: nat)
    requires 0 < managed && base + managed < WORD_MODULUS
    ensures Sound(Fresh(base, managed), base, managed)
  {
    assert Fresh(base, managed).blocks[1..] == [];
    assert Busy(Fresh(base, managed).blocks) == [];
  }

  /** The state after a run from a fresh range. */
  ghost function After(rs: seq<Request>, base: nat, managed: nat): (s: State)
    requires 0 < managed && base + managed < WORD_MODULUS && forall i :: 0 <= i < |rs| ==> Sane(rs[i])
    ensures Sound(s, base, managed)
  {
    FreshSound(base, managed);
    ServeAllSound(Fresh(base, managed), rs, base, managed);
    ServeAll(Fresh(base, managed), rs, base, managed)
  }

  lemma LeaseBlock(s: State, base: nat, managed: nat, a: nat) returns (i: nat)
    requires Sound(s, base, managed) && a in s.ledger
    ensures i < |s.blocks| && s.blocks[i] == Block(a, s.ledger[a].size, false)
    ensures base <= a && 0 < s.ledger[a].size && a + s.ledger[a].size <= base + managed
  {
    hide Tiles, Settled;
    var b := Block(a, s.ledger[a].size, false);
    BusyIn(s.blocks, b);
    i :| 0 <= i < |s.blocks| && s.blocks[i] == b;
    Within(s.blocks, base, managed, i);
  }

  /** The sum that rounds the request up does not fit 64 bits. */
  predicate RoundingWraps(lease: Lease)
    requires lease.alignment != 0
  {
    lease.asked % lease.alignment != 0
    && lease.asked + (lease.alignment - lease.asked % lease.alignment) >= SIZE_MODULUS
  }

  /** Safety over every run: live allocations are aligned, lie inside the managed range (so
      outside the spill area above it) and are pairwise disjoint, and free plus live bytes always
      equal the size of the range. An allocation holds what was asked for, in whole alignment
      units, unless its rounding wrapped at 64 bits. */
  lemma RunSafety(rs: seq<Request>, base: nat, managed: nat)
    requires 0 < managed && base + managed < WORD_MODULUS && forall i :: 0 <= i < |rs| ==> Sane(rs[i])
    ensures var s := After(rs, base, managed);
            && Managed(s.blocks, base, managed)
            && FreeBytes(s.blocks) + LiveBytes(Busy(s.blocks)) == managed
            && (forall a :: a in s.ledger ==>
                  && Fair(a, s.ledger[a]) && base <= a && 0 < s.ledger[a].size
                  && a + s.ledger[a].size <= base + managed
                  && (s.ledger[a].asked <= s.ledger[a].size <==> !RoundingWraps(s.ledger[a]))
                  && (!RoundingWraps(s.ledger[a]) ==> s.ledger[a].size % s.ledger[a].alignment == 0))
            && (forall a, b :: a in s.ledger && b in s.ledger && a < b ==> a + s.ledger[a].size <= b)
  {
    hide Tiles, Settled, After, AlignUpSize;
    var s := After(rs, base, managed);
    Conservation(s.blocks, base, managed);
    forall a | a in s.ledger
      ensures base <= a && 0 < s.ledger[a].size && a + s.ledger[a].size <= base + managed
      ensures s.ledger[a].asked <= s.ledger[a].size <==> !RoundingWraps(s.ledger[a])
      ensures !RoundingWraps(s.ledger[a]) ==> s.ledger[a].size % s.ledger[a].alignment == 0
    {
      var i := LeaseBlock(s, base, managed, a);
      RoundingHonours(s.ledger[a].asked, s.ledger[a].alignment);
    }
    forall a, b | a in s.ledger && b in s.ledger && a < b
      ensures a + s.ledger[a].size <= b
    {
      var i := LeaseBlock(s, base, managed, a);
      var j := LeaseBlock(s, base, managed, b);
      if j < i {
        Ordered(s.blocks, base, managed, j, i);
      } else if i < j {
        Ordered(s.blocks, base, managed, i, j);
      }
    }
  }

  ghost predicate Ascending(bs: seq<Block>) {
    forall i, j :: 0 <= i < j < |bs| ==> bs[i].offset < bs[j].offset
  }

  /** Two ascending lists with the same members are equal. */
  lemma {:induction false} AscendingUnique(p: seq<Block>, q: seq<Block>)
    requires Ascending(p) && Ascending(q) && forall b :: b in p <==> b in q
    ensures p == q
    decreases |p|
  {
    SomeMember(p);
    SomeMember(q);
    if p != [] {
      assert p[0] in q && q[0] in p;
      var i :| 0 <= i < |q| && q[i] == p[0];
      var j :| 0 <= j < |p| && p[j] == q[0];
      assert p[0] == q[0];
      AscendingTail(p);
      AscendingTail(q);
      AscendingUnique(p[1..], q[1..]);
    }
  }

  lemma SomeMember(p: seq<Block>)
    ensures p == [] <==> forall b :: b !in p
  {
    assert p != [] ==> p[0] in p;
  }

  lemma AscendingTail(p: seq<Block>)
    requires Ascending(p) && p != []
    ensures Ascending(p[1..]) && forall b :: b in p[1..] <==> b in p && b != p[0]
  {
    forall b | b in p && b != p[0] ensures b in p[1..] {
      var k :| 0 <= k < |p| && p[k] == b;
      assert p[1..][k - 1] == b;
    }
  }

  /** The block list depends only on what is live, not on the history: two runs that end with the
      same live allocations end with the same list. */
  lemma HistoryIndependent(rs: seq<Request>, other: seq<Request>, base: nat, managed: nat)
    requires 0 < managed && base + managed < WORD_MODULUS
    requires forall i :: 0 <= i < |rs| ==> Sane(rs[i])
    requires forall i :: 0 <= i < |other| ==> Sane(other[i])
    requires var s, t := After(rs, base, managed), After(other, base, managed);
             s.ledger.Keys == t.ledger.Keys && forall a :: a in s.ledger ==> s.ledger[a].size == t.ledger[a].size
    ensures After(rs, base, managed).blocks == After(other, base, managed).blocks
  {
    hide Tiles, Settled, After;
    var s, t := After(rs, base, managed), After(other, base, managed);
    BusyDistinct(s.blocks, base, managed);
    BusyDistinct(t.blocks, base, managed);
    forall b ensures b in Busy(s.blocks) <==> b in Busy(t.blocks) {
      BusyIn(s.blocks, b);
      BusyIn(t.blocks, b);
    }
    AscendingUnique(Busy(s.blocks), Busy(t.blocks));
    Canonical(s.blocks, t.blocks, base, managed);
  }

  /** When everything allocated has been given back, in whatever order, the list is one free
      block covering the managed range. */
  lemma AllGivenBack(rs: seq<Request>, base: nat, managed: nat)
    requires 0 < managed && base + managed < WORD_MODULUS && forall i :: 0 <= i < |rs| ==> Sane(rs[i])
    requires After(rs, base, managed).ledger == map[]
    ensures After(rs, base, managed).blocks == [Block(base, managed, true)]
  {
    FreshSound(base, managed);
    assert After([], base, managed) == Fresh(base, managed);
    HistoryIndependent(rs, [], base, managed);
  }

  /** A granted request keeps the range tiled exactly when its size did not wrap to zero. */
  lemma TilesUnlessZero(bs: seq<Block>, base: nat, managed: nat, size: nat, alignment: nat)
    requires Managed(bs, base, managed) && Addressable(bs) && Unit(alignment) != 0
    requires Malloc(bs, size, alignment).Some?
    ensures Tiles(Malloc(bs, size, alignment).value.blocks, base, managed) <==> AlignUpSize(size, alignment) != 0
  {
    hide Tiles, Settled, Busy, AlignUpSize, Padding, Piece;
    var g := Malloc(bs, size, alignment).value;
    if AlignUpSize(size, alignment) != 0 {
      var i := PlaceKeeps(bs, base, managed, AlignUpSize(size, alignment), alignment);
    } else if Tiles(g.blocks, base, managed) {
      var i := FirstFit(bs, 0, alignment).value;
      var k := |bs[..i] + Piece(bs[i].offset, g.addr - bs[i].offset)|;
      assert g.blocks[k] == Block(g.addr, 0, false);
      Within(g.blocks, base, managed, k);
    }
  }

  /** Where the rounding wraps at 64 bits: asking for 2^64 - 1 bytes at alignment 4 succeeds with
      a live block of no bytes, and the next allocation is given the same address. */
  lemma WrappedRequestOverlaps()
    ensures var bs := [Block(0, 1024, true)];
            var first := Malloc(bs, SIZE_MODULUS - 1, 4);
            && first.Some? && first.value.size == 0 && !Tiles(first.value.blocks, 0, 1024)
            && Addressable(first.value.blocks)
            && var second := Malloc(first.value.blocks, 16, 4);
               second.Some? && second.value.addr == first.value.addr
  {
    var bs := [Block(0, 1024, true)];
    assert AlignUpSize(SIZE_MODULUS - 1, 4) == 0 && AlignUpSize(16, 4) == 16;
    var after := [Block(0, 0, false), Block(0, 1024, true)];
    assert Carve(bs, 0, 0, 0) == after;
    assert FirstFit(bs, 0, 4) == Some(0);
    assert after[1..][0] == Block(0, 1024, true);
    assert FirstFit(after[1..], 16, 4) == Some(0);
    assert FirstFit(after, 16, 4) == Some(1);
  }
}
