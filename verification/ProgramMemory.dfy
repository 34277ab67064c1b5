/** Instruction memory as a cache of program artifacts: slots, least-recently-used eviction, and
    exactly when a slot is found. */
module ProgramMemory {
  import opened Words
  import opened BlockList
  import opened DeviceMemory

  datatype Entry = Entry(name: string, addr: nat, size: nat, lastUsed: nat)

  datatype Cache = Cache(blocks: seq<Block>, entries: seq<Entry>, clock: nat)

  /** The first entry among those used longest ago. */
  function Oldest(es: seq<Entry>): (r: nat)
    requires es != []
    ensures r < |es| && forall j :: 0 <= j < |es| ==> es[r].lastUsed <= es[j].lastUsed
    ensures forall j :: 0 <= j < r ==> es[r].lastUsed < es[j].lastUsed
  {
    if |es| == 1 then 0
    else
      var k := Oldest(es[1..]);
      if es[1..][k].lastUsed < es[0].lastUsed then k + 1 else 0
  }

  function Drop(es: seq<Entry>, i: nat): seq<Entry>
    requires i < |es|
  {
    es[..i] + es[i + 1..]
  }

  /** The block an entry owns. */
  function Own(e: Entry): Block {
    Block(e.addr, e.size, false)
  }

  function BlockIndex(bs: seq<Block>, b: Block): (i: Option<nat>)
    ensures i.Some? ==> i.value < |bs| && bs[i.value] == b && forall j :: 0 <= j < i.value ==> bs[j] != b
    ensures i.None? ==> b !in bs
  {
    if bs == [] then None
    else if bs[0] == b then Some(0)
    else match BlockIndex(bs[1..], b)
      case None => None
      case Some(i) => Some(i + 1)
  }

  function Evict(c: Cache): (d: Cache)
    requires c.entries != []
    ensures |d.entries| == |c.entries| - 1 && d.clock == c.clock
  {
    var v := Oldest(c.entries);
    Cache(match BlockIndex(c.blocks, Own(c.entries[v]))
          case None => Merge(c.blocks)
          case Some(i) => Release(c.blocks, i),
          Drop(c.entries, v), c.clock)
  }

  function EvictN(c: Cache, k: nat): Cache
    requires k <= |c.entries|
    decreases k
  {
    if k == 0 then c else EvictN(Evict(c), k - 1)
  }

  /** The first free block of at least the wanted size. */
  function Room(bs: seq<Block>, size: nat): (i: Option<nat>)
    ensures i.Some? ==> i.value < |bs| && bs[i.value].free && size <= bs[i.value].size
    ensures forall j :: 0 <= j < (if i.Some? then i.value else |bs|) ==> !bs[j].free || bs[j].size < size
  {
    if bs == [] then None
    else if bs[0].free && size <= bs[0].size then Some(0)
    else match Room(bs[1..], size)
      case None => None
      case Some(i) => Some(i + 1)
  }

  /** The cache after a slot request and the slot's address, if one was found. */
  datatype Slot = Slot(cache: Cache, addr: Option<nat>)

  function Allocate(c: Cache, size: nat): Slot
    decreases |c.entries|
  {
    match Room(c.blocks, size)
    case Some(i) => Slot(c.(blocks := Carve(c.blocks, i, c.blocks[i].offset, size)), Some(c.blocks[i].offset))
    case None => if c.entries == [] then Slot(c, None) else Allocate(Evict(c), size)
  }

  // ----- the invariant -----

  ghost predicate Apart(es: seq<Entry>) {
    forall i, j :: 0 <= i < j < |es| ==>
      es[i].name != es[j].name && es[i].addr != es[j].addr && es[i].lastUsed != es[j].lastUsed
  }

  /** Instruction memory is tiled and settled; entries differ in name, address and time of use;
      each owns a busy block of exactly its address and size. */
  ghost predicate Kept(c: Cache, size: nat) {
    && Managed(c.blocks, 0, size)
    && Apart(c.entries)
    && forall e :: e in c.entries ==> e.lastUsed <= c.clock && Own(e) in Busy(c.blocks)
  }

  /** A busy block no entry owns. */
  ghost predicate Leaked(c: Cache, b: Block) {
    b in Busy(c.blocks) && forall e :: e in c.entries ==> Own(e) != b
  }

  lemma ReleaseMembers(bs: seq<Block>, base: nat, size: nat, i: nat)
    requires Managed(bs, base, size) && i < |bs| && !bs[i].free
    ensures Managed(Release(bs, i), base, size)
    ensures forall b :: b in Busy(Release(bs, i)) <==> b in Busy(bs) && b.offset != bs[i].offset
  {
    hide Tiles, Settled, Busy, Release;
    ReleaseKeeps(bs, base, size, i);
    var front, back := Busy(bs[..i]), Busy(bs[i + 1..]);
    UniqueLive(bs, base, size, front, bs[i], back);
    assert forall b :: b in Busy(bs) <==> b in front || b in back || b == bs[i];
    assert forall b :: b in Busy(Release(bs, i)) <==> b in front || b in back;
  }

  lemma DropMembers(es: seq<Entry>, i: nat)
    requires Apart(es) && i < |es|
    ensures Apart(Drop(es, i))
    ensures forall e :: e in Drop(es, i) <==> e in es && e.name != es[i].name
    ensures forall e :: e in Drop(es, i) ==> e.addr != es[i].addr && e.lastUsed != es[i].lastUsed
  {
    var rest := Drop(es, i);
    forall e ensures e in rest <==> e in es && e.name != es[i].name {
      if e in es && e.name != es[i].name {
        var k :| 0 <= k < |es| && es[k] == e;
        assert rest[if k < i then k else k - 1] == e;
      }
    }
    forall e | e in rest ensures e.addr != es[i].addr && e.lastUsed != es[i].lastUsed {
      var k :| 0 <= k < |es| && es[k] == e;
    }
  }

  /** Eviction removes the least recently used entry and frees exactly its block. */
  lemma EvictKeeps(c: Cache, size: nat)
    requires Kept(c, size) && c.entries != []
    ensures var v := c.entries[Oldest(c.entries)];
            && Kept(Evict(c), size)
            && (forall e :: e in Evict(c).entries <==> e in c.entries && e != v)
            && (forall e :: e in Evict(c).entries ==> v.lastUsed < e.lastUsed)
            && (forall b :: b in Busy(Evict(c).blocks) <==> b in Busy(c.blocks) && b != Own(v))
  {
    hide Tiles, Settled, Busy, Release, Drop;
    var k := Oldest(c.entries);
    var v := c.entries[k];
    DropMembers(c.entries, k);
    BusyIn(c.blocks, Own(v));
    var i := BlockIndex(c.blocks, Own(v)).value;
    ReleaseMembers(c.blocks, 0, size, i);
    SameAddress(c.blocks, 0, size);
    assert forall e :: e in Evict(c).entries ==> v.lastUsed < e.lastUsed by {
      forall e | e in Evict(c).entries ensures v.lastUsed < e.lastUsed {
        var m :| 0 <= m < |c.entries| && c.entries[m] == e;
      }
    }
    assert forall e :: e in c.entries && e.name == v.name ==> e == v by {
      forall e | e in c.entries && e.name == v.name ensures e == v {
        var m :| 0 <= m < |c.entries| && c.entries[m] == e;
      }
    }
  }

  /** A live block is determined by its address. */
  lemma SameAddress(bs: seq<Block>, base: nat, size: nat)
    requires Tiles(bs, base, size)
    ensures forall b, d :: b in Busy(bs) && d in Busy(bs) && b.offset == d.offset ==> b == d
  {
    BusyDistinct(bs, base, size);
    forall b, d | b in Busy(bs) && d in Busy(bs) && b.offset == d.offset ensures b == d {
      var i :| 0 <= i < |Busy(bs)| && Busy(bs)[i] == b;
      var j :| 0 <= j < |Busy(bs)| && Busy(bs)[j] == d;
    }
  }

  /** k evictions take away exactly the k least recently used entries and their blocks. */
  lemma {:induction false} EvictNKeeps(c: Cache, size: nat, k: nat)
    requires Kept(c, size) && k <= |c.entries|
    ensures var d := EvictN(c, k);
            && Kept(d, size) && |d.entries| == |c.entries| - k && d.clock == c.clock
            && (forall e :: e in d.entries ==> e in c.entries)
            && (forall e, f :: e in c.entries && e !in d.entries && f in d.entries ==> e.lastUsed < f.lastUsed)
            && (forall b :: b in Busy(d.blocks) <==>
                  b in Busy(c.blocks) && forall e :: e in c.entries && e !in d.entries ==> Own(e) != b)
    decreases k
  {
    hide Busy, Kept, Evict;
    if k > 0 {
      var v := c.entries[Oldest(c.entries)];
      EvictKeeps(c, size);
      EvictNKeeps(Evict(c), size, k - 1);
    }
  }

  /** The entries from the least to the most recently used. */
  ghost predicate LruOrder(c: Cache, order: seq<Entry>) {
    && (forall e :: e in order <==> e in c.entries)
    && (forall i, j :: 0 <= i < j < |order| ==> order[i].lastUsed < order[j].lastUsed)
  }

  lemma OrderTail(order: seq<Entry>)
    requires order != [] && forall i, j :: 0 <= i < j < |order| ==> order[i].lastUsed < order[j].lastUsed
    ensures forall e :: e in order[1..] <==> e in order && e != order[0]
    ensures forall i, j :: 0 <= i < j < |order| - 1 ==> order[1..][i].lastUsed < order[1..][j].lastUsed
  {
    forall e ensures e in order[1..] <==> e in order && e != order[0] {
      if e in order && e != order[0] {
        var k :| 0 <= k < |order| && order[k] == e;
        assert order[1..][k - 1] == e;
      }
    }
  }

  /** Evictions strip the least-recently-used order from the front. */
  lemma {:induction false} EvictsFromFront(c: Cache, size: nat, order: seq<Entry>, k: nat)
    requires Kept(c, size) && LruOrder(c, order) && k <= |c.entries|
    ensures k <= |order| && LruOrder(EvictN(c, k), order[k..])
    decreases k
  {
    hide Kept, Evict, Busy;
    if k > 0 {
      var v := c.entries[Oldest(c.entries)];
      EvictKeeps(c, size);
      assert v in order;
      assert order[0] in c.entries;
      var i :| 0 <= i < |c.entries| && c.entries[i] == order[0];
      var j :| 0 <= j < |order| && order[j] == v;
      assert j == 0;
      OrderTail(order);
      EvictsFromFront(Evict(c), size, order[1..], k - 1);
      assert order[1..][k - 1..] == order[k..];
    }
  }

  /** A slot request evicts exactly the shortest prefix of the least-recently-used order after
      which a large enough free block exists, and takes that block's front; when it fails
      everything has been evicted. */
  lemma {:induction false} EvictsShortestPrefix(c: Cache, size: nat) returns (k: nat)
    ensures k <= |c.entries| && forall j :: 0 <= j < k ==> Room(EvictN(c, j).blocks, size) == None
    ensures var s, d := Allocate(c, size), EvictN(c, k);
            && s.cache.entries == d.entries && s.cache.clock == d.clock
            && (s.addr == None ==> k == |c.entries| && s.cache == d && Room(d.blocks, size) == None)
            && (s.addr != None ==>
                  var i := Room(d.blocks, size);
                  i.Some? && s.addr == Some(d.blocks[i.value].offset)
                  && s.cache.blocks == Carve(d.blocks, i.value, s.addr.value, size))
    decreases |c.entries|
  {
    hide Evict, Room, Carve;
    if Room(c.blocks, size).Some? || c.entries == [] {
      k := 0;
    } else {
      k := EvictsShortestPrefix(Evict(c), size);
      forall j | 0 <= j < k + 1 ensures Room(EvictN(c, j).blocks, size) == None {
        if j > 0 { assert EvictN(c, j) == EvictN(Evict(c), j - 1); }
      }
      k := k + 1;
    }
  }

  /** A found slot is a new busy block, apart from every entry that survived. */
  lemma SlotKeeps(c: Cache, memory: nat, size: nat)
    requires Kept(c, memory) && 0 < size && Allocate(c, size).addr.Some?
    ensures var s := Allocate(c, size); var taken := Block(s.addr.value, size, false);
            && Kept(s.cache, memory) && s.cache.clock == c.clock
            && taken.offset + size <= memory
            && (forall e :: e in s.cache.entries ==> e in c.entries)
            && (forall b :: b in Busy(s.cache.blocks) ==>
                  b == taken || (b in Busy(c.blocks) && b.offset != taken.offset))
            && taken in Busy(s.cache.blocks)
            && (forall e :: e in s.cache.entries ==> e.addr != taken.offset)
            && (forall b :: Leaked(s.cache, b) <==> b == taken || Leaked(c, b))
  {
    hide Tiles, Settled, Busy, Carve, Room, Apart;
    var k := EvictsShortestPrefix(c, size);
    var d := EvictN(c, k);
    EvictNKeeps(c, memory, k);
    var i := Room(d.blocks, size).value;
    var at := d.blocks[i].offset;
    Within(d.blocks, 0, memory, i);
    CarveKeeps(d.blocks, 0, memory, i, at, size);
    var front, back, taken := Busy(d.blocks[..i]), Busy(d.blocks[i + 1..]), Block(at, size, false);
    var after := Carve(d.blocks, i, at, size);
    UniqueLive(after, 0, memory, front, taken, back);
    assert forall b :: b in Busy(d.blocks) <==> b in front || b in back;
    assert forall b :: b in Busy(after) <==> b in front || b in back || b == taken;
  }

  // ----- exactly when a slot is found -----

  lemma {:induction false} BlockOfByte(bs: seq<Block>, base: nat, size: nat, y: nat) returns (i: nat)
    requires Tiles(bs, base, size) && base <= y < base + size
    ensures i < |bs| && bs[i].offset <= y < End(bs[i])
    decreases |bs|
  {
    if y < End(bs[0]) {
      i := 0;
    } else {
      i := BlockOfByte(bs[1..], base + bs[0].size, size - bs[0].size, y);
      i := i + 1;
    }
  }

  ghost predicate Clear(c: Cache, x: nat, size: nat) {
    forall b :: Leaked(c, b) ==> End(b) <= x || x + size <= b.offset
  }

  lemma FreeBlockClear(c: Cache, memory: nat, i: nat, b: Block)
    requires Tiles(c.blocks, 0, memory) && i < |c.blocks| && c.blocks[i].free && b in Busy(c.blocks)
    ensures End(b) <= c.blocks[i].offset || End(c.blocks[i]) <= b.offset
  {
    BusyIn(c.blocks, b);
    var j :| 0 <= j < |c.blocks| && c.blocks[j] == b;
    if i < j {
      Ordered(c.blocks, 0, memory, i, j);
    } else if j < i {
      Ordered(c.blocks, 0, memory, j, i);
    }
  }

  /** A range no busy block touches lies inside one free block. */
  lemma ClearRunHasRoom(bs: seq<Block>, memory: nat, x: nat, size: nat)
    requires Managed(bs, 0, memory) && 0 < size && x + size <= memory
    requires forall b :: b in Busy(bs) ==> End(b) <= x || x + size <= b.offset
    ensures Room(bs, size).Some?
  {
    hide Tiles, Settled, Busy, Room;
    forall y | x <= y < x + size ensures ByteFree(bs, y) {
      var i := BlockOfByte(bs, 0, memory, y);
      BusyIn(bs, bs[i]);
    }
    var i := RunInOneBlock(bs, 0, memory, x, size);
  }

  /** A slot is found if and only if some range of that size keeps clear of the leaked blocks,
      that is, of the busy blocks no entry owns. */
  lemma SlotIffClear(c: Cache, memory: nat, size: nat)
    requires Kept(c, memory) && 0 < size
    ensures Allocate(c, size).addr.Some? <==> exists x: nat :: x + size <= memory && Clear(c, x, size)
  {
    hide Tiles, Settled, Busy, Room, Carve, Allocate, EvictN, Apart;
    var k := EvictsShortestPrefix(c, size);
    var d := EvictN(c, k);
    EvictNKeeps(c, memory, k);
    if Allocate(c, size).addr.Some? {
      var i := Room(d.blocks, size).value;
      Within(d.blocks, 0, memory, i);
      forall b | Leaked(c, b) ensures End(b) <= d.blocks[i].offset || d.blocks[i].offset + size <= b.offset {
        FreeBlockClear(d, memory, i, b);
      }
      assert Clear(c, d.blocks[i].offset, size);
    } else {
      assert d.entries == [];
      forall x: nat | x + size <= memory && Clear(c, x, size) ensures false {
        assert forall b :: b in Busy(d.blocks) ==> Leaked(c, b);
        ClearRunHasRoom(d.blocks, memory, x, size);
      }
    }
  }

  ghost predicate NoLeaks(c: Cache) {
    forall b :: b in Busy(c.blocks) ==> exists e :: e in c.entries && Own(e) == b
  }

  /** With every busy block owned, any size up to the whole memory gets a slot. */
  lemma NeverFullWithoutLeaks(c: Cache, memory: nat, size: nat)
    requires Kept(c, memory) && NoLeaks(c) && 0 < size <= memory
    ensures Allocate(c, size).addr.Some?
  {
    hide Allocate, Kept, Busy;
    SlotIffClear(c, memory, size);
    assert Clear(c, 0, size);
  }
}
