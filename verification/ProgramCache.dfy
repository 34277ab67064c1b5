/** The runtime context's instruction memory: block list, cache entries and clock updated in place,
    and the device's bytes as the link leaves them. */
module ProgramCache {
  import opened Words
  import opened BlockList
  import opened DeviceMemory
  import opened DeviceContext
  import opened ProgramMemory
  import opened ProgramLoads
  import opened HostLink
  import P = Packets
  import T = Transfers
  import C = ChunkedCommands

  lemma RoomAt(bs: seq<Block>, size: nat, i: nat)
    requires i < |bs| && bs[i].free && size <= bs[i].size
    requires forall j :: 0 <= j < i ==> !bs[j].free || bs[j].size < size
    ensures Room(bs, size) == Some(i)
  {
  }

  lemma NoRoom(bs: seq<Block>, size: nat)
    requires forall j :: 0 <= j < |bs| ==> !bs[j].free || bs[j].size < size
    ensures Room(bs, size) == None
  {
  }

  lemma BlockAt(bs: seq<Block>, b: Block, i: nat)
    requires i < |bs| && bs[i] == b && forall j :: 0 <= j < i ==> bs[j] != b
    ensures BlockIndex(bs, b) == Some(i)
  {
  }

  lemma EntryAt(es: seq<Entry>, name: string, i: nat)
    requires i < |es| && es[i].name == name && forall j :: 0 <= j < i ==> es[j].name != name
    ensures EntryIndex(es, name) == Some(i)
  {
  }

  lemma CarveFront(bs: seq<Block>, i: nat, size: nat, result: seq<Block>)
    requires i < |bs| && size <= bs[i].size
    requires size == bs[i].size ==> result == bs[..i] + [Block(bs[i].offset, size, false)] + bs[i + 1..]
    requires size < bs[i].size ==>
               result == bs[..i] + [Block(bs[i].offset, size, false)]
                         + [Block(bs[i].offset + size, bs[i].size - size, true)] + bs[i + 1..]
    ensures result == Carve(bs, i, bs[i].offset, size)
  {
  }

  class ProgramContext {
    const link: Link
    const programMemorySize: nat
    var programBlocks: seq<Block>
    var programCache: seq<Entry>
    var programCacheClock: nat
    ghost var origin: map<string, Bytes>

    predicate Valid()
      reads this, link
    {
      InBounds(programBlocks) && T.FullBanks(link.banks) && programMemorySize <= ADDRESS_SPACE
    }

    /** The device's instruction memory, as far as the context manages it. */
    function Memory(): Bytes
      requires Valid()
      reads this, link
    {
      link.banks.program[..programMemorySize]
    }

    function View(): Cache
      reads this
    {
      Cache(programBlocks, programCache, programCacheClock)
    }

    ghost function Whole(): Run
      requires Valid()
      reads this, link
    {
      Run(View(), Memory(), origin)
    }

    constructor (link: Link, size: nat)
      requires 0 < size <= ADDRESS_SPACE && T.FullBanks(link.banks)
      ensures this.link == link && programMemorySize == size
      ensures Valid() && Whole() == Start(link.banks.program[..size]) && Coherent(Whole())
    {
      this.link, programMemorySize := link, size;
      programBlocks := [Block(0, size, true)];
      programCache, programCacheClock, origin := [], 0, map[];
      new;
      StartCoherent(link.banks.program[..size]);
    }

    method CoalesceProgramBlocks()
      requires Valid()
      modifies this`programBlocks
      ensures Valid() && programBlocks == Merge(old(programBlocks))
    {
      hide InBounds, Merge;
      var i := 0;
      assert programBlocks[0..] == programBlocks;
      while i + 1 < |programBlocks|
        invariant InBounds(programBlocks) && i <= |programBlocks|
        invariant programBlocks == [] ==> i == 0
        invariant Merge(old(programBlocks)) == programBlocks[..i] + Merge(programBlocks[i..])
        decreases |programBlocks| - i
      {
        var block, next := programBlocks[i], programBlocks[i + 1];
        ghost var was := programBlocks;
        if block.free && next.free && End(block) == next.offset {
          programBlocks := programBlocks[i := Block(block.offset, block.size + next.size, true)];
          programBlocks := programBlocks[..i + 1] + programBlocks[i + 2..];
          MergeJoins(was, i, programBlocks);
        } else {
          MergePasses(was, i);
          i := i + 1;
        }
      }
      MergeShort(programBlocks[i..]);
      assert programBlocks[..i] + programBlocks[i..] == programBlocks;
    }

    method EvictLruProgram() returns (evicted: bool)
      requires Valid()
      modifies this`programBlocks, this`programCache
      ensures Valid() && evicted == (old(programCache) != [])
      ensures View() == if old(programCache) == [] then old(View()) else Evict(old(View()))
    {
      if programCache == [] {
        return false;
      }
      var victim := Oldest(programCache);
      var owned := Own(programCache[victim]);
      var i := 0;
      while i < |programBlocks| && programBlocks[i] != owned
        invariant i <= |programBlocks|
        invariant forall j :: 0 <= j < i ==> programBlocks[j] != owned
      {
        i := i + 1;
      }
      if i < |programBlocks| {
        BlockAt(programBlocks, owned, i);
        programBlocks := programBlocks[i := programBlocks[i].(free := true)];
      }
      programCache := programCache[..victim] + programCache[victim + 1..];
      CoalesceProgramBlocks();
      return true;
    }

    /** Marks the front of a free block as taken and keeps its tail free. */
    method TakeFront(index: nat, size: nat) returns (addr: nat)
      requires Valid() && index < |programBlocks| && programBlocks[index].free && size <= programBlocks[index].size
      modifies this`programBlocks
      ensures Valid() && addr == old(programBlocks[index].offset)
      ensures programBlocks == Carve(old(programBlocks), index, addr, size)
    {
      assert End(programBlocks[index]) < WORD_MODULUS;
      CarveInBounds(programBlocks, index, programBlocks[index].offset, size);
      hide Carve, InBounds;
      ghost var front, was, back := programBlocks[..index], programBlocks[index], programBlocks[index + 1..];
      assert programBlocks == front + [was] + back;
      UpdateAt(front, was, back, Block(was.offset, size, false));
      addr := programBlocks[index].offset;
      if programBlocks[index].size > size {
        var tail := Block(Wrap(addr + Wrap(size)), programBlocks[index].size - size, true);
        programBlocks := programBlocks[index := Block(addr, size, false)];
        InsertAt(front + [Block(addr, size, false)], back, tail);
        programBlocks := programBlocks[..index + 1] + [tail] + programBlocks[index + 1..];
      } else {
        programBlocks := programBlocks[index := programBlocks[index].(free := false)];
      }
      CarveFront(old(programBlocks), index, size, programBlocks);
    }

    /** Evicts until a free block is large enough; what was evicted stays evicted when none is. */
    method AllocateProgramSlot(size: nat) returns (r: Reply<nat>)
      requires Valid()
      modifies this`programBlocks, this`programCache
      ensures Valid()
      ensures size == 0 || size % INSTRUCTION_BYTES != 0 ==> r == Error(BadArgument) && View() == old(View())
      ensures size != 0 && size % INSTRUCTION_BYTES == 0 && size > programMemorySize ==>
                r == Error(NoMemory) && View() == old(View())
      ensures 0 < size <= programMemorySize && size % INSTRUCTION_BYTES == 0 ==>
                var s := Allocate(old(View()), size);
                View() == s.cache && r == if s.addr.Some? then Done(s.addr.value) else Error(NoMemory)
    {
      hide InBounds, Carve, Evict;
      if size == 0 || size % INSTRUCTION_BYTES != 0 {
        return Error(BadArgument);
      }
      if size > programMemorySize {
        return Error(NoMemory);
      }
      while true
        invariant Valid() && Allocate(View(), size) == Allocate(old(View()), size)
        invariant programCacheClock == old(programCacheClock)
        decreases |programCache|
      {
        var index := 0;
        while index < |programBlocks| && (!programBlocks[index].free || programBlocks[index].size < size)
          invariant index <= |programBlocks|
          invariant forall j :: 0 <= j < index ==> !programBlocks[j].free || programBlocks[j].size < size
        {
          index := index + 1;
        }
        if index < |programBlocks| {
          RoomAt(programBlocks, size, index);
          var addr := TakeFront(index, size);
          return Done(addr);
        }
        NoRoom(programBlocks, size);
        var evicted := EvictLruProgram();
        if !evicted {
          return Error(NoMemory);
        }
      }
    }

    /** Uploads into a slot over the link. The slot ends up holding the program when every chunk is
        accepted, and otherwise some bytes the transfer left there; nothing else changes. */
    method WriteProgram(addr: nat, program: seq<P.Byte>, passes: bool) returns (ok: bool, ghost upload: Upload)
      requires Valid() && addr + |program| <= programMemorySize && |program| % INSTRUCTION_BYTES == 0
      modifies link
      ensures Valid() && link.banks.data == old(link.banks.data)
      ensures ok <==> T.AllAccepted(link.plan, old(link.clock), addr, |program|, 0).0
      ensures if ok then upload == Written(passes) else upload.Broken? && |upload.left| == |program|
      ensures Memory() == Overwrite(old(Memory()), addr, if ok then program else upload.left)
    {
      hide Overwrite, InBounds, T.AllAccepted, P.Packet;
      if program == [] {
        upload := Written(passes);
        NothingUploaded(link.plan, link.clock, addr, Memory());
        return true, upload;
      }
      ghost var before := link.banks;
      WholeWords(program);
      var status := C.WriteChunkedCommand(link, P.WRITE_PROGRAM, addr, program);
      ok := status == T.Success;
      ghost var left := link.banks.program[addr..addr + |program|];
      upload := if ok then Written(passes) else Broken(left);
      SlotWritten(before, link.banks, addr, |program|, programMemorySize);
      if ok {
        OverwriteHere(before.program, addr, program);
      }
    }

    /** Uploads on a miss; the whole new state is the one `Ensure` describes for what the link made
        of the upload. On the device, every cached program is still where its entry says. */
    method EnsureProgramLoaded(name: string, program: seq<P.Byte>, passes: bool)
      returns (r: Option<nat>, ghost upload: Upload)
      requires Valid() && Coherent(Whole())
      modifies this, link
      ensures Valid() && Coherent(Whole()) && link.banks.data == old(link.banks.data)
      ensures var l := Ensure(old(Whole()), Load(name, program, upload)); Whole() == l.run && r == l.addr
      ensures var slot := Allocate(old(View()), |program|).addr;
        old(Misses(name, program)) && slot.Some? ==>
          if T.AllAccepted(link.plan, old(link.clock), slot.value, |program|, 0).0 then upload == Written(passes)
          else upload.Broken?
      ensures forall e :: e in programCache ==>
        && e.name in origin && e.addr + e.size <= programMemorySize
        && link.banks.program[e.addr..e.addr + e.size] == origin[e.name]
    {
      hide InBounds, Overwrite, Allocate, Coherent, T.AllAccepted, ProgramLoads.Place;
      ghost var whole := Whole();
      upload := Broken([]);
      var i := 0;
      while i < |programCache|
        invariant i <= |programCache| && Valid() && Whole() == whole && link.banks == old(link.banks)
        invariant forall j :: 0 <= j < i ==> programCache[j].name != name
      {
        if programCache[i].name == name {
          EntryAt(programCache, name, i);
          programCacheClock := programCacheClock + 1;
          programCache := programCache[i := programCache[i].(lastUsed := programCacheClock)];
          EnsureCoherent(whole, Load(name, program, upload));
          CoherentOnDevice(Whole(), link.banks.program);
          return Some(programCache[i].addr), upload;
        }
        i := i + 1;
      }
      NoEntry(programCache, name);
      if program == [] {
        EnsureCoherent(whole, Load(name, program, upload));
        CoherentOnDevice(Whole(), link.banks.program);
        return None, upload;
      }
      var slot := AllocateProgramSlot(|program|);
      if slot.Error? {
        EnsureCoherent(whole, Load(name, program, upload));
        CoherentOnDevice(Whole(), link.banks.program);
        return None, upload;
      }
      SlotInside(whole, |program|);
      var written;
      written, upload := WriteProgram(slot.value, program, passes);
      EnsureCoherent(whole, Load(name, program, upload));
      PlaceUnfold(whole, Load(name, program, upload), View(), slot.value);
      if written && passes {
        programCacheClock := programCacheClock + 1;
        programCache := programCache + [Entry(name, slot.value, |program|, programCacheClock)];
        origin := origin[name := program];
        r := Some(slot.value);
      } else {
        r := None;
      }
      CoherentOnDevice(Whole(), link.banks.program);
    }

    /** The program has to be uploaded: it is not cached, not empty, a whole number of
        instructions, and no larger than the memory. */
    predicate Misses(name: string, program: seq<P.Byte>)
      reads this
    {
      EntryIndex(programCache, name).None? && program != [] && |program| % INSTRUCTION_BYTES == 0
      && |program| <= programMemorySize
    }
  }

  lemma NoEntry(es: seq<Entry>, name: string)
    requires forall j :: 0 <= j < |es| ==> es[j].name != name
    ensures EntryIndex(es, name) == None
  {
  }

  lemma NothingUploaded(plan: nat -> Attempt, clock: nat, addr: nat, memory: Bytes)
    requires addr <= |memory|
    ensures T.AllAccepted(plan, clock, addr, 0, 0).0 && Overwrite(memory, addr, []) == memory
  {
  }

  lemma WholeWords(program: seq<P.Byte>)
    requires |program| % INSTRUCTION_BYTES == 0
    ensures T.Padded(|program|) == |program| && T.Whole(program) == program
  {
  }

  /** A change within the slot, as one store into the managed part of the memory. */
  lemma SlotWritten(b: Banks, c: Banks, addr: nat, n: nat, size: nat)
    requires T.FullBanks(b) && T.FullBanks(c) && addr + n <= size <= ADDRESS_SPACE
    requires SameOutside(b, c, P.WRITE_PROGRAM, addr, n)
    ensures c.data == b.data
    ensures c.program[..size] == Overwrite<nat>(b.program[..size], addr, c.program[addr..addr + n])
  {
  }

  lemma SlotInside(r: Run, size: nat)
    requires Coherent(r) && 0 < size <= |r.memory| && Allocate(r.cache, size).addr.Some?
    ensures Allocate(r.cache, size).addr.value + size <= |r.memory|
  {
    hide Tiles, Settled, Busy, Allocate;
    SlotKeeps(r.cache, |r.memory|, size);
  }

  lemma PlaceUnfold(r: Run, l: Load, c: Cache, addr: nat)
    ensures l.upload.Broken? && |l.upload.left| == |l.program| ==>
      ProgramLoads.Place(r, l, c, addr) == Loaded(Run(c, Overwrite(r.memory, addr, l.upload.left), r.origin), None)
    ensures l.upload.Written? ==>
      var memory := Overwrite(r.memory, addr, l.program);
      ProgramLoads.Place(r, l, c, addr)
      == if !l.upload.validated then Loaded(Run(c, memory, r.origin), None)
         else Loaded(Run(Cache(c.blocks, c.entries + [Entry(l.name, addr, |l.program|, c.clock + 1)], c.clock + 1),
                         memory, r.origin[l.name := l.program]), Some(addr))
  {
  }

  lemma CoherentOnDevice(r: Run, program: Bytes)
    requires Coherent(r) && r.memory <= program
    ensures forall e :: e in r.cache.entries ==>
      && e.name in r.origin && e.addr + e.size <= |r.memory|
      && program[e.addr..e.addr + e.size] == r.origin[e.name]
  {
    hide Kept;
    forall e | e in r.cache.entries ensures program[e.addr..e.addr + e.size] == r.memory[e.addr..e.addr + e.size] {
    }
  }
}
