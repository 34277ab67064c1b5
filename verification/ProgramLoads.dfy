/** Name-based launches over the program cache: what instruction memory holds in every run,
    including runs where an upload or a validation fails. */
module ProgramLoads {
  import opened Words
  import opened BlockList
  import opened DeviceMemory
  import opened ProgramMemory

  type Bytes = seq<nat>

  /** What the device did with a program upload: it failed part way and left some bytes in the
      slot, or it was written and then passed or failed validation. */
  datatype Upload = Broken(left: Bytes) | Written(validated: bool)

  /** Cache, instruction memory, and for each cached name the bytes uploaded when its entry was
      created. */
  datatype Run = Run(cache: Cache, memory: Bytes, origin: map<string, Bytes>)

  datatype Load = Load(name: string, program: Bytes, upload: Upload)

  function EntryIndex(es: seq<Entry>, name: string): (i: Option<nat>)
    ensures i.Some? ==> i.value < |es| && es[i.value].name == name
    ensures i.None? ==> forall e :: e in es ==> e.name != name
    ensures forall j :: 0 <= j < (if i.Some? then i.value else |es|) ==> es[j].name != name
  {
    if es == [] then None
    else if es[0].name == name then Some(0)
    else match EntryIndex(es[1..], name)
      case None => None
      case Some(i) => Some(i + 1)
  }

  function Touch(c: Cache, i: nat): Cache
    requires i < |c.entries|
  {
    Cache(c.blocks, c.entries[i := c.entries[i].(lastUsed := c.clock + 1)], c.clock + 1)
  }

  datatype Loaded = Loaded(run: Run, addr: Option<nat>)

  /** A failed upload or validation leaves the slot busy with no entry. */
  function Ensure(r: Run, l: Load): Loaded {
    match EntryIndex(r.cache.entries, l.name)
    case Some(i) => Loaded(r.(cache := Touch(r.cache, i)), Some(r.cache.entries[i].addr))
    case None =>
      if l.program == [] || |l.program| % 4 != 0 || |l.program| > |r.memory| then Loaded(r, None)
      else
        var slot := Allocate(r.cache, |l.program|);
        if slot.addr.None? then Loaded(r.(cache := slot.cache), None)
        else Place(r, l, slot.cache, slot.addr.value)
  }

  function Place(r: Run, l: Load, c: Cache, addr: nat): Loaded {
    match l.upload
    case Broken(left) =>
      Loaded(Run(c, if |left| == |l.program| then Overwrite(r.memory, addr, left) else r.memory, r.origin), None)
    case Written(validated) =>
      var memory := Overwrite(r.memory, addr, l.program);
      if !validated then Loaded(Run(c, memory, r.origin), None)
      else
        var entry := Entry(l.name, addr, |l.program|, c.clock + 1);
        Loaded(Run(Cache(c.blocks, c.entries + [entry], c.clock + 1), memory, r.origin[l.name := l.program]),
               Some(addr))
  }

  function Slice(memory: Bytes, addr: nat, n: nat): Bytes {
    if addr + n <= |memory| then memory[addr..addr + n] else []
  }

  /** Every entry's slot still holds the bytes uploaded when the entry was created. */
  ghost predicate Faithful(r: Run) {
    forall e :: e in r.cache.entries ==>
      && e.name in r.origin && |r.origin[e.name]| == e.size && e.addr + e.size <= |r.memory|
      && Slice(r.memory, e.addr, e.size) == r.origin[e.name]
  }

  ghost predicate Coherent(r: Run) {
    Kept(r.cache, |r.memory|) && Faithful(r)
  }

  // ----- one load -----

  lemma SliceElsewhere(memory: Bytes, addr: nat, data: Bytes, at: nat, n: nat)
    requires at + n <= addr || addr + |data| <= at
    ensures Slice(Overwrite(memory, addr, data), at, n) == Slice(memory, at, n)
  {
    if addr + |data| <= |memory| && at + n <= |memory| {
      var m := Overwrite(memory, addr, data);
      forall k | at <= k < at + n ensures m[k] == memory[k] {
      }
    }
  }

  lemma SliceHere(memory: Bytes, addr: nat, data: Bytes)
    requires addr + |data| <= |memory|
    ensures Slice(Overwrite(memory, addr, data), addr, |data|) == data
  {
  }

  lemma TouchKeeps(c: Cache, size: nat, i: nat)
    requires Kept(c, size) && i < |c.entries|
    ensures Kept(Touch(c, i), size)
    ensures forall e :: e in Touch(c, i).entries ==>
              exists f :: f in c.entries && f.name == e.name && f.addr == e.addr && f.size == e.size
  {
    hide Managed, Busy;
    var d := Touch(c, i);
    forall e | e in d.entries
      ensures e.lastUsed <= d.clock && Own(e) in Busy(d.blocks)
      ensures exists f :: f in c.entries && f.name == e.name && f.addr == e.addr && f.size == e.size
    {
      var k :| 0 <= k < |d.entries| && d.entries[k] == e;
      assert c.entries[k] in c.entries;
    }
    forall a, b | 0 <= a < b < |d.entries|
      ensures d.entries[a].name != d.entries[b].name && d.entries[a].addr != d.entries[b].addr
      ensures d.entries[a].lastUsed != d.entries[b].lastUsed
    {
      assert c.entries[a] in c.entries && c.entries[b] in c.entries;
    }
  }

  /** Adding an entry that owns a busy block no other entry owns. */
  lemma AppendKeeps(c: Cache, size: nat, e: Entry)
    requires Kept(c, size) && e.lastUsed == c.clock + 1 && Own(e) in Busy(c.blocks)
    requires forall f :: f in c.entries ==> f.name != e.name && f.addr != e.addr
    ensures Kept(Cache(c.blocks, c.entries + [e], c.clock + 1), size)
  {
    hide Managed, Busy;
    var es := c.entries + [e];
    forall a, b | 0 <= a < b < |es|
      ensures es[a].name != es[b].name && es[a].addr != es[b].addr && es[a].lastUsed != es[b].lastUsed
    {
      assert c.entries[a] in c.entries;
    }
  }

  /** Writing into a fresh slot leaves every surviving entry's bytes alone. */
  lemma SlotWriteFaithful(r: Run, c: Cache, addr: nat, data: Bytes, left: Bytes)
    requires Coherent(r) && Kept(c, |r.memory|)
    requires forall e :: e in c.entries ==> e in r.cache.entries && e.addr != addr
    requires Block(addr, |data|, false) in Busy(c.blocks) && |left| == |data|
    ensures Faithful(Run(c, Overwrite(r.memory, addr, left), r.origin))
  {
    hide Tiles, Settled, Busy, Overwrite, Slice, Apart;
    forall e | e in c.entries
      ensures Slice(Overwrite(r.memory, addr, left), e.addr, e.size) == Slice(r.memory, e.addr, e.size)
    {
      LiveApart(c.blocks, 0, |r.memory|, Own(e), Block(addr, |data|, false));
      SliceElsewhere(r.memory, addr, left, e.addr, e.size);
    }
  }

  lemma EnsureCoherent(r: Run, l: Load)
    requires Coherent(r)
    ensures Coherent(Ensure(r, l).run)
    ensures |Ensure(r, l).run.memory| == |r.memory|
  {
    hide Tiles, Settled, Busy, Overwrite, Slice, Apart, Allocate, Managed;
    match EntryIndex(r.cache.entries, l.name)
    case Some(i) =>
      TouchKeeps(r.cache, |r.memory|, i);
    case None =>
      if l.program != [] && |l.program| % 4 == 0 && |l.program| <= |r.memory| {
        var slot := Allocate(r.cache, |l.program|);
        if slot.addr.None? {
          var k := EvictsShortestPrefix(r.cache, |l.program|);
          EvictNKeeps(r.cache, |r.memory|, k);
        } else {
          SlotKeeps(r.cache, |r.memory|, |l.program|);
          PlaceCoherent(r, l, slot.cache, slot.addr.value);
        }
      }
  }

  lemma PlaceCoherent(r: Run, l: Load, c: Cache, addr: nat)
    requires Coherent(r) && Kept(c, |r.memory|) && EntryIndex(r.cache.entries, l.name).None?
    requires addr + |l.program| <= |r.memory|
    requires forall e :: e in c.entries ==> e in r.cache.entries && e.addr != addr
    requires Block(addr, |l.program|, false) in Busy(c.blocks)
    ensures Coherent(Place(r, l, c, addr).run) && |Place(r, l, c, addr).run.memory| == |r.memory|
  {
    hide Tiles, Settled, Busy, Overwrite, Slice, Apart, Managed;
    match l.upload
    case Broken(left) =>
      if |left| == |l.program| {
        SlotWriteFaithful(r, c, addr, l.program, left);
      }
    case Written(validated) =>
      SlotWriteFaithful(r, c, addr, l.program, l.program);
      SliceHere(r.memory, addr, l.program);
      if validated {
        AppendKeeps(c, |r.memory|, Entry(l.name, addr, |l.program|, c.clock + 1));
      }
  }

  // ----- whole runs -----

  function Start(memory: Bytes): Run {
    Run(Cache([Block(0, |memory|, true)], [], 0), memory, map[])
  }

  function EnsureAll(r: Run, ls: seq<Load>): Run
    decreases |ls|
  {
    if ls == [] then r else EnsureAll(Ensure(r, ls[0]).run, ls[1..])
  }

  lemma {:induction false} EnsureAllCoherent(r: Run, ls: seq<Load>)
    requires Coherent(r)
    ensures Coherent(EnsureAll(r, ls)) && |EnsureAll(r, ls).memory| == |r.memory|
    decreases |ls|
  {
    hide Coherent, Ensure;
    if ls != [] {
      EnsureCoherent(r, ls[0]);
      EnsureAllCoherent(Ensure(r, ls[0]).run, ls[1..]);
    }
  }

  lemma StartCoherent(memory: Bytes)
    requires 0 < |memory| < WORD_MODULUS
    ensures Coherent(Start(memory)) && NoLeaks(Start(memory).cache)
  {
    var bs := Start(memory).cache.blocks;
    assert bs[1..] == [] && Busy(bs) == [];
  }

  /** In every run of loads, whatever uploads and validations do: each entry owns a busy block of
      its exact address and size, entries are pairwise disjoint, and instruction memory at each
      entry holds exactly the bytes uploaded when the entry was created. */
  lemma EveryRunFaithful(memory: Bytes, ls: seq<Load>)
    requires 0 < |memory| < WORD_MODULUS
    ensures var r := EnsureAll(Start(memory), ls); var es := r.cache.entries;
            && (forall e :: e in es ==>
                  && Own(e) in Busy(r.cache.blocks)
                  && e.name in r.origin && e.addr + e.size <= |r.memory|
                  && r.memory[e.addr..e.addr + e.size] == r.origin[e.name])
            && (forall i, j :: 0 <= i < j < |es| ==>
                  && es[i].name != es[j].name
                  && (es[i].addr + es[i].size <= es[j].addr || es[j].addr + es[j].size <= es[i].addr))
  {
    hide Tiles, Settled, Busy, EnsureAll;
    StartCoherent(memory);
    EnsureAllCoherent(Start(memory), ls);
    var r := EnsureAll(Start(memory), ls);
    var es := r.cache.entries;
    forall i, j | 0 <= i < j < |es|
      ensures es[i].addr + es[i].size <= es[j].addr || es[j].addr + es[j].size <= es[i].addr
    {
      assert es[i] in es && es[j] in es;
      LiveApart(r.cache.blocks, 0, |r.memory|, Own(es[i]), Own(es[j]));
    }
  }

  /** A load leaves other entries as they were or evicts them, and puts its own above them all. */
  lemma EnsureRecency(r: Run, l: Load)
    requires Coherent(r)
    ensures var es := Ensure(r, l).run.cache.entries;
            && (forall e :: e in es && e.name != l.name ==> e in r.cache.entries)
            && (forall e, f :: e in es && f in es && e.name == l.name != f.name ==> f.lastUsed < e.lastUsed)
  {
    hide Tiles, Settled, Busy, Overwrite, Allocate, Managed, Slice;
    if EntryIndex(r.cache.entries, l.name).None? && l.program != [] && |l.program| % 4 == 0
       && |l.program| <= |r.memory|
    {
      AllocateEntries(r.cache, |r.memory|, |l.program|);
    }
  }

  lemma AllocateEntries(c: Cache, memory: nat, size: nat)
    requires Kept(c, memory) && 0 < size <= memory
    ensures var d := Allocate(c, size).cache;
            d.clock == c.clock && forall e :: e in d.entries ==> e in c.entries
  {
    hide Kept, Allocate;
    var k := EvictsShortestPrefix(c, size);
    EvictNKeeps(c, memory, k);
  }

  /** One more than the index of a name's last load; zero before the first. */
  function LastLoad(ls: seq<Load>, name: string): (n: nat)
    ensures n <= |ls|
  {
    if ls == [] then 0
    else if ls[|ls| - 1].name == name then |ls|
    else LastLoad(ls[..|ls| - 1], name)
  }

  lemma {:induction false} EnsureAllLast(r: Run, ls: seq<Load>)
    requires ls != []
    ensures EnsureAll(r, ls) == Ensure(EnsureAll(r, ls[..|ls| - 1]), ls[|ls| - 1]).run
    decreases |ls|
  {
    hide Ensure;
    var init := ls[..|ls| - 1];
    if init != [] {
      EnsureAllLast(Ensure(r, ls[0]).run, ls[1..]);
      assert ls[1..][..|ls| - 2] == init[1..];
    }
  }

  /** In every run, the entries' order of use is the order in which their names were last loaded; so
      the entry evicted first is the one whose last load lies furthest back. */
  lemma {:induction false} UsedInLoadOrder(memory: Bytes, ls: seq<Load>)
    requires 0 < |memory| < WORD_MODULUS
    ensures var es := EnsureAll(Start(memory), ls).cache.entries;
            forall e, f :: e in es && f in es ==>
              (e.lastUsed < f.lastUsed <==> LastLoad(ls, e.name) < LastLoad(ls, f.name))
    decreases |ls|
  {
    hide Ensure, Coherent;
    if ls != [] {
      var init, l := ls[..|ls| - 1], ls[|ls| - 1];
      var r := EnsureAll(Start(memory), init);
      UsedInLoadOrder(memory, init);
      StartCoherent(memory);
      EnsureAllCoherent(Start(memory), init);
      EnsureAllLast(Start(memory), ls);
      EnsureRecency(r, l);
      hide EnsureAll;
      forall e, f | e in Ensure(r, l).run.cache.entries && f in Ensure(r, l).run.cache.entries
        ensures e.lastUsed < f.lastUsed <==> LastLoad(ls, e.name) < LastLoad(ls, f.name)
      {
        SameName(r, l, e, f);
      }
    }
  }

  lemma SameName(r: Run, l: Load, e: Entry, f: Entry)
    requires Coherent(r) && e in Ensure(r, l).run.cache.entries && f in Ensure(r, l).run.cache.entries
    ensures e.name == f.name ==> e == f
  {
    hide Ensure;
    EnsureCoherent(r, l);
  }

  /** A successful load makes its entry the most recently used, and leaves the given program at
      the returned address, as uploading it afresh would, if and only if the name was not cached
      or was cached with the same bytes. */
  lemma AgreesWithReupload(r: Run, l: Load)
    requires Coherent(r) && Ensure(r, l).addr.Some?
    ensures var after := Ensure(r, l);
            exists e :: e in after.run.cache.entries && e.name == l.name && e.addr == after.addr.value
              && (forall f :: f in after.run.cache.entries && f != e ==> f.lastUsed < e.lastUsed)
              && (Slice(after.run.memory, e.addr, e.size) == l.program
                  <==> EntryIndex(r.cache.entries, l.name).None? || r.origin[l.name] == l.program)
  {
    hide Tiles, Settled, Busy, Overwrite, Apart, Allocate, Managed, Slice;
    match EntryIndex(r.cache.entries, l.name)
    case Some(i) =>
      assert r.cache.entries[i] in r.cache.entries;
      assert Ensure(r, l).run.cache.entries[i] in Ensure(r, l).run.cache.entries;
    case None =>
      SlotKeeps(r.cache, |r.memory|, |l.program|);
      SliceHere(r.memory, Ensure(r, l).addr.value, l.program);
      var es := Ensure(r, l).run.cache.entries;
      assert es[|es| - 1] in es;
  }

  // ----- runs without failures -----

  predicate Loadable(l: Load, memory: nat) {
    0 < |l.program| <= memory && |l.program| % 4 == 0 && l.upload == Written(true)
  }

  lemma EnsureWithoutFailure(r: Run, l: Load)
    requires Coherent(r) && NoLeaks(r.cache) && Loadable(l, |r.memory|)
    ensures Ensure(r, l).addr.Some? && NoLeaks(Ensure(r, l).run.cache)
  {
    hide Tiles, Settled, Busy, Overwrite, Apart, Allocate, Managed, Slice;
    var d := Ensure(r, l).run.cache;
    match EntryIndex(r.cache.entries, l.name)
    case Some(i) =>
      forall b | b in Busy(d.blocks) ensures exists e :: e in d.entries && Own(e) == b {
        var e :| e in r.cache.entries && Own(e) == b;
        var k :| 0 <= k < |r.cache.entries| && r.cache.entries[k] == e;
        assert d.entries[k] in d.entries && Own(d.entries[k]) == b;
      }
    case None =>
      NeverFullWithoutLeaks(r.cache, |r.memory|, |l.program|);
      SlotKeeps(r.cache, |r.memory|, |l.program|);
      var c := Allocate(r.cache, |l.program|).cache;
      forall b | b in Busy(d.blocks) ensures exists e :: e in d.entries && Own(e) == b {
        if b.offset == Ensure(r, l).addr.value {
          assert d.entries[|c.entries|] in d.entries && Own(d.entries[|c.entries|]) == b;
        } else {
          assert !Leaked(c, b);
          var e :| e in c.entries && Own(e) == b;
          assert e in d.entries;
        }
      }
  }

  lemma {:induction false} EnsureAllWithoutFailure(r: Run, ls: seq<Load>)
    requires Coherent(r) && NoLeaks(r.cache) && forall i :: 0 <= i < |ls| ==> Loadable(ls[i], |r.memory|)
    ensures NoLeaks(EnsureAll(r, ls).cache)
    decreases |ls|
  {
    hide Coherent, Ensure, NoLeaks;
    if ls != [] {
      EnsureWithoutFailure(r, ls[0]);
      EnsureCoherent(r, ls[0]);
      EnsureAllWithoutFailure(Ensure(r, ls[0]).run, ls[1..]);
    }
  }

  /** While no upload or validation has failed, busy blocks and entries stay in bijection and a
      load of any word-multiple size up to the memory always gets a slot. */
  lemma NoFailureNeverFull(memory: Bytes, ls: seq<Load>, next: Load)
    requires 0 < |memory| < WORD_MODULUS && Loadable(next, |memory|)
    requires forall i :: 0 <= i < |ls| ==> Loadable(ls[i], |memory|)
    ensures var r := EnsureAll(Start(memory), ls);
            && (forall b :: b in Busy(r.cache.blocks) <==> exists e :: e in r.cache.entries && Own(e) == b)
            && Ensure(r, next).addr.Some?
  {
    hide EnsureAll, Ensure, Busy, Managed;
    StartCoherent(memory);
    EnsureAllCoherent(Start(memory), ls);
    EnsureAllWithoutFailure(Start(memory), ls);
    EnsureWithoutFailure(EnsureAll(Start(memory), ls), next);
  }

  // ----- where the cache differs from re-uploading -----

  lemma FirstLoad(size: nat)
    requires 0 < size
    ensures Allocate(Cache([Block(0, size, true)], [], 0), size) == Slot(Cache([Block(0, size, false)], [], 0), Some(0))
  {
    var bs := [Block(0, size, true)];
    assert Room(bs, size) == Some(0);
    assert Carve(bs, 0, 0, size) == [Block(0, size, false)];
  }

  /** A failed upload keeps its block for good: in a memory of 16 bytes, one failed load of 16
      bytes leaves no room for a later load of four. */
  lemma FailedUploadLeaks()
    ensures var memory := [0, 0, 0, 0, 0, 0, 0, 0, 0, 0, 0, 0, 0, 0, 0, 0];
            var r := Ensure(Start(memory), Load("a", memory, Broken([]))).run;
            forall l: Load :: Ensure(r, l).addr == None
  {
    var memory: Bytes := [0, 0, 0, 0, 0, 0, 0, 0, 0, 0, 0, 0, 0, 0, 0, 0];
    FirstLoad(16);
    var r := Ensure(Start(memory), Load("a", memory, Broken([]))).run;
    assert r.cache == Cache([Block(0, 16, false)], [], 0);
    assert r.cache.blocks[1..] == [];
  }

  /** Registering new bytes under a cached name does not reach the device: the second load
      succeeds and the slot still holds the first program. */
  lemma StaleAfterReregistration()
    ensures var memory := [0, 0, 0, 0];
            var first, second := [1, 1, 1, 1], [2, 2, 2, 2];
            var r := Ensure(Start(memory), Load("a", first, Written(true))).run;
            var s := Ensure(r, Load("a", second, Written(true)));
            s.addr == Some(0) && s.run.memory == first != second
  {
    FirstLoad(4);
    var memory: Bytes := [0, 0, 0, 0];
    var r := Ensure(Start(memory), Load("a", [1, 1, 1, 1], Written(true))).run;
    assert r.cache.entries == [Entry("a", 0, 4, 1)];
    assert r.memory == [1, 1, 1, 1];
  }
}
