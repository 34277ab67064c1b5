/** Spill slots across the lanes of a warp: slot s of lane l is word 4 * s + l of the spill area. */
module SpillLanes {
  import opened Words
  import opened Isa
  import opened MiniIr
  import opened LaneSimulation

  /** Two lanes of one launch see the same spill base. */
  predicate SameBase(m: Machine, n: Machine) {
    Lookup(m.consts, SPILL_BASE) == Lookup(n.consts, SPILL_BASE)
  }

  /** With at most four lanes no two of them share a spill word, whatever their slots. */
  lemma FourLanesApart(m: Machine, n: Machine, s: nat, t: nat)
    requires SameBase(m, n) && s < MAX_SLOTS && t < MAX_SLOTS
    requires m.thread(ThreadIdx) < 4 && n.thread(ThreadIdx) < 4
    ensures SpillAddr(m, s) == SpillAddr(n, t) <==> s == t && m.thread(ThreadIdx) == n.thread(ThreadIdx)
  {
    hide SpillAddr;
    var a, b := m.thread(ThreadIdx) + 4 * s, n.thread(ThreadIdx) + 4 * t;
    SpillAddrResidue(m, s);
    SpillAddrResidue(n, t);
    if a != b { ResidueDiffers(Lookup(m.consts, SPILL_BASE), a, b); }
  }

  /** Two lanes with the given number of slots each have a spill word in common. */
  ghost predicate ShareWord(m: Machine, n: Machine, slots: nat) {
    exists s: nat, t: nat :: s < slots && t < slots && SpillAddr(m, s) == SpillAddr(n, t)
  }

  /** How many threads up, counted around the 16-bit address space, from one thread to another. */
  function Ahead(a: nat, b: nat): nat {
    (a - b) % ADDRESS_SPACE
  }

  /** Two lanes share a spill word exactly when their numbers agree modulo four and one of them is
      less than four times the slot count ahead of the other. */
  lemma ShareWordExactly(m: Machine, n: Machine, slots: nat)
    requires SameBase(m, n)
    ensures var a, b := m.thread(ThreadIdx), n.thread(ThreadIdx);
      ShareWord(m, n, slots) <==>
        Ahead(a, b) % 4 == 0 && (Ahead(a, b) < 4 * slots || Ahead(b, a) < 4 * slots)
  {
    hide SpillAddr, Ahead;
    var a, b := m.thread(ThreadIdx), n.thread(ThreadIdx);
    if s: nat, t: nat :| s < slots && t < slots && SpillAddr(m, s) == SpillAddr(n, t) {
      SameWord(m, n, s, t);
      ClosestPair(a, b, s, t);
    }
    GapCloses(a, b);
    if Ahead(a, b) % 4 == 0 && Ahead(a, b) < 4 * slots {
      SameWord(m, n, 0, Ahead(a, b) / 4);
    }
    if Ahead(a, b) % 4 == 0 && Ahead(b, a) < 4 * slots {
      SameWord(m, n, Ahead(b, a) / 4, 0);
    }
  }

  /** Going up by the distance meets the other thread, either way round. */
  lemma GapCloses(a: nat, b: nat)
    ensures (a - b - Ahead(a, b)) % ADDRESS_SPACE == 0 && (a + Ahead(b, a) - b) % ADDRESS_SPACE == 0
    ensures Ahead(a, b) % 4 == 0 <==> Ahead(b, a) % 4 == 0
  {
    var q, r := (a - b) / ADDRESS_SPACE, (b - a) / ADDRESS_SPACE;
    assert a - b - Ahead(a, b) == ADDRESS_SPACE * q;
    assert a + Ahead(b, a) - b == ADDRESS_SPACE * (0 - r);
    Multiple(q);
    Multiple(0 - r);
    assert Ahead(a, b) + Ahead(b, a) == 4 * (0x4000 * (0 - q - r));
  }

  lemma Multiple(q: int)
    ensures ADDRESS_SPACE * q % ADDRESS_SPACE == 0
  {
  }

  lemma SameWord(m: Machine, n: Machine, s: nat, t: nat)
    requires SameBase(m, n)
    ensures SpillAddr(m, s) == SpillAddr(n, t) <==>
      (m.thread(ThreadIdx) + 4 * s - n.thread(ThreadIdx) - 4 * t) % ADDRESS_SPACE == 0
  {
    hide SpillAddr;
    SpillAddrResidue(m, s);
    SpillAddrResidue(n, t);
    SameResidue(Lookup(m.consts, SPILL_BASE), m.thread(ThreadIdx) + 4 * s, n.thread(ThreadIdx) + 4 * t);
  }

  lemma SameResidue(base: int, a: int, b: int)
    ensures (base + a) % ADDRESS_SPACE == (base + b) % ADDRESS_SPACE <==> (a - b) % ADDRESS_SPACE == 0
  {
  }

  lemma ClosestPair(a: nat, b: nat, s: nat, t: nat)
    requires (a + 4 * s - b - 4 * t) % ADDRESS_SPACE == 0
    ensures Ahead(a, b) % 4 == 0
    ensures if s <= t then Ahead(a, b) <= 4 * t else Ahead(b, a) <= 4 * s
  {
    var q := (a + 4 * s - b - 4 * t) / ADDRESS_SPACE;
    assert a - b == ADDRESS_SPACE * q + 4 * (t - s);
    var d := (a - b) / ADDRESS_SPACE;
    assert Ahead(a, b) == 4 * (0x4000 * (q - d) + (t - s));
    if s <= t {
      Reduced(a - b, q, 4 * (t - s));
    } else {
      Reduced(b - a, 0 - q, 4 * (s - t));
    }
  }

  lemma Reduced(x: int, q: int, y: nat)
    requires x == ADDRESS_SPACE * q + y
    ensures x % ADDRESS_SPACE <= y
  {
    assert x / ADDRESS_SPACE >= q;
  }

  /** In particular a lane four thread numbers up shares words from two slots on. */
  lemma FifthLaneCollides(m: Machine, n: Machine, slots: nat)
    requires SameBase(m, n) && n.thread(ThreadIdx) == m.thread(ThreadIdx) + 4
    ensures ShareWord(m, n, slots) <==> slots > 1
  {
    ShareWordExactly(m, n, slots);
  }
}
