/** Copies to the device across the allocator and the transport: exactly when the zero padding of
    the last word leaves every other allocation alone. */
module CopyIsolation {
  import opened Arithmetic
  import opened Words
  import opened BlockList
  import opened DeviceMemory
  import opened Rounding
  import opened DeviceRuns
  import D = DeviceContext
  import P = Packets
  import H = HostLink
  import T = Transfers

  /** Every live block starts and ends on a word boundary. */
  ghost predicate WordBlocks(bs: seq<Block>) {
    forall b :: b in Busy(bs) ==> b.offset % P.WORD_BYTES == 0 && b.size % P.WORD_BYTES == 0
  }

  predicate WordRequest(r: Request) {
    r.Allocate? ==> r.alignment % P.WORD_BYTES == 0
  }

  ghost predicate WordLeases(s: State) {
    forall a :: a in s.ledger ==> s.ledger[a].alignment % P.WORD_BYTES == 0
  }

  lemma {:induction false} WordLeasesKept(s: State, rs: seq<Request>, base: nat, managed: nat)
    requires Sound(s, base, managed) && forall i :: 0 <= i < |rs| ==> Sane(rs[i]) && WordRequest(rs[i])
    requires WordLeases(s)
    ensures WordLeases(ServeAll(s, rs, base, managed))
    decreases |rs|
  {
    hide Managed, Balanced, Malloc, Free;
    if rs != [] {
      ServeSound(s, rs[0], base, managed);
      WordLeaseStep(s, rs[0], base, managed);
      WordLeasesKept(Serve(s, rs[0]), rs[1..], base, managed);
    }
  }

  lemma WordLeaseStep(s: State, r: Request, base: nat, managed: nat)
    requires Sound(s, base, managed) && Sane(r) && WordRequest(r) && WordLeases(s)
    ensures WordLeases(Serve(s, r))
  {
    hide Malloc, Free, Tiles, Settled, Busy, Fair;
  }

  lemma MultipleOfMultiple(n: nat, al: nat)
    requires al != 0 && al % P.WORD_BYTES == 0 && n % al == 0
    ensures n % P.WORD_BYTES == 0
  {
    var q := n / al;
    assert n == al * q && al == P.WORD_BYTES * (al / P.WORD_BYTES);
    assert n == P.WORD_BYTES * ((al / P.WORD_BYTES) * q);
  }

  /** After any run whose alignments are multiples of four, live blocks are whole words. */
  lemma RunsGiveWordBlocks(rs: seq<Request>, base: nat, managed: nat)
    requires 0 < managed && base + managed < WORD_MODULUS
    requires forall i :: 0 <= i < |rs| ==> Sane(rs[i]) && WordRequest(rs[i])
    ensures WordBlocks(After(rs, base, managed).blocks)
  {
    hide Tiles, Settled, Busy;
    FreshSound(base, managed);
    WordLeasesKept(Fresh(base, managed), rs, base, managed);
    var s := After(rs, base, managed);
    forall b | b in Busy(s.blocks)
      ensures b.offset % P.WORD_BYTES == 0 && b.size % P.WORD_BYTES == 0
    {
      WordLease(b.offset, s.ledger[b.offset]);
    }
  }

  /** A fair lease at a word alignment is made of whole words, even when its rounding wrapped. */
  lemma WordLease(a: nat, lease: Lease)
    requires Fair(a, lease) && lease.alignment % P.WORD_BYTES == 0
    ensures a % P.WORD_BYTES == 0 && lease.size % P.WORD_BYTES == 0
  {
    hide AlignUpSize, Unit;
    WordUnit(lease.alignment);
    MultipleOfMultiple(a, Unit(lease.alignment));
    WordSize(lease.asked, lease.alignment);
  }

  lemma WordUnit(al: nat)
    requires al % P.WORD_BYTES == 0
    ensures Unit(al) % P.WORD_BYTES == 0
  {
  }

  lemma WordSize(n: nat, al: nat)
    requires al != 0 && al % P.WORD_BYTES == 0
    ensures AlignUpSize(n, al) % P.WORD_BYTES == 0
  {
    if n % al == 0 {
      MultipleOfMultiple(n, al);
    } else {
      RoundedUp(n, al);
      MultipleOfMultiple(n + (al - n % al), al);
      WrapKeepsWords(n + (al - n % al));
    }
  }

  lemma WrapKeepsWords(n: nat)
    requires n % P.WORD_BYTES == 0
    ensures n % SIZE_MODULUS % P.WORD_BYTES == 0
  {
    assert n % SIZE_MODULUS == P.WORD_BYTES * (n / P.WORD_BYTES - SIZE_MODULUS / P.WORD_BYTES * (n / SIZE_MODULUS));
  }

  /** A word-aligned write inside a block of whole words stays inside it when padded. */
  lemma PaddingStaysInside(b: Block, dst: nat, size: nat)
    requires b.offset % P.WORD_BYTES == 0 && b.size % P.WORD_BYTES == 0 && dst % P.WORD_BYTES == 0
    requires b.offset <= dst && dst + size <= End(b)
    ensures dst + T.Padded(size) <= End(b)
  {
  }

  /** Bytes the copy may not touch: those of a live block the destination does not lie in, and
      everything outside the managed range, the spill area included. */
  ghost predicate Protected(bs: seq<Block>, base: nat, managed: nat, dst: nat, k: nat) {
    k < base || base + managed <= k
    || exists b :: b in Busy(bs) && b.offset <= k < End(b) && !(b.offset <= dst < End(b))
  }

  /** No protected byte lies in the padding, or the padding does not fit below 2^16 and is never
      written. */
  ghost predicate PaddingFree(bs: seq<Block>, base: nat, managed: nat, dst: nat, size: nat) {
    dst + T.Padded(size) <= ADDRESS_SPACE ==>
      forall k :: dst + size <= k < dst + T.Padded(size) ==> !Protected(bs, base, managed, dst, k)
  }

  datatype CopyResult = Copied | Rejected | TransportFailed(status: T.Status)

  /** Copies host bytes to a live allocation. Whatever happens on the link, and whether or not the
      copy succeeds, only the padded range can change, so no protected byte does when the padding
      is free of them; a successful copy leaves the data at the destination. */
  method CopyToDevice(context: D.Context, link: H.Link, dst: Word, src: seq<P.Byte>) returns (r: CopyResult)
    requires context.Valid() && context.Tiled() && T.FullBanks(link.banks)
    modifies link
    ensures r == Rejected <==>
              src != [] && !exists b :: b in Busy(context.blocks) && b.offset <= dst && dst + |src| <= End(b)
    ensures T.FullBanks(link.banks) && link.banks.program == old(link.banks.program)
    ensures var base, managed := context.memoryBase, context.memorySize - context.spillSize;
            PaddingFree(context.blocks, base, managed, dst, |src|) ==>
              forall k | 0 <= k < ADDRESS_SPACE :: Protected(context.blocks, base, managed, dst, k) ==>
                link.banks.data[k] == old(link.banks.data)[k]
    ensures r == Copied ==> dst + |src| <= ADDRESS_SPACE || src == []
    ensures r == Copied && src != [] ==> link.banks.data[dst..dst + |src|] == src
    ensures r != Rejected && src != [] && dst + T.Padded(|src|) <= ADDRESS_SPACE ==>
              (r == Copied <==> T.AllAccepted(link.plan, old(link.clock), dst, |src|, 0).0)
    ensures r == Copied && src != [] ==>
              dst + T.Padded(|src|) <= ADDRESS_SPACE
              && link.banks.data == Overwrite(old(link.banks.data), dst, T.Whole(src))
  {
    hide Overwrite, Tiles, Settled, Busy, T.Padded, H.SameOutside, D.InBounds;
    PaddedAtLeast(|src|);
    var inside := context.RangeIsAllocated(dst, |src|);
    if !inside {
      return Rejected;
    }
    if src == [] {
      return Copied;
    }
    if dst >= ADDRESS_SPACE || |src| > ADDRESS_SPACE - dst {
      return TransportFailed(T.OutOfRange);
    }
    ghost var base, managed := context.memoryBase, context.memorySize - context.spillSize;
    ghost var own :| own in Busy(context.blocks) && own.offset <= dst && dst + |src| <= End(own);
    ghost var before := link.banks;
    var status := T.ComWriteData(link, dst, src);
    forall k | 0 <= k < ADDRESS_SPACE && Protected(context.blocks, base, managed, dst, k)
               && PaddingFree(context.blocks, base, managed, dst, |src|)
      ensures link.banks.data[k] == before.data[k]
    {
      ProtectedOutside(context.blocks, base, managed, dst, k, own);
      if dst + T.Padded(|src|) <= ADDRESS_SPACE {
        ByteKept(before, link.banks, dst, T.Padded(|src|), k);
      } else {
        ByteKept(before, link.banks, dst, |src|, k);
      }
    }
    ProgramKept(before, link.banks, dst, T.Padded(|src|));
    if status != T.Success {
      return TransportFailed(status);
    }
    StoredData(before.data, dst, src);
    return Copied;
  }

  lemma PaddedAtLeast(n: nat)
    ensures n <= T.Padded(n) && (n > 0 ==> T.Padded(n) > 0)
  {
  }

  /** A word-aligned copy into blocks of whole words keeps its padding to itself. */
  lemma WordsArePaddingFree(bs: seq<Block>, base: nat, managed: nat, dst: nat, size: nat, own: Block)
    requires Managed(bs, base, managed) && WordBlocks(bs) && dst % P.WORD_BYTES == 0 && size > 0
    requires own in Busy(bs) && own.offset <= dst && dst + size <= End(own)
    ensures PaddingFree(bs, base, managed, dst, size)
  {
    hide Tiles, Settled, Busy, T.Padded;
    PaddingStaysInside(own, dst, size);
    forall k | dst + size <= k < dst + T.Padded(size) ensures !Protected(bs, base, managed, dst, k) {
      if Protected(bs, base, managed, dst, k) { ProtectedOutside(bs, base, managed, dst, k, own); }
    }
  }

  function CleanDelivery(n: nat): H.Attempt { H.Delivered(H.Clean) }

  lemma {:induction false} CleanAccepted(clock: nat, addr: nat, len: nat, offset: nat)
    requires addr + len <= ADDRESS_SPACE
    ensures T.AllAccepted(CleanDelivery, clock, addr, len, offset).0
    decreases len - offset
  {
    hide P.Packet;
    if offset < len {
      assert H.Accepted(CleanDelivery(clock), addr + offset);
      assert H.Tries(CleanDelivery, clock, addr + offset, H.RETRIES) == (true, clock + 1);
      CleanAccepted(clock + 1, addr, len, offset + T.ChunkLength(len - offset));
    }
  }

  /** And only then: when a protected byte lies in the padding, copying over a faultless link
      succeeds and clears it. */
  method PaddingClears(context: D.Context, dst: Word, src: seq<P.Byte>, k: nat)
    returns (before: H.Banks, link: H.Link, r: CopyResult)
    requires context.Valid() && context.Tiled() && src != []
    requires exists b :: b in Busy(context.blocks) && b.offset <= dst && dst + |src| <= End(b)
    requires dst + |src| <= k < dst + T.Padded(|src|) <= ADDRESS_SPACE
    ensures fresh(link) && link.plan == CleanDelivery && r == Copied
    ensures T.FullBanks(before) && T.FullBanks(link.banks) && before.data[k] == 7 && link.banks.data[k] == 0
  {
    hide Overwrite, Tiles, Settled, Busy, D.InBounds;
    before := H.Banks(seq(ADDRESS_SPACE, i => 7), seq(ADDRESS_SPACE, i => 7));
    link := new H.Link(CleanDelivery, before);
    CleanAccepted(0, dst, |src|, 0);
    r := CopyToDevice(context, link, dst, src);
    OverwriteHere(before.data, dst, T.Whole(src));
    assert link.banks.data[k] == link.banks.data[dst..dst + T.Padded(|src|)][k - dst];
  }

  /** A protected byte lies outside the block the destination lies in. */
  lemma ProtectedOutside(bs: seq<Block>, base: nat, managed: nat, dst: nat, k: nat, own: Block)
    requires Managed(bs, base, managed) && own in Busy(bs) && own.offset <= dst < End(own)
    requires Protected(bs, base, managed, dst, k)
    ensures k < own.offset || End(own) <= k
  {
    LiveApart(bs, base, managed, own, own);
    if base <= k < base + managed {
      var b :| b in Busy(bs) && b.offset <= k < End(b) && !(b.offset <= dst < End(b));
      LiveApart(bs, base, managed, b, own);
    }
  }

  lemma ByteKept(b: H.Banks, c: H.Banks, dst: nat, n: nat, k: nat)
    requires H.SameOutside(b, c, P.WRITE_DATA, dst, n) && k < |b.data| && !(dst <= k < dst + n)
    ensures |c.data| == |b.data| && c.data[k] == b.data[k]
  {
    assert H.Bank(c, P.WRITE_DATA)[k] == H.Bank(b, P.WRITE_DATA)[k];
  }

  lemma ProgramKept(b: H.Banks, c: H.Banks, dst: nat, n: nat)
    requires H.SameOutside(b, c, P.WRITE_DATA, dst, n)
    ensures c.program == b.program
  {
  }

  lemma StoredData(memory: seq<P.Byte>, dst: nat, src: seq<P.Byte>)
    requires dst + T.Padded(|src|) <= |memory|
    ensures dst + |src| <= |memory| && Overwrite(memory, dst, T.Whole(src))[dst..dst + |src|] == src
  {
  }

  /** With alignment 1 the padding does leave the allocation: two one-byte blocks lie side by side
      and writing the first clears the second. */
  lemma ByteAlignmentOverlaps()
    ensures var bs, after := [Block(0, 16, true)], [Block(0, 1, false), Block(1, 15, true)];
            && Malloc(bs, 1, 1) == Some(Grant(after, 0, 1))
            && Malloc(after, 1, 1).Some? && Malloc(after, 1, 1).value.addr == 1
    ensures Overwrite([7, 7, 7, 7], 0, T.Whole([5])) == [5, 0, 0, 0]
  {
    hide Malloc, Overwrite, T.Whole;
    FirstByte();
    SecondByte();
    FourBytesClear();
  }

  lemma SecondByte()
    ensures var after := [Block(0, 1, false), Block(1, 15, true)];
            Malloc(after, 1, 1).Some? && Malloc(after, 1, 1).value.addr == 1
  {
    hide Padding, AlignUpAddr, AlignUpSize, Carve, FirstFit;
    var after := [Block(0, 1, false), Block(1, 15, true)];
    PaddingValue(1, 1);
    assert AlignUpSize(1, 1) == 1 by { SizeOne(); }
    D.FirstFitAt(after, 1, 1, 1);
  }

  lemma SizeOne()
    ensures AlignUpSize(1, 1) == 1
  {
  }

  lemma FourBytesClear()
    ensures Overwrite([7, 7, 7, 7], 0, T.Whole([5])) == [5, 0, 0, 0]
  {
    hide T.Padded;
    OneWord();
    assert T.Whole([5]) == [5, 0, 0, 0];
  }

  lemma FirstByte()
    ensures Malloc([Block(0, 16, true)], 1, 1) == Some(Grant([Block(0, 1, false), Block(1, 15, true)], 0, 1))
  {
    var bs := [Block(0, 16, true)];
    assert FirstFit(bs, 1, 1) == Some(0);
    assert Carve(bs, 0, 0, 1) == [Block(0, 1, false), Block(1, 15, true)];
  }

  lemma OneWord()
    ensures T.Padded(1) == 4
  {
  }
}
