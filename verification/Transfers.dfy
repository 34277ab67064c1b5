/** Chunked reads and writes of device memory over the lossy link. */
module Transfers {
  import opened Words
  import opened Packets
  import opened HostLink

  /** The result of a transfer; only the chunked commands report an address out of range. */
  datatype Status = Success | OutOfRange | Failed(error: Error)

  /** Rounds up to whole words. */
  function Padded(n: nat): nat {
    (n + WORD_BYTES - 1) / WORD_BYTES * WORD_BYTES
  }

  function ChunkLength(remaining: nat): nat {
    if remaining > MAX_ALIGNED_PAYLOAD then MAX_ALIGNED_PAYLOAD else remaining
  }

  function Zeros(n: nat): (z: seq<Byte>)
    ensures |z| == n && forall i :: 0 <= i < n ==> z[i] == 0
  {
    seq(n, i => 0)
  }

  /** The bytes of one chunk, padded with zeros to a whole word. */
  function Chunk(data: seq<Byte>, offset: nat): (c: seq<Byte>)
    requires offset < |data|
    ensures |c| == Padded(ChunkLength(|data| - offset)) <= MAX_ALIGNED_PAYLOAD
  {
    var len := ChunkLength(|data| - offset);
    data[offset..offset + len] + Zeros(Padded(len) - len)
  }

  /** The whole transfer's bytes. */
  function Whole(data: seq<Byte>): seq<Byte> {
    data + Zeros(Padded(|data|) - |data|)
  }

  /** Every chunk from the offset on is accepted within its retries. */
  function AllAccepted(plan: nat -> Attempt, clock: nat, addr: nat, len: nat, offset: nat): (bool, nat)
    decreases len - offset
  {
    if offset >= len then (true, clock)
    else if addr + offset >= ADDRESS_SPACE then (false, clock)
    else
      var (ok, next) := Tries(plan, clock, addr + offset, RETRIES);
      if ok then AllAccepted(plan, next, addr, len, offset + ChunkLength(len - offset)) else (false, next)
  }

  /** How many chunks a transfer takes. */
  function Chunks(len: nat): nat {
    (len + 251) / 252
  }

  /** Clock readings of a transfer that succeeds, from a chunk on: a chunk of up to 252 bytes is sent
      at most three times between its clock reading and the next, and only the last attempt is
      accepted. */
  ghost predicate Timeline(plan: nat -> Attempt, addr: nat, len: nat, from: nat, clocks: seq<nat>) {
    && |clocks| > 0 && from + |clocks| == Chunks(len) + 1
    && forall i :: 0 <= i < |clocks| - 1 ==> SentBetween(plan, addr + 252 * (from + i), clocks[i], clocks[i + 1])
  }

  ghost predicate SentBetween(plan: nat -> Attempt, addr: nat, clock: nat, next: nat) {
    && addr < 0x1_0000 && clock < next <= clock + 3 && Accepted(plan(next - 1), addr)
    && forall c :: clock <= c < next - 1 ==> !Accepted(plan(c), addr)
  }

  lemma ChunkOffsets(len: nat, i: nat)
    requires i < Chunks(len)
    ensures 252 * i < len
    ensures if i + 1 == Chunks(len) then 252 * i + ChunkLength(len - 252 * i) == len
            else ChunkLength(len - 252 * i) == 252
  {
  }

  lemma AcceptedChunk(plan: nat -> Attempt, clock: nat, addr: nat, len: nat, i: nat)
    requires i < Chunks(len)
    ensures AllAccepted(plan, clock, addr, len, 252 * i) ==
              if addr + 252 * i >= 0x1_0000 then (false, clock)
              else var (ok, next) := Tries(plan, clock, addr + 252 * i, RETRIES);
                   if !ok then (false, next)
                   else if i + 1 == Chunks(len) then (true, next)
                   else AllAccepted(plan, next, addr, len, 252 * (i + 1))
  {
    hide Tries, Chunks;
    ChunkOffsets(len, i);
  }

  /** The one moment at which three attempts at a chunk end. */
  lemma SentOnce(plan: nat -> Attempt, addr: nat, clock: nat, next: nat)
    requires SentBetween(plan, addr, clock, next)
    ensures Tries(plan, clock, addr, RETRIES) == (true, next)
  {
    hide Tries, Accepted;
    ThreeAttempts(plan, clock, addr);
  }

  lemma {:induction false} TimelineOf(plan: nat -> Attempt, clock: nat, addr: nat, len: nat, i: nat)
    returns (clocks: seq<nat>)
    requires i < Chunks(len) && AllAccepted(plan, clock, addr, len, 252 * i).0
    ensures Timeline(plan, addr, len, i, clocks) && clocks[0] == clock
    decreases Chunks(len) - i
  {
    hide AllAccepted, Tries, Chunks, Accepted;
    AcceptedChunk(plan, clock, addr, len, i);
    var here := addr + 252 * i;
    var next := Tries(plan, clock, here, RETRIES).1;
    ThreeAttempts(plan, clock, here);
    if i + 1 == Chunks(len) {
      clocks := [clock, next];
    } else {
      var rest := TimelineOf(plan, next, addr, len, i + 1);
      clocks := [clock] + rest;
      hide SentBetween;
      forall j | 0 <= j < |clocks| - 1 ensures SentBetween(plan, addr + 252 * (i + j), clocks[j], clocks[j + 1]) {
        if j > 0 { assert SentBetween(plan, addr + 252 * (i + 1 + (j - 1)), rest[j - 1], rest[j]); }
      }
    }
  }

  lemma {:induction false} TimelineAccepts(plan: nat -> Attempt, addr: nat, len: nat, i: nat, clocks: seq<nat>)
    requires i < Chunks(len) && Timeline(plan, addr, len, i, clocks)
    ensures AllAccepted(plan, clocks[0], addr, len, 252 * i).0
    decreases Chunks(len) - i
  {
    hide AllAccepted, Tries, Chunks, SentBetween;
    assert SentBetween(plan, addr + 252 * (i + 0), clocks[0], clocks[1]);
    SentOnce(plan, addr + 252 * i, clocks[0], clocks[1]);
    SentInside(plan, addr + 252 * i, clocks[0], clocks[1]);
    AcceptedChunk(plan, clocks[0], addr, len, i);
    if i + 1 < Chunks(len) {
      var rest := clocks[1..];
      forall j | 0 <= j < |rest| - 1 ensures SentBetween(plan, addr + 252 * (i + 1 + j), rest[j], rest[j + 1]) {
        assert SentBetween(plan, addr + 252 * (i + (j + 1)), clocks[j + 1], clocks[j + 2]);
      }
      TimelineAccepts(plan, addr, len, i + 1, rest);
    }
  }

  lemma SentInside(plan: nat -> Attempt, addr: nat, clock: nat, next: nat)
    requires SentBetween(plan, addr, clock, next)
    ensures addr < 0x1_0000
  {
  }

  /** Every chunk is accepted exactly when there is a timeline of accepted chunks. */
  lemma AcceptedExactly(plan: nat -> Attempt, clock: nat, addr: nat, len: nat)
    ensures AllAccepted(plan, clock, addr, len, 0).0
            <==> exists clocks :: Timeline(plan, addr, len, 0, clocks) && clocks[0] == clock
  {
    hide AllAccepted, SentBetween;
    if Chunks(len) == 0 {
      assert AllAccepted(plan, clock, addr, 0, 0).0 by { TransferEnds(plan, clock, addr, 0); }
      assert Timeline(plan, addr, len, 0, [clock]);
    } else {
      if AllAccepted(plan, clock, addr, len, 252 * 0).0 {
        var clocks := TimelineOf(plan, clock, addr, len, 0);
      }
      forall clocks | Timeline(plan, addr, len, 0, clocks) && clocks[0] == clock
        ensures AllAccepted(plan, clock, addr, len, 252 * 0).0
      {
        TimelineAccepts(plan, addr, len, 0, clocks);
      }
    }
  }

  predicate FullBanks(b: Banks) {
    |b.data| == ADDRESS_SPACE && |b.program| == ADDRESS_SPACE
  }

  /** The transfer up to the offset is in place and nothing else has changed. */
  predicate Progress(b: Banks, c: Banks, cmd: Byte, addr: nat, data: seq<Byte>, offset: nat)
    requires offset <= |data| && addr + Padded(offset) <= |Bank(b, cmd)|
  {
    && SameOutside(b, c, cmd, addr, Padded(offset))
    && Bank(c, cmd)[addr..addr + Padded(offset)] == data[..offset] + Zeros(Padded(offset) - offset)
  }

  /** Offsets between chunks are whole words, except the last one. */
  predicate AtBoundary(offset: nat, len: nat) {
    offset <= len && (offset == len || offset % MAX_ALIGNED_PAYLOAD == 0)
  }

  lemma NextBoundary(offset: nat, len: nat)
    requires AtBoundary(offset, len) && offset < len
    ensures AtBoundary(offset + ChunkLength(len - offset), len) && Padded(offset) == offset
    ensures Padded(offset + ChunkLength(len - offset)) == offset + Padded(ChunkLength(len - offset))
    ensures Padded(offset + ChunkLength(len - offset)) <= Padded(len)
  {
    hide AtBoundary, Padded;
    assert offset % MAX_ALIGNED_PAYLOAD == 0 by { BoundaryMultiple(offset, len); }
    var words := offset / MAX_ALIGNED_PAYLOAD * 63;
    assert offset == words * WORD_BYTES;
    PaddedShift(words, 0);
    PaddedShift(words, ChunkLength(len - offset));
    PaddedMonotone(offset + ChunkLength(len - offset), len);
    BoundaryStep(offset, len);
  }

  /** Where the last chunk of a non-empty transfer starts. */
  function LastChunk(len: nat): nat {
    if len == 0 then 0 else (len - 1) / MAX_ALIGNED_PAYLOAD * MAX_ALIGNED_PAYLOAD
  }

  /** Chunks before the last are full, and the last starts at a chunk boundary. */
  lemma LastBoundary(offset: nat, len: nat)
    requires AtBoundary(offset, len) && offset < len
    ensures offset <= LastChunk(len) < len
    ensures offset < LastChunk(len) ==>
              && ChunkLength(LastChunk(len) - offset) == ChunkLength(len - offset) == MAX_ALIGNED_PAYLOAD
              && offset + Padded(MAX_ALIGNED_PAYLOAD) < len
    ensures offset == LastChunk(len) ==> offset + ChunkLength(len - offset) == len
  {
  }

  lemma BoundaryMultiple(offset: nat, len: nat)
    requires AtBoundary(offset, len) && offset < len
    ensures offset % MAX_ALIGNED_PAYLOAD == 0
  {
  }

  lemma BoundaryStep(offset: nat, len: nat)
    requires offset % MAX_ALIGNED_PAYLOAD == 0 && offset < len
    ensures AtBoundary(offset + ChunkLength(len - offset), len)
  {
  }

  lemma PaddedShift(words: nat, n: nat)
    ensures Padded(words * WORD_BYTES + n) == words * WORD_BYTES + Padded(n)
    ensures Padded(0) == 0
  {
  }

  lemma PaddedMonotone(m: nat, n: nat)
    requires m <= n
    ensures Padded(m) <= Padded(n)
  {
  }

  /** A word-aligned transfer that fits still fits when padded. */
  lemma PaddedFits(addr: nat, len: nat)
    requires addr % WORD_BYTES == 0 && addr + len <= ADDRESS_SPACE
    ensures addr + Padded(len) <= ADDRESS_SPACE
  {
  }

  lemma ChunkExtends(b: Banks, c: Banks, d: Banks, cmd: Byte, addr: nat, data: seq<Byte>, offset: nat)
    requires offset < |data| && AtBoundary(offset, |data|)
    requires addr + Padded(offset + ChunkLength(|data| - offset)) <= |Bank(b, cmd)|
    requires Padded(offset) == offset && Progress(b, c, cmd, addr, data, offset)
    requires var chunk := Chunk(data, offset);
             && SameOutside(c, d, cmd, addr + offset, |chunk|) && addr + offset + |chunk| <= |Bank(c, cmd)|
             && Bank(d, cmd)[addr + offset..addr + offset + |chunk|] == chunk
    ensures Progress(b, d, cmd, addr, data, offset + ChunkLength(|data| - offset))
  {
    hide Padded, AtBoundary, Chunk;
    NextBoundary(offset, |data|);
    var chunk, len := Chunk(data, offset), ChunkLength(|data| - offset);
    var next := offset + len;
    assert Padded(next) == offset + |chunk| by { ChunkShape(data, offset); }
    var m := Bank(d, cmd);
    assert m[addr..addr + offset] == data[..offset] by { PrefixKept(b, c, d, cmd, addr, data, offset, |chunk|); }
    assert m[addr..addr + offset + |chunk|] == m[addr..addr + offset] + m[addr + offset..addr + offset + |chunk|];
    ChunkShape(data, offset);
    assert data[..offset] + chunk == data[..next] + Zeros(Padded(len) - len);
    FrameExtends(b, c, d, cmd, addr, offset, |chunk|);
  }

  lemma ChunkShape(data: seq<Byte>, offset: nat)
    requires offset < |data|
    ensures var len := ChunkLength(|data| - offset);
            |Chunk(data, offset)| == Padded(len) && len <= Padded(len)
            && Chunk(data, offset) == data[offset..offset + len] + Zeros(Padded(len) - len)
  {
  }

  lemma PrefixKept(b: Banks, c: Banks, d: Banks, cmd: Byte, addr: nat, data: seq<Byte>, offset: nat, n: nat)
    requires offset <= |data| && addr + Padded(offset) <= |Bank(b, cmd)| && Padded(offset) == offset
    requires Progress(b, c, cmd, addr, data, offset) && SameOutside(c, d, cmd, addr + offset, n)
    ensures |Bank(d, cmd)| == |Bank(b, cmd)| && Bank(d, cmd)[addr..addr + offset] == data[..offset]
  {
    hide Padded;
    assert Zeros(Padded(offset) - offset) == [];
    assert Bank(c, cmd)[addr..addr + offset] == data[..offset];
    forall k | addr <= k < addr + offset ensures Bank(d, cmd)[k] == data[k - addr] {
      assert Bank(c, cmd)[k] == Bank(c, cmd)[addr..addr + offset][k - addr];
    }
  }

  lemma FrameExtends(b: Banks, c: Banks, d: Banks, cmd: Byte, addr: nat, offset: nat, n: nat)
    requires SameOutside(b, c, cmd, addr, offset) && SameOutside(c, d, cmd, addr + offset, n)
    ensures SameOutside(b, d, cmd, addr, offset + n)
  {
  }

  lemma FailureFrame(b: Banks, c: Banks, d: Banks, cmd: Byte, addr: nat, data: seq<Byte>, offset: nat)
    requires offset < |data| && AtBoundary(offset, |data|) && addr + Padded(offset) <= |Bank(b, cmd)|
    requires Progress(b, c, cmd, addr, data, offset)
    requires SameOutside(c, d, cmd, addr + offset, |Chunk(data, offset)|)
    ensures SameOutside(b, d, cmd, addr, Padded(|data|))
  {
    NextBoundary(offset, |data|);
  }

  /** A finished transfer is one store of the padded data. */
  lemma FinishedStore(b: Banks, c: Banks, cmd: Byte, addr: nat, data: seq<Byte>)
    requires addr + Padded(|data|) <= |Bank(b, cmd)| && Progress(b, c, cmd, addr, data, |data|)
    ensures c == WithBank(b, cmd, Overwrite(Bank(b, cmd), addr, Whole(data)))
  {
    assert data[..|data|] == data;
    var m, w := Bank(c, cmd), Whole(data);
    forall k | 0 <= k < |m| ensures m[k] == Overwrite(Bank(b, cmd), addr, w)[k] {
      if addr <= k < addr + |w| {
        assert m[k] == m[addr..addr + |w|][k - addr];
      }
    }
    assert m == Overwrite(Bank(b, cmd), addr, w);
  }

  lemma StartProgress(b: Banks, cmd: Byte, addr: nat, data: seq<Byte>)
    requires addr <= |Bank(b, cmd)|
    ensures Progress(b, b, cmd, addr, data, 0)
  {
  }

  /** One chunk of a transfer, and one chunk of the transfer that stops before the last chunk. */
  lemma AcceptedStep(plan: nat -> Attempt, clock: nat, addr: nat, len: nat, offset: nat)
    requires AtBoundary(offset, len) && offset < len && addr + offset < ADDRESS_SPACE
    ensures var (ok, next) := Tries(plan, clock, addr + offset, RETRIES);
            var end := offset + ChunkLength(len - offset);
            && AllAccepted(plan, clock, addr, len, offset)
               == (if ok then AllAccepted(plan, next, addr, len, end) else (false, next))
            && AllAccepted(plan, clock, addr, LastChunk(len), offset)
               == (if offset == LastChunk(len) then (true, clock)
                   else if ok then AllAccepted(plan, next, addr, LastChunk(len), end) else (false, next))
    ensures offset == LastChunk(len) <==> offset + ChunkLength(len - offset) == len
    ensures offset < LastChunk(len) ==> offset + Padded(ChunkLength(len - offset)) < len
  {
    hide Tries;
    LastBoundary(offset, len);
  }

  /** Builds one chunk's packet in a buffer. */
  method ChunkPacket(cmd: Byte, addr: Half, payload: seq<Byte>) returns (packet: seq<Byte>)
    requires |payload| <= MAX_PAYLOAD
    ensures Parse(packet) == Good(Message(cmd, addr, |payload|, payload))
  {
    hide Packet;
    var buf := new Byte[MAX_PACKET];
    var built := BuildPacketFields(buf, cmd, addr, |payload|, payload);
    RoundTrip(cmd, addr, payload);
    packet := buf[..built.value];
  }

  /** The host's data write. Whatever the link does, only bytes of the padded range can change, and
      only bytes of the data's own range when the padding does not fit below 2^16; success means
      exactly the padded data was stored, and happens exactly when every chunk is accepted within
      its three attempts. The error for a bad argument comes before anything is sent when the data
      does not fit below 2^16, and after every chunk but the last has been stored when only its
      padding does not; so never for a word-aligned write that fits. */
  method ComWriteData(link: Link, addr: Half, data: seq<Byte>) returns (r: Status)
    requires FullBanks(link.banks)
    modifies link
    ensures FullBanks(link.banks) && r != OutOfRange
    ensures |data| > ADDRESS_SPACE - addr ==> r == Failed(BadArg) && link.banks == old(link.banks)
    ensures r == Failed(BadArg) <==>
              || |data| > ADDRESS_SPACE - addr
              || (addr + Padded(|data|) > ADDRESS_SPACE
                  && AllAccepted(link.plan, old(link.clock), addr, LastChunk(|data|), 0).0)
    ensures r == Failed(BadArg) && |data| <= ADDRESS_SPACE - addr ==>
              && LastChunk(|data|) <= |data|
              && link.banks.program == old(link.banks.program)
              && link.banks.data == Overwrite(old(link.banks.data), addr, data[..LastChunk(|data|)])
    ensures addr % WORD_BYTES == 0 && addr + |data| <= ADDRESS_SPACE ==> r != Failed(BadArg)
    ensures SameOutside(old(link.banks), link.banks, WRITE_DATA, addr, Padded(|data|))
    ensures addr + Padded(|data|) > ADDRESS_SPACE ==> SameOutside(old(link.banks), link.banks, WRITE_DATA, addr, |data|)
    ensures r == Success ==>
              && addr + Padded(|data|) <= ADDRESS_SPACE
              && link.banks == old(link.banks).(data := Overwrite(old(link.banks.data), addr, Whole(data)))
    ensures addr + Padded(|data|) <= ADDRESS_SPACE ==>
              (r == Success <==> AllAccepted(link.plan, old(link.clock), addr, |data|, 0).0)
    ensures addr + Padded(|data|) <= ADDRESS_SPACE ==>
              (r == Success <==> exists clocks :: Timeline(link.plan, addr, |data|, 0, clocks)
                                                  && clocks[0] == old(link.clock))
  {
    hide Parse, Progress, Tries, Chunk, Overwrite, SameOutside, Padded, AllAccepted, LastChunk, AtBoundary;
    hide Transmit, AckError, Accepted, Timeline;
    TransferEnds(link.plan, link.clock, addr, |data|);
    AcceptedExactly(link.plan, link.clock, addr, |data|);
    EmptyFrame(link.banks, addr, |data|);
    if |data| > ADDRESS_SPACE - addr {
      return Failed(BadArg);
    }
    if addr % WORD_BYTES == 0 { PaddedFits(addr, |data|); }
    ghost var before := link.banks;
    StartProgress(before, WRITE_DATA, addr, data);
    var offset := 0;
    while offset < |data|
      invariant offset <= |data| && AtBoundary(offset, |data|) && FullBanks(link.banks)
      invariant addr + Padded(offset) <= ADDRESS_SPACE && Progress(before, link.banks, WRITE_DATA, addr, data, offset)
      invariant AllAccepted(link.plan, link.clock, addr, |data|, offset)
                == AllAccepted(link.plan, old(link.clock), addr, |data|, 0)
      invariant offset < |data| ==> AllAccepted(link.plan, link.clock, addr, LastChunk(|data|), offset)
                                    == AllAccepted(link.plan, old(link.clock), addr, LastChunk(|data|), 0)
    {
      NextBoundary(offset, |data|);
      AcceptedStep(link.plan, link.clock, addr, |data|, offset);
      var chunkLen := ChunkLength(|data| - offset);
      var chunkAddr: Half := addr + offset;
      ghost var now := link.banks;
      if chunkAddr + Padded(chunkLen) > ADDRESS_SPACE {
        SameOutsideNone(now, WRITE_DATA, addr + offset, |Chunk(data, offset)|);
        FailureFrame(before, now, now, WRITE_DATA, addr, data, offset);
        UnpaddedFrame(before, now, addr, data, offset);
        PartStored(before, now, addr, data, offset);
        return Failed(BadArg);
      }
      var packet := ChunkPacket(WRITE_DATA, chunkAddr, Chunk(data, offset));
      var error := link.SendWithRetries(packet);
      if error.Some? {
        FailureFrame(before, now, link.banks, WRITE_DATA, addr, data, offset);
        if addr + Padded(|data|) > ADDRESS_SPACE {
          FullChunkFrame(before, now, link.banks, addr, data, offset);
        }
        return Failed(error.value);
      }
      ChunkExtends(before, now, link.banks, WRITE_DATA, addr, data, offset);
      offset := offset + chunkLen;
    }
    TransferEnds(link.plan, link.clock, addr, |data|);
    FinishedStore(before, link.banks, WRITE_DATA, addr, data);
    ProgressFrame(before, link.banks, WRITE_DATA, addr, data);
    return Success;
  }

  lemma TransferEnds(plan: nat -> Attempt, clock: nat, addr: nat, len: nat)
    ensures AtBoundary(0, len) && AllAccepted(plan, clock, addr, len, len) == (true, clock)
  {
  }

  lemma UnpaddedFrame(b: Banks, c: Banks, addr: nat, data: seq<Byte>, offset: nat)
    requires AtBoundary(offset, |data|) && offset < |data| && addr + Padded(offset) <= |b.data|
    requires Progress(b, c, WRITE_DATA, addr, data, offset)
    ensures SameOutside(b, c, WRITE_DATA, addr, |data|)
  {
    NextBoundary(offset, |data|);
  }

  /** Where a transfer stops at a chunk boundary, the chunks before it are one store. */
  lemma PartStored(b: Banks, c: Banks, addr: nat, data: seq<Byte>, offset: nat)
    requires AtBoundary(offset, |data|) && offset < |data| && addr + Padded(offset) <= |b.data|
    requires Progress(b, c, WRITE_DATA, addr, data, offset)
    ensures c.program == b.program && addr + offset <= |b.data|
    ensures c.data == Overwrite(b.data, addr, data[..offset])
  {
    NextBoundary(offset, |data|);
    assert data[..offset][..offset] == data[..offset];
    assert Whole(data[..offset]) == data[..offset];
    FinishedStore(b, c, WRITE_DATA, addr, data[..offset]);
  }

  /** A chunk sent although the padded data does not fit is not the last one, so it is not padded. */
  lemma FullChunkFrame(b: Banks, c: Banks, d: Banks, addr: nat, data: seq<Byte>, offset: nat)
    requires AtBoundary(offset, |data|) && offset < |data| && addr + Padded(offset) <= |b.data|
    requires Progress(b, c, WRITE_DATA, addr, data, offset)
    requires SameOutside(c, d, WRITE_DATA, addr + offset, |Chunk(data, offset)|)
    requires addr + Padded(|data|) > ADDRESS_SPACE && addr + offset + |Chunk(data, offset)| <= ADDRESS_SPACE
    ensures SameOutside(b, d, WRITE_DATA, addr, |data|)
  {
    NextBoundary(offset, |data|);
    ChunkShape(data, offset);
    hide Padded, Chunk, AtBoundary;
    var len := ChunkLength(|data| - offset);
    FullChunk(|data| - offset);
    assert Padded(offset + len) == offset + Padded(len);
    assert offset + len < |data|;
    FrameExtends(b, c, d, WRITE_DATA, addr, offset, |Chunk(data, offset)|);
  }

  lemma FullChunk(n: nat)
    ensures ChunkLength(n) < n ==> Padded(ChunkLength(n)) == ChunkLength(n)
    ensures ChunkLength(n) <= n
  {
  }

  lemma EmptyFrame(b: Banks, addr: nat, len: nat)
    ensures SameOutside(b, b, WRITE_DATA, addr, Padded(len)) && SameOutside(b, b, WRITE_DATA, addr, len)
    ensures len <= Padded(len) && Padded(0) == 0
  {
  }

  lemma SameOutsideNone(b: Banks, cmd: Byte, addr: nat, n: nat)
    ensures SameOutside(b, b, cmd, addr, n)
  {
  }

  lemma ProgressFrame(b: Banks, c: Banks, cmd: Byte, addr: nat, data: seq<Byte>)
    requires addr + Padded(|data|) <= |Bank(b, cmd)| && Progress(b, c, cmd, addr, data, |data|)
    ensures SameOutside(b, c, cmd, addr, Padded(|data|))
  {
  }

  /** The last byte of the memory is inside it, but a write of that byte alone is refused before
      anything is sent, because its padding runs past the end. */
  method LastByteRefused(link: Link, value: Byte) returns (r: Status)
    requires FullBanks(link.banks)
    modifies link
    ensures r == Failed(BadArg) && link.banks == old(link.banks)
  {
    hide SameOutside;
    var addr: Half := ADDRESS_SPACE - 1;
    r := ComWriteData(link, addr, [value]);
  }
}
