/** The runtime transport's chunked commands: program uploads and data reads. */
module ChunkedCommands {
  import opened Words
  import opened Packets
  import opened HostLink
  import opened Transfers

  // ----- writes -----

  /** Where the first chunk past the 16-bit addresses would start. */
  function PastEnd(addr: nat): nat
    requires addr < ADDRESS_SPACE
  {
    (ADDRESS_SPACE - addr + MAX_ALIGNED_PAYLOAD - 1) / MAX_ALIGNED_PAYLOAD * MAX_ALIGNED_PAYLOAD
  }

  lemma PastEndExact(addr: nat, len: nat, offset: nat)
    requires addr < ADDRESS_SPACE && AtBoundary(offset, len) && offset < len
    ensures addr + offset >= ADDRESS_SPACE <==> offset >= PastEnd(addr)
    ensures offset < PastEnd(addr) < len ==>
              && ChunkLength(PastEnd(addr) - offset) == ChunkLength(len - offset)
              && offset + ChunkLength(len - offset) <= PastEnd(addr)
  {
  }

  /** One chunk of a transfer that will stop at the end of the addresses. */
  lemma PastEndStep(plan: nat -> Attempt, clock: nat, addr: nat, len: nat, offset: nat)
    requires addr < ADDRESS_SPACE && AtBoundary(offset, len) && offset < len && offset <= PastEnd(addr) < len
    ensures AllAccepted(plan, clock, addr, PastEnd(addr), offset)
      == if offset == PastEnd(addr) then (true, clock)
         else var (ok, next) := Tries(plan, clock, addr + offset, RETRIES);
              if ok then AllAccepted(plan, next, addr, PastEnd(addr), offset + ChunkLength(len - offset))
              else (false, next)
  {
    hide Tries, PastEnd;
    PastEndExact(addr, len, offset);
  }

  /** A chunked write of a program. Only bytes of the padded range can change; when the padded
      range fits below 2^16, success means exactly the padded bytes were stored, and happens
      exactly when every chunk is accepted within its three attempts. The range error comes at
      once for an address past 16 bits, and otherwise when the data goes on past the last address
      and every chunk before that has been accepted. */
  method WriteChunkedCommand(link: Link, cmd: Byte, dst: Word, src: seq<Byte>) returns (r: Status)
    requires FullBanks(link.banks) && Writes(cmd)
    modifies link
    ensures FullBanks(link.banks)
    ensures SameOutside(old(link.banks), link.banks, cmd, dst, Padded(|src|))
    ensures dst >= ADDRESS_SPACE ==> r == OutOfRange && link.banks == old(link.banks)
    ensures r == OutOfRange <==>
              || dst >= ADDRESS_SPACE
              || (PastEnd(dst) < |src| && AllAccepted(link.plan, old(link.clock), dst, PastEnd(dst), 0).0)
    ensures r == Success && dst + Padded(|src|) <= ADDRESS_SPACE ==>
              link.banks == WithBank(old(link.banks), cmd, Overwrite(Bank(old(link.banks), cmd), dst, Whole(src)))
    ensures dst < ADDRESS_SPACE ==> (r == Success <==> AllAccepted(link.plan, old(link.clock), dst, |src|, 0).0)
    ensures dst < ADDRESS_SPACE ==>
              (r == Success <==> exists clocks :: Timeline(link.plan, dst, |src|, 0, clocks)
                                                  && clocks[0] == old(link.clock))
  {
    hide Parse, Progress, Tries, Chunk, Overwrite, SameOutside, Padded, WithBank, PastEnd, AllAccepted, AtBoundary;
    hide Transmit, AckError, Accepted, Timeline;
    TransferEnds(link.plan, link.clock, dst, |src|);
    AcceptedExactly(link.plan, link.clock, dst, |src|);
    ghost var before := link.banks;
    ghost var fits := dst + Padded(|src|) <= ADDRESS_SPACE;
    FrameStarts(before, cmd, dst, |src|);
    if dst >= ADDRESS_SPACE {
      return OutOfRange;
    }
    StartProgress(before, cmd, dst, src);
    var offset := 0;
    while offset < |src|
      invariant offset <= |src| && AtBoundary(offset, |src|) && FullBanks(link.banks)
      invariant SameOutside(before, link.banks, cmd, dst, Padded(offset))
      invariant fits ==> dst + Padded(offset) <= ADDRESS_SPACE && Progress(before, link.banks, cmd, dst, src, offset)
      invariant AllAccepted(link.plan, link.clock, dst, |src|, offset)
                == AllAccepted(link.plan, old(link.clock), dst, |src|, 0)
      invariant PastEnd(dst) < |src| ==>
                  offset <= PastEnd(dst) && AllAccepted(link.plan, link.clock, dst, PastEnd(dst), offset)
                                            == AllAccepted(link.plan, old(link.clock), dst, PastEnd(dst), 0)
    {
      NextBoundary(offset, |src|);
      PastEndExact(dst, |src|, offset);
      if PastEnd(dst) < |src| { PastEndStep(link.plan, link.clock, dst, |src|, offset); }
      if dst + offset < ADDRESS_SPACE { AcceptedStep(link.plan, link.clock, dst, |src|, offset); }
      else { NoRoomLeft(link.plan, link.clock, dst, |src|, offset); }
      var chunkLen := ChunkLength(|src| - offset);
      ghost var now, chunk := link.banks, Chunk(src, offset);
      FrameWidens(before, now, cmd, dst, offset, |src|);
      if dst + offset >= ADDRESS_SPACE {
        return OutOfRange;
      }
      var packet := ChunkPacket(cmd, dst + offset, Chunk(src, offset));
      var error := link.SendWithRetries(packet);
      FrameExtends(before, now, link.banks, cmd, dst, offset, |chunk|);
      FrameWidens(before, link.banks, cmd, dst, offset + chunkLen, |src|);
      if error.Some? {
        return Failed(error.value);
      }
      if fits {
        ChunkExtends(before, now, link.banks, cmd, dst, src, offset);
      }
      offset := offset + chunkLen;
    }
    TransferEnds(link.plan, link.clock, dst, |src|);
    if fits {
      FinishedStore(before, link.banks, cmd, dst, src);
    }
    return Success;
  }

  lemma NoRoomLeft(plan: nat -> Attempt, clock: nat, addr: nat, len: nat, offset: nat)
    requires offset < len && addr + offset >= ADDRESS_SPACE
    ensures AllAccepted(plan, clock, addr, len, offset) == (false, clock)
  {
  }

  lemma FrameWidens(b: Banks, c: Banks, cmd: Byte, addr: nat, offset: nat, len: nat)
    requires SameOutside(b, c, cmd, addr, Padded(offset)) && offset <= len
    ensures SameOutside(b, c, cmd, addr, Padded(len))
  {
    PaddedMonotone(offset, len);
  }

  lemma FrameStarts(b: Banks, cmd: Byte, addr: nat, len: nat)
    ensures SameOutside(b, b, cmd, addr, Padded(len)) && Padded(0) == 0
  {
  }

  // ----- reads -----

  /** What the host makes of a reply: header first, then as many bytes as the header announces. */
  function ReadReply(reply: Option<seq<Byte>>): Result<Message> {
    if reply.None? || |reply.value| < HEADER_SIZE then Err(Timeout)
    else
      var r := reply.value;
      if r[0] != SOF then Err(NoSof)
      else
        var len := Join(r[4], r[5]);
        if len > MAX_PAYLOAD then Err(PayloadSize)
        else if |r| < OVERHEAD + len then Err(Timeout)
        else Parse(r[..OVERHEAD + len])
  }

  function Heard(a: Attempt, b: Banks, m: Message): Result<Message> {
    var answer := Transmit(a, b, m);
    if !answer.sent then Err(Io) else ReadReply(answer.reply)
  }

  /** The first well-formed reply among up to n attempts, or the last error, and the attempt number
      after it. */
  function ReadTries(plan: nat -> Attempt, clock: nat, b: Banks, m: Message, n: nat, last: Error)
    : (Result<Message>, nat)
    decreases n
  {
    if n == 0 then (Err(last), clock)
    else
      match Heard(plan(clock), b, m)
      case Good(x) => (Good(x), clock + 1)
      case Err(e) => ReadTries(plan, clock + 1, b, m, n - 1, e)
  }

  /** A packet is read by the first of three attempts that is heard, or failing that the last one's
      error stands. */
  lemma ThreeReads(plan: nat -> Attempt, clock: nat, b: Banks, m: Message)
    ensures var (x, next) := ReadTries(plan, clock, b, m, RETRIES, Fpga);
      && clock < next <= clock + 3 && x == Heard(plan(next - 1), b, m) && (x.Err? ==> next == clock + 3)
      && forall c :: clock <= c < next - 1 ==> Heard(plan(c), b, m).Err?
  {
    hide Heard;
    var first, second, third := Heard(plan(clock), b, m), Heard(plan(clock + 1), b, m), Heard(plan(clock + 2), b, m);
    assert ReadTries(plan, clock, b, m, 3, Fpga)
        == if first.Good? then (first, clock + 1) else ReadTries(plan, clock + 1, b, m, 2, first.error);
    if first.Err? {
      assert ReadTries(plan, clock + 1, b, m, 2, first.error)
          == if second.Good? then (second, clock + 2) else ReadTries(plan, clock + 2, b, m, 1, second.error);
      if second.Err? {
        assert ReadTries(plan, clock + 2, b, m, 1, second.error)
            == if third.Good? then (third, clock + 3) else ReadTries(plan, clock + 3, b, m, 0, third.error);
      }
    }
  }

  /** What the runtime reports for an error of the link: a timeout, or a transport failure. */
  function Reported(e: Error): Status {
    if e == Timeout then Failed(Timeout) else Failed(Fpga)
  }

  function ReadRequest(addr: Half, len: nat): Message
    requires len <= MAX_PAYLOAD
  {
    Message(READ_DATA, addr, len, Zeros(len))
  }

  predicate Answers(x: Message, m: Message) {
    x.cmd == m.cmd && x.addr == m.addr && x.len == m.len
  }

  lemma ChunkFits(n: nat)
    ensures ChunkLength(n) <= Padded(ChunkLength(n)) <= MAX_ALIGNED_PAYLOAD
  {
  }

  /** How a read from the offset on ends: every chunk's first well-formed reply must answer it. */
  function ReadOutcome(plan: nat -> Attempt, clock: nat, b: Banks, src: nat, size: nat, offset: nat): Status
    decreases size - offset
  {
    if offset >= size then Success
    else if src + offset >= ADDRESS_SPACE then OutOfRange
    else
      ChunkFits(size - offset);
      var m := ReadRequest(src + offset, Padded(ChunkLength(size - offset)));
      var (x, next) := ReadTries(plan, clock, b, m, RETRIES, Fpga);
      if x.Err? then Reported(x.error)
      else if !Answers(x.value, m) then Failed(Fpga)
      else ReadOutcome(plan, next, b, src, size, offset + ChunkLength(size - offset))
  }

  lemma ParsedLength(r: seq<Byte>)
    requires Parse(r).Good?
    ensures Parse(r).value.len == Join(r[4], r[5])
  {
  }

  lemma PacketHeader(cmd: Byte, addr: Half, len: Half, payload: seq<Byte>)
    ensures var p := Packet(cmd, addr, len, payload);
            p[0] == SOF && p[4] == Hi(len) && p[5] == Lo(len) && Join(p[4], p[5]) == len
  {
  }

  /** A reply with at most one changed byte that parses is the reply that was sent, or announces
      another length. */
  lemma DamagedReply(cmd: Byte, addr: Half, payload: seq<Byte>, back: Channel)
    requires |payload| <= MAX_PAYLOAD
    requires ReadReply(Through(Packet(cmd, addr, |payload|, payload), back)).Good?
    ensures var x := ReadReply(Through(Packet(cmd, addr, |payload|, payload), back)).value;
            x == Message(cmd, addr, |payload|, payload) || x.len != |payload|
  {
    hide Packet, Parse, ReadReply, Join;
    var p := Packet(cmd, addr, |payload|, payload);
    RoundTrip(cmd, addr, payload);
    PacketHeader(cmd, addr, |payload|, payload);
    ReplyParts(Through(p, back));
    var q := Through(p, back).value;
    if back.Flip? && back.at < |p| && back.value != p[back.at] {
      if back.at == 4 || back.at == 5 {
        LengthMoves(p, back.at, back.value);
      } else {
        assert q[..OVERHEAD + |payload|] == p[back.at := back.value];
        OneByteDetected(p, back.at, back.value);
      }
    } else {
      assert q[..OVERHEAD + |payload|] == p;
    }
  }

  /** What a taken reply is: the packet its header announces. */
  lemma ReplyParts(reply: Option<seq<Byte>>)
    requires ReadReply(reply).Good?
    ensures reply.Some? && |reply.value| >= OVERHEAD
    ensures var q := reply.value; var len := Join(q[4], q[5]);
            |q| >= OVERHEAD + len && ReadReply(reply) == Parse(q[..OVERHEAD + len]) && ReadReply(reply).value.len == len
  {
    hide Parse;
    var q := reply.value;
    var r := q[..OVERHEAD + Join(q[4], q[5])];
    assert r[4] == q[4] && r[5] == q[5];
    ParsedLength(r);
  }

  /** The host only takes over bytes the device sent: a reply that passes the command, address and
      length tests carries the addressed bytes, whatever single byte was damaged. */
  lemma HeardExact(a: Attempt, b: Banks, m: Message)
    requires m.cmd == READ_DATA && m.len <= MAX_PAYLOAD && Heard(a, b, m).Good?
    requires var x := Heard(a, b, m).value; x.cmd == READ_DATA && x.addr == m.addr && x.len == m.len
    ensures Heard(a, b, m).value.payload == Fetch(b.data, m.addr, m.len)
  {
    hide Packet, ReadReply, Fetch;
    match a
    case SendFails =>
    case Lost =>
      Silence();
    case Delivered(back) =>
      DamagedReply(READ_DATA, m.addr, Fetch(b.data, m.addr, m.len), back);
    case Refused(_, back) =>
      DamagedReply(NAK, m.addr, [], back);
      BareReply(Through(Packet(NAK, m.addr, 0, []), back));
  }

  lemma Silence()
    ensures ReadReply(None) == Err(Timeout)
  {
  }

  /** The request was carried out and its reply came back undamaged. */
  predicate Answered(a: Attempt, b: Banks, m: Message) {
    a.Delivered? && Through(Carry(b, m).1, a.back) == Some(Carry(b, m).1)
  }

  /** The host hears an answer to its read exactly when the reply came back undamaged. */
  lemma HeardIffAnswered(a: Attempt, b: Banks, m: Message)
    requires m.cmd == READ_DATA && m.len <= MAX_PAYLOAD
    ensures Heard(a, b, m).Good? && Answers(Heard(a, b, m).value, m) <==> Answered(a, b, m)
  {
    hide Packet, Parse, ReadReply, Fetch;
    var p := Packet(READ_DATA, m.addr, m.len, Fetch(b.data, m.addr, m.len));
    match a
    case SendFails =>
    case Lost => Silence();
    case Delivered(back) =>
      RoundTrip(READ_DATA, m.addr, Fetch(b.data, m.addr, m.len));
      UndamagedHeard(p, m, Fetch(b.data, m.addr, m.len));
      if Heard(a, b, m).Good? && Answers(Heard(a, b, m).value, m) {
        AnswerUndamaged(p, m, Fetch(b.data, m.addr, m.len), back);
      }
    case Refused(_, back) =>
      if Heard(a, b, m).Good? && Answers(Heard(a, b, m).value, m) {
        DamagedReply(NAK, m.addr, [], back);
        BareReply(Through(Packet(NAK, m.addr, 0, []), back));
      }
  }

  lemma UndamagedHeard(p: seq<Byte>, m: Message, payload: seq<Byte>)
    requires |payload| == m.len <= MAX_PAYLOAD && p == Packet(READ_DATA, m.addr, m.len, payload) && m.cmd == READ_DATA
    requires Parse(p) == Good(Message(READ_DATA, m.addr, m.len, payload))
    ensures ReadReply(Some(p)).Good? && Answers(ReadReply(Some(p)).value, m)
  {
    hide Packet, Parse;
    PacketHeader(READ_DATA, m.addr, m.len, payload);
    assert p[..OVERHEAD + m.len] == p;
  }

  lemma AnswerUndamaged(p: seq<Byte>, m: Message, payload: seq<Byte>, back: Channel)
    requires |payload| == m.len <= MAX_PAYLOAD && p == Packet(READ_DATA, m.addr, m.len, payload)
    requires ReadReply(Through(p, back)).Good? && ReadReply(Through(p, back)).value.len == m.len
    ensures Through(p, back) == Some(p)
  {
    hide Packet, Parse, ReadReply, Join;
    RoundTrip(READ_DATA, m.addr, payload);
    PacketHeader(READ_DATA, m.addr, m.len, payload);
    ReplyParts(Through(p, back));
    if back.Flip? && back.at < |p| && back.value != p[back.at] {
      if back.at == 4 || back.at == 5 {
        LengthMoves(p, back.at, back.value);
      } else {
        assert Through(p, back).value[..OVERHEAD + m.len] == p[back.at := back.value];
        OneByteDetected(p, back.at, back.value);
      }
    } else {
      assert Through(p, back).value == p;
    }
  }

  /** A bare reply never parses as a longer packet: its seven bytes run out. */
  lemma BareReply(q: Option<seq<Byte>>)
    requires q.Some? ==> |q.value| == OVERHEAD
    ensures ReadReply(q).Good? ==> ReadReply(q).value.len == 0
  {
    hide Parse;
    if ReadReply(q).Good? {
      assert q.value[..OVERHEAD] == q.value;
      ParsedLength(q.value);
    }
  }

  /** A refusal is heard exactly when it came back undamaged, and what is heard is the refusal: the read
      ends there instead of being tried again. */
  lemma RefusalHeard(a: Attempt, b: Banks, m: Message)
    requires a.Refused?
    ensures Heard(a, b, m).Good? <==> Through(Refuse(m.addr), a.back) == Some(Refuse(m.addr))
    ensures Heard(a, b, m).Good? ==> Heard(a, b, m).value == Message(NAK, m.addr, 0, [])
  {
    hide Packet, Parse, Join;
    var q := Through(Refuse(m.addr), a.back);
    RoundTrip(NAK, m.addr, []);
    PacketHeader(NAK, m.addr, 0, []);
    if q.Some? { assert q.value[..OVERHEAD] == q.value; }
    if Heard(a, b, m).Good? {
      ReplyParts(q);
      BareReply(q);
      var p := Refuse(m.addr);
      if a.back.Flip? && a.back.at < OVERHEAD && a.back.value != p[a.back.at] {
        BareByteDetected(p, a.back.at, a.back.value);
      } else {
        assert q.value == p;
      }
    }
  }

  /** Reading leaves the memories alone. */
  lemma ReadsKeep(a: Attempt, b: Banks, m: Message)
    requires m.cmd == READ_DATA
    ensures Transmit(a, b, m).banks == b
  {
  }

  // ----- when a read succeeds -----

  /** The request for the i-th chunk of a read: up to 252 bytes, rounded up to whole words. */
  function ChunkRequest(src: nat, size: nat, i: nat): Message
    requires src + 252 * i < 0x1_0000 && 252 * i < size
  {
    var len := (if size - 252 * i > 252 then 252 else size - 252 * i) + 3;
    Message(READ_DATA, src + 252 * i, len / 4 * 4, Zeros(len / 4 * 4))
  }

  /** The attempts from a clock reading to the next, three at most, go unheard but for the last, which is
      answered. */
  ghost predicate HeardBetween(plan: nat -> Attempt, b: Banks, m: Message, clock: nat, next: nat) {
    && clock < next <= clock + 3 && Answered(plan(next - 1), b, m)
    && forall c :: clock <= c < next - 1 ==> Heard(plan(c), b, m).Err?
  }

  /** Clock readings of a read that succeeds, from a chunk on. */
  ghost predicate ReadTimeline(plan: nat -> Attempt, b: Banks, src: nat, size: nat, from: nat, clocks: seq<nat>) {
    && |clocks| > 0 && from + |clocks| == Chunks(size) + 1
    && forall i :: 0 <= i < |clocks| - 1 ==> ChunkHeard(plan, b, src, size, from + i, clocks[i], clocks[i + 1])
  }

  ghost predicate ChunkHeard(plan: nat -> Attempt, b: Banks, src: nat, size: nat, i: nat, clock: nat, next: nat) {
    && src + 252 * i < 0x1_0000 && 252 * i < size
    && HeardBetween(plan, b, ChunkRequest(src, size, i), clock, next)
  }

  lemma RequestIs(src: nat, size: nat, i: nat)
    requires i < Chunks(size) && src + 252 * i < 0x1_0000
    ensures 252 * i < size
    ensures Padded(ChunkLength(size - 252 * i)) <= MAX_ALIGNED_PAYLOAD
    ensures ReadRequest(src + 252 * i, Padded(ChunkLength(size - 252 * i))) == ChunkRequest(src, size, i)
  {
    ChunkOffsets(size, i);
  }

  /** How the read of the i-th chunk ends. */
  lemma ReadChunk(plan: nat -> Attempt, clock: nat, b: Banks, src: nat, size: nat, i: nat) returns (next: nat)
    requires i < Chunks(size)
    ensures ReadOutcome(plan, clock, b, src, size, 252 * i) == Success ==>
              ChunkHeard(plan, b, src, size, i, clock, next)
    ensures ChunkHeard(plan, b, src, size, i, clock, next) ==>
              ReadOutcome(plan, clock, b, src, size, 252 * i)
              == if i + 1 == Chunks(size) then Success else ReadOutcome(plan, next, b, src, size, 252 * (i + 1))
    ensures forall other: nat :: ChunkHeard(plan, b, src, size, i, clock, other) ==> other == next
  {
    hide ReadTries, Heard, Answered, Chunks, Padded;
    ChunkOffsets(size, i);
    next := clock;
    if src + 252 * i < 0x1_0000 {
      RequestIs(src, size, i);
      var m := ChunkRequest(src, size, i);
      var x := ReadTries(plan, clock, b, m, RETRIES, Fpga).0;
      next := ReadTries(plan, clock, b, m, RETRIES, Fpga).1;
      ThreeReads(plan, clock, b, m);
      HeardIffAnswered(plan(next - 1), b, m);
      forall other: nat | ChunkHeard(plan, b, src, size, i, clock, other) ensures other == next {
        HeardIffAnswered(plan(other - 1), b, m);
      }
    }
  }

  lemma {:induction false} ReadTimelineOf(plan: nat -> Attempt, clock: nat, b: Banks, src: nat, size: nat, i: nat)
    returns (clocks: seq<nat>)
    requires i < Chunks(size) && ReadOutcome(plan, clock, b, src, size, 252 * i) == Success
    ensures ReadTimeline(plan, b, src, size, i, clocks) && clocks[0] == clock
    decreases Chunks(size) - i
  {
    hide ReadOutcome, Chunks, ChunkHeard;
    var next := ReadChunk(plan, clock, b, src, size, i);
    if i + 1 == Chunks(size) {
      clocks := [clock, next];
    } else {
      var rest := ReadTimelineOf(plan, next, b, src, size, i + 1);
      clocks := [clock] + rest;
      forall j | 0 <= j < |clocks| - 1 ensures ChunkHeard(plan, b, src, size, i + j, clocks[j], clocks[j + 1]) {
        if j > 0 { assert ChunkHeard(plan, b, src, size, i + 1 + (j - 1), rest[j - 1], rest[j]); }
      }
    }
  }

  lemma {:induction false} ReadTimelineSucceeds(plan: nat -> Attempt, b: Banks, src: nat, size: nat, i: nat,
                                                clocks: seq<nat>)
    requires i < Chunks(size) && ReadTimeline(plan, b, src, size, i, clocks)
    ensures ReadOutcome(plan, clocks[0], b, src, size, 252 * i) == Success
    decreases Chunks(size) - i
  {
    hide ReadOutcome, Chunks, ChunkHeard;
    assert ChunkHeard(plan, b, src, size, i + 0, clocks[0], clocks[1]);
    var next := ReadChunk(plan, clocks[0], b, src, size, i);
    if i + 1 < Chunks(size) {
      var rest := clocks[1..];
      forall j | 0 <= j < |rest| - 1 ensures ChunkHeard(plan, b, src, size, i + 1 + j, rest[j], rest[j + 1]) {
        assert ChunkHeard(plan, b, src, size, i + (j + 1), clocks[j + 1], clocks[j + 2]);
      }
      ReadTimelineSucceeds(plan, b, src, size, i + 1, rest);
    }
  }

  /** A read succeeds exactly when every chunk is answered within its three attempts, after attempts
      that were not heard. */
  lemma ReadsExactly(plan: nat -> Attempt, clock: nat, b: Banks, src: nat, size: nat)
    ensures ReadOutcome(plan, clock, b, src, size, 0) == Success
            <==> exists clocks :: ReadTimeline(plan, b, src, size, 0, clocks) && clocks[0] == clock
  {
    hide ChunkHeard;
    if Chunks(size) == 0 {
      assert ReadTimeline(plan, b, src, size, 0, [clock]);
    } else {
      hide ReadOutcome;
      if ReadOutcome(plan, clock, b, src, size, 252 * 0) == Success {
        var clocks := ReadTimelineOf(plan, clock, b, src, size, 0);
      }
      forall clocks | ReadTimeline(plan, b, src, size, 0, clocks) && clocks[0] == clock
        ensures ReadOutcome(plan, clock, b, src, size, 252 * 0) == Success
      {
        ReadTimelineSucceeds(plan, b, src, size, 0, clocks);
      }
    }
  }

  method ReadPacket(link: Link, addr: Half, payload: seq<Byte>) returns (r: Result<Message>)
    requires |payload| <= MAX_PAYLOAD
    modifies link
    ensures link.banks == old(link.banks)
    ensures var m := Message(READ_DATA, addr, |payload|, payload);
            && (r, link.clock) == ReadTries(link.plan, old(link.clock), link.banks, m, RETRIES, Fpga)
            && old(link.clock) < link.clock <= old(link.clock) + 3
            && r == Heard(link.plan(link.clock - 1), link.banks, m)
            && (r.Err? ==> link.clock == old(link.clock) + 3)
            && forall c :: old(link.clock) <= c < link.clock - 1 ==> Heard(link.plan(c), link.banks, m).Err?
  {
    hide Parse, Transmit, ReadReply;
    ghost var m := Message(READ_DATA, addr, |payload|, payload);
    ThreeReads(link.plan, link.clock, link.banks, m);
    var packet := ChunkPacket(READ_DATA, addr, payload);
    var last := Fpga;
    for attempt := 0 to RETRIES
      invariant link.banks == old(link.banks)
      invariant ReadTries(link.plan, link.clock, link.banks, m, RETRIES - attempt, last)
                == ReadTries(link.plan, old(link.clock), link.banks, m, RETRIES, Fpga)
    {
      ReadsKeep(link.plan(link.clock), link.banks, m);
      var sent, reply := link.Exchange(packet);
      if !sent {
        last := Io;
        continue;
      }
      var heard := ReadReply(reply);
      if heard.Good? {
        return heard;
      }
      last := heard.error;
    }
    return Err(last);
  }

  lemma {:induction false} TriesExact(plan: nat -> Attempt, clock: nat, b: Banks, m: Message, n: nat, last: Error)
    requires m.cmd == READ_DATA && m.len <= MAX_PAYLOAD
    requires var x := ReadTries(plan, clock, b, m, n, last).0; x.Good? && Answers(x.value, m)
    ensures ReadTries(plan, clock, b, m, n, last).0.value.payload == Fetch(b.data, m.addr, m.len)
    decreases n
  {
    hide Heard, Fetch;
    match Heard(plan(clock), b, m)
    case Good(_) => HeardExact(plan(clock), b, m);
    case Err(e) => TriesExact(plan, clock + 1, b, m, n - 1, e);
  }

  /** A chunked read never changes device memory. It ends as the replies decide, with the last
      error of the first chunk that fails, and on success returns exactly the addressed bytes,
      whatever was lost, refused or damaged on the way. */
  method ReadChunkedCommand(link: Link, src: Word, size: nat) returns (r: Status, bytes: seq<Byte>)
    requires FullBanks(link.banks)
    modifies link
    ensures link.banks == old(link.banks)
    ensures r == Success && src + size <= ADDRESS_SPACE ==> bytes == link.banks.data[src..src + size]
    ensures src >= ADDRESS_SPACE ==> r == OutOfRange
    ensures src < ADDRESS_SPACE ==> r == ReadOutcome(link.plan, old(link.clock), link.banks, src, size, 0)
    ensures src < ADDRESS_SPACE ==>
              (r == Success <==> exists clocks :: ReadTimeline(link.plan, link.banks, src, size, 0, clocks)
                                                  && clocks[0] == old(link.clock))
    ensures src < ADDRESS_SPACE && src + size <= ADDRESS_SPACE ==> r != OutOfRange
  {
    hide ReadTries, Fetch, ReadTimeline, Heard;
    ReadsExactly(link.plan, link.clock, link.banks, src, size);
    bytes := [];
    if src >= ADDRESS_SPACE {
      return OutOfRange, bytes;
    }
    var offset := 0;
    while offset < size
      invariant offset <= size && link.banks == old(link.banks) && |bytes| == offset
      invariant src + offset <= ADDRESS_SPACE ==> bytes == link.banks.data[src..src + offset]
      invariant ReadOutcome(link.plan, link.clock, link.banks, src, size, offset)
                == ReadOutcome(link.plan, old(link.clock), link.banks, src, size, 0)
    {
      var chunkLen := ChunkLength(size - offset);
      if src + offset >= ADDRESS_SPACE {
        return OutOfRange, bytes;
      }
      ChunkFits(size - offset);
      var len := Padded(chunkLen);
      ghost var clock := link.clock;
      var response := ReadPacket(link, src + offset, Zeros(len));
      if response.Err? {
        return Reported(response.error), bytes;
      }
      if !Answers(response.value, ReadRequest(src + offset, len)) {
        return Failed(Fpga), bytes;
      }
      TriesExact(link.plan, clock, link.banks, ReadRequest(src + offset, len), RETRIES, Fpga);
      FetchSlice(link.banks.data, src, offset, len, chunkLen);
      bytes := bytes + response.value.payload[..chunkLen];
      offset := offset + chunkLen;
    }
    return Success, bytes;
  }

  lemma FetchSlice(memory: seq<Byte>, src: nat, offset: nat, len: nat, n: nat)
    requires n <= len && src + offset <= |memory|
    ensures |Fetch(memory, src + offset, len)| == len
    ensures src + offset + n <= |memory| ==>
              memory[src..src + offset] + Fetch(memory, src + offset, len)[..n] == memory[src..src + offset + n]
  {
  }

  /** A successful write read back gives the data that was written. */
  lemma WriteReadBack(memory: seq<Byte>, addr: nat, data: seq<Byte>)
    requires addr + Padded(|data|) <= |memory|
    ensures addr + |data| <= |memory| && Overwrite(memory, addr, Whole(data))[addr..addr + |data|] == data
  {
  }

  /** Write and read back over any link: if both report success the bytes come back. */
  method WriteThenRead(link: Link, addr: Half, data: seq<Byte>) returns (w: Status, r: Status, bytes: seq<Byte>)
    requires FullBanks(link.banks) && addr % WORD_BYTES == 0 && addr + |data| <= ADDRESS_SPACE
    modifies link
    ensures w == Success && r == Success ==> bytes == data
  {
    w := ComWriteData(link, addr, data);
    ghost var memory := old(link.banks.data);
    r, bytes := ReadChunkedCommand(link, addr, |data|);
    if w == Success {
      WriteReadBack(memory, addr, data);
    }
  }
}
