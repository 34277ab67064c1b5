/** Host protocol packets: building, parsing, and which damage parsing detects. */
module Packets {
  import opened Words

  type Byte = b: nat | b < 256

  const SOF: Byte := 0xAA
  const HEADER_SIZE := 6
  const OVERHEAD := 7
  const MAX_PAYLOAD := 255
  const MAX_PACKET := OVERHEAD + MAX_PAYLOAD
  const WORD_BYTES := 4
  const MAX_ALIGNED_PAYLOAD := 252

  const WRITE_DATA: Byte := 0x01
  const READ_DATA: Byte := 0x02
  const WRITE_PROGRAM: Byte := 0x03
  const ACK: Byte := 0x08
  const NAK: Byte := 0x09

  type Half = n: nat | n < 0x1_0000

  function Hi(n: Half): Byte { n / 256 }
  function Lo(n: Half): Byte { n % 256 }
  function Join(hi: Byte, lo: Byte): Half { hi * 256 + lo }

  /** Bitwise exclusive or of numbers of at most `width` bits. */
  function BitXor(a: nat, b: nat, width: nat): (r: nat)
    requires a < Pow2(width) && b < Pow2(width)
    ensures r < Pow2(width)
  {
    if width == 0 then 0
    else 2 * BitXor(a / 2, b / 2, width - 1) + (if a % 2 != b % 2 then 1 else 0)
  }

  function XorByte(a: Byte, b: Byte): Byte {
    EightBits();
    BitXor(a, b, 8)
  }

  /** The checksum: exclusive or of the bytes from start up to end. */
  function Crc(buf: seq<Byte>, start: nat, end: nat): Byte
    requires end <= |buf|
    decreases end
  {
    if start >= end then 0 else XorByte(Crc(buf, start, end - 1), buf[end - 1])
  }

  /** A packet up to its checksum. */
  function Unsigned(cmd: Byte, addr: Half, lenField: Half, payload: seq<Byte>): (p: seq<Byte>)
    ensures |p| == HEADER_SIZE + |payload|
  {
    [SOF, cmd, Hi(addr), Lo(addr), Hi(lenField), Lo(lenField)] + payload
  }

  /** The packet of a command, an address, a length field and a payload. */
  function Packet(cmd: Byte, addr: Half, lenField: Half, payload: seq<Byte>): (p: seq<Byte>)
    ensures |p| == OVERHEAD + |payload|
  {
    var p := Unsigned(cmd, addr, lenField, payload);
    p + [Crc(p, 1, |p|)]
  }

  datatype Error = BadArg | BadCrc | NoSof | Timeout | Short | Io | PayloadSize | Fpga

  datatype Result<+T> = Good(value: T) | Err(error: Error)

  datatype Message = Message(cmd: Byte, addr: Half, len: Half, payload: seq<Byte>)

  function Parse(buf: seq<Byte>): Result<Message> {
    if |buf| < OVERHEAD then Err(Short)
    else if buf[0] != SOF then Err(NoSof)
    else
      var len := Join(buf[4], buf[5]);
      var expected := OVERHEAD + len;
      if |buf| < expected then Err(Short)
      else if buf[expected - 1] != Crc(buf, 1, expected - 1) then Err(BadCrc)
      else Good(Message(buf[1], Join(buf[2], buf[3]), len, buf[HEADER_SIZE..HEADER_SIZE + len]))
  }

  // ----- checksums -----

  /** The checksum only depends on the bytes it covers. */
  lemma {:induction false} CrcSame(p: seq<Byte>, q: seq<Byte>, start: nat, end: nat)
    requires end <= |p| && end <= |q| && forall k :: start <= k < end ==> p[k] == q[k]
    ensures Crc(p, start, end) == Crc(q, start, end)
    decreases end
  {
    if start < end { CrcSame(p, q, start, end - 1); }
  }

  /** Exclusive or is injective in either operand. */
  lemma {:induction false} BitXorInjective(a: nat, b: nat, z: nat, width: nat)
    requires a < Pow2(width) && b < Pow2(width) && z < Pow2(width) && a != b
    ensures BitXor(a, z, width) != BitXor(b, z, width)
    ensures BitXor(z, a, width) != BitXor(z, b, width)
  {
    if a / 2 != b / 2 {
      BitXorInjective(a / 2, b / 2, z / 2, width - 1);
    }
  }

  lemma XorByteInjective(a: Byte, b: Byte, z: Byte)
    requires a != b
    ensures XorByte(a, z) != XorByte(b, z) && XorByte(z, a) != XorByte(z, b)
  {
    EightBits();
    BitXorInjective(a, b, z, 8);
  }

  /** Changing one covered byte changes the checksum. */
  lemma {:induction false} CrcChanges(p: seq<Byte>, start: nat, end: nat, i: nat, v: Byte)
    requires start <= i < end <= |p| && v != p[i]
    ensures Crc(p[i := v], start, end) != Crc(p, start, end)
    decreases end
  {
    hide XorByte;
    var q := p[i := v];
    if i == end - 1 {
      CrcSame(p, q, start, end - 1);
      XorByteInjective(p[i], v, Crc(p, start, end - 1));
    } else {
      CrcChanges(p, start, end - 1, i, v);
      XorByteInjective(Crc(p, start, end - 1), Crc(q, start, end - 1), p[end - 1]);
    }
  }

  // ----- the loops -----

  method CrcXor(buf: array<Byte>, start: nat, end: nat) returns (crc: Byte)
    requires start <= end <= buf.Length
    ensures crc == Crc(buf[..], start, end)
  {
    crc := 0;
    var i := start;
    while i < end
      invariant start <= i <= end && crc == Crc(buf[..], start, i)
    {
      crc := XorByte(crc, buf[i]);
      i := i + 1;
    }
  }

  /** Fills the buffer in place and returns the packet length, or fails on a long payload. */
  method BuildPacketFields(buf: array<Byte>, cmd: Byte, addr: Half, lenField: Half, payload: seq<Byte>)
    returns (r: Result<nat>)
    requires buf.Length >= MAX_PACKET
    modifies buf
    ensures |payload| > MAX_PAYLOAD ==> r == Err(PayloadSize) && buf[..] == old(buf[..])
    ensures |payload| <= MAX_PAYLOAD ==>
              r == Good(OVERHEAD + |payload|) && buf[..OVERHEAD + |payload|] == Packet(cmd, addr, lenField, payload)
  {
    hide Crc, XorByte, Hi, Lo;
    if |payload| > MAX_PAYLOAD {
      return Err(PayloadSize);
    }
    buf[0] := SOF;
    buf[1] := cmd;
    buf[2] := Hi(addr);
    buf[3] := Lo(addr);
    buf[4] := Hi(lenField);
    buf[5] := Lo(lenField);
    forall i | 0 <= i < |payload| {
      buf[HEADER_SIZE + i] := payload[i];
    }
    var crcIndex := HEADER_SIZE + |payload|;
    ghost var p := Unsigned(cmd, addr, lenField, payload);
    assert buf[..crcIndex] == p by {
      assert buf[0] == p[0] && buf[1] == p[1] && buf[2] == p[2] && buf[3] == p[3] && buf[4] == p[4] && buf[5] == p[5];
      assert forall k :: HEADER_SIZE <= k < crcIndex ==> buf[k] == payload[k - HEADER_SIZE] == p[k];
    }
    var crc := CrcXor(buf, 1, crcIndex);
    CrcSame(buf[..], p, 1, crcIndex);
    buf[crcIndex] := crc;
    assert buf[..crcIndex + 1] == p + [crc];
    return Good(crcIndex + 1);
  }

  method ParsePacket(buf: array<Byte>) returns (r: Result<Message>)
    ensures r == Parse(buf[..])
  {
    hide Crc;
    if buf.Length < OVERHEAD {
      return Err(Short);
    }
    if buf[0] != SOF {
      return Err(NoSof);
    }
    var len := Join(buf[4], buf[5]);
    var expected := OVERHEAD + len;
    if buf.Length < expected {
      return Err(Short);
    }
    var crc := CrcXor(buf, 1, expected - 1);
    if buf[expected - 1] != crc {
      return Err(BadCrc);
    }
    assert buf[..][HEADER_SIZE..HEADER_SIZE + len] == buf[HEADER_SIZE..HEADER_SIZE + len];
    return Good(Message(buf[1], Join(buf[2], buf[3]), len, buf[HEADER_SIZE..HEADER_SIZE + len]));
  }

  // ----- round trip and detection -----

  /** Parsing a built packet gives back command, address, length and payload. */
  lemma RoundTrip(cmd: Byte, addr: Half, payload: seq<Byte>)
    requires |payload| <= MAX_PAYLOAD
    ensures Parse(Packet(cmd, addr, |payload|, payload)) == Good(Message(cmd, addr, |payload|, payload))
  {
    hide Crc;
    var p, u := Packet(cmd, addr, |payload|, payload), Unsigned(cmd, addr, |payload|, payload);
    CrcSame(p, u, 1, |u|);
    assert p[HEADER_SIZE..HEADER_SIZE + |payload|] == payload;
  }

  /** A packet with one changed byte outside the two length bytes is rejected. */
  lemma OneByteDetected(p: seq<Byte>, i: nat, v: Byte)
    requires Parse(p).Good? && |p| == OVERHEAD + Parse(p).value.len
    requires i < |p| && i != 4 && i != 5 && v != p[i]
    ensures Parse(p[i := v]).Err?
  {
    hide Crc;
    var q, last := p[i := v], |p| - 1;
    if i == last {
      CrcSame(p, q, 1, last);
    } else if i > 0 {
      CrcChanges(p, 1, last, i, v);
    }
  }

  /** A bare seven-byte packet with any one changed byte, length bytes included, is rejected. */
  lemma BareByteDetected(p: seq<Byte>, i: nat, v: Byte)
    requires Parse(p).Good? && |p| == OVERHEAD && i < OVERHEAD && v != p[i]
    ensures Parse(p[i := v]).Err?
  {
    hide Crc;
    assert p[4] == 0 && p[5] == 0;
    if i == 4 || i == 5 {
      assert Join(p[i := v][4], p[i := v][5]) > 0;
    } else {
      OneByteDetected(p, i, v);
    }
  }

  /** Exactly which single changes go unnoticed: a length byte that got smaller, when the byte at
      the new end happens to be the checksum of what comes before it. */
  lemma OneByteAccepted(p: seq<Byte>, i: nat, v: Byte)
    requires Parse(p).Good? && |p| == OVERHEAD + Parse(p).value.len && i < |p| && v != p[i]
    ensures Parse(p[i := v]).Good? <==>
              && (i == 4 || i == 5) && v < p[i]
              && var q := p[i := v];
                 var end := HEADER_SIZE + Join(q[4], q[5]);
                 end < |q| && q[end] == Crc(q, 1, end)
  {
    hide Crc;
    if i == 4 || i == 5 {
      LengthMoves(p, i, v);
    } else {
      OneByteDetected(p, i, v);
    }
  }

  lemma LengthMoves(p: seq<Byte>, i: nat, v: Byte)
    requires |p| >= OVERHEAD && (i == 4 || i == 5) && v != p[i]
    ensures v < p[i] <==> Join(p[i := v][4], p[i := v][5]) < Join(p[4], p[5])
    ensures v > p[i] <==> Join(p[i := v][4], p[i := v][5]) > Join(p[4], p[5])
  {
  }

  /** A changed length byte can go unnoticed: with length 1 turned into 0 the payload byte is
      taken for the checksum. */
  lemma LengthByteMissed()
    ensures var p := Packet(WRITE_DATA, 0, 1, [0x01]);
            Parse(p).Good? && Parse(p[5 := 0]) == Good(Message(WRITE_DATA, 0, 0, []))
  {
    hide Crc, Parse;
    var p := Packet(WRITE_DATA, 0, 1, [0x01]);
    RoundTrip(WRITE_DATA, 0, [0x01]);
    assert p == [0xAA, 0x01, 0, 0, 0, 0x01, 0x01] + [p[7]];
    var q := p[5 := 0];
    CrcOfOne(q);
    ParseBare(q);
  }

  lemma ParseBare(q: seq<Byte>)
    requires |q| >= OVERHEAD && q[0] == SOF && q[4] == 0 && q[5] == 0 && q[6] == Crc(q, 1, 6)
    ensures Parse(q) == Good(Message(q[1], Join(q[2], q[3]), 0, []))
  {
    hide Crc;
    assert q[HEADER_SIZE..HEADER_SIZE + 0] == [];
  }

  lemma CrcOfOne(q: seq<Byte>)
    requires |q| >= OVERHEAD && q[2] == q[3] == q[4] == q[5] == 0
    ensures Crc(q, 1, 6) == q[1]
  {
    hide XorByte;
    XorZero(q[1]);
    assert Crc(q, 1, 2) == q[1];
    assert Crc(q, 1, 4) == q[1];
  }

  lemma {:induction false} BitXorZero(a: nat, width: nat)
    requires a < Pow2(width)
    ensures BitXor(a, 0, width) == a && BitXor(0, a, width) == a
  {
    if width > 0 { BitXorZero(a / 2, width - 1); }
  }

  lemma XorZero(a: Byte)
    ensures XorByte(a, 0) == a && XorByte(0, a) == a
  {
    EightBits();
    BitXorZero(a, 8);
  }
}
