/** The serial link to the device: what the device does with a packet, what may happen to a
    request and to its reply, and the host's bounded retry. Exchanges are synchronous; a reply
    belongs to the request just sent. */
module HostLink {
  import opened Words
  import opened Packets

  const RETRIES := 3

  /** The device's byte-addressed data and instruction memories. */
  datatype Banks = Banks(data: seq<Byte>, program: seq<Byte>)

  function Bank(b: Banks, cmd: Byte): seq<Byte> {
    if cmd == WRITE_PROGRAM then b.program else b.data
  }

  function WithBank(b: Banks, cmd: Byte, memory: seq<Byte>): Banks {
    if cmd == WRITE_PROGRAM then b.(program := memory) else b.(data := memory)
  }

  predicate Writes(cmd: Byte) {
    cmd == WRITE_DATA || cmd == WRITE_PROGRAM
  }

  function Fetch(memory: seq<Byte>, addr: nat, len: nat): (r: seq<Byte>)
    ensures |r| == len
  {
    seq(len, i requires 0 <= i < len => if addr + i < |memory| then memory[addr + i] else 0)
  }

  /** What may happen to a reply: it arrives, it is lost, or one byte of it is changed. */
  datatype Channel = Clean | Silent | Flip(at: nat, value: Byte)

  /** What may happen to an attempt: the host cannot send; the request is lost; it is carried out
      and answered; or it arrives damaged, leaves some bytes in the range it addresses, and is
      refused. */
  datatype Attempt = SendFails | Lost | Delivered(back: Channel) | Refused(left: seq<Byte>, back: Channel)

  function Through(p: seq<Byte>, back: Channel): Option<seq<Byte>> {
    match back
    case Clean => Some(p)
    case Silent => None
    case Flip(i, v) => Some(if i < |p| then p[i := v] else p)
  }

  function Acknowledge(addr: Half): seq<Byte> { Packet(ACK, addr, 0, []) }
  function Refuse(addr: Half): seq<Byte> { Packet(NAK, addr, 0, []) }

  /** The device's answer to an undamaged message. */
  function Carry(b: Banks, m: Message): (Banks, seq<Byte>) {
    if Writes(m.cmd) then (WithBank(b, m.cmd, Overwrite(Bank(b, m.cmd), m.addr, m.payload)), Acknowledge(m.addr))
    else if m.cmd == READ_DATA && m.len <= MAX_PAYLOAD then
      (b, Packet(READ_DATA, m.addr, m.len, Fetch(b.data, m.addr, m.len)))
    else (b, Refuse(m.addr))
  }

  datatype Answer = Answer(banks: Banks, sent: bool, reply: Option<seq<Byte>>)

  function Transmit(a: Attempt, b: Banks, m: Message): Answer {
    match a
    case SendFails => Answer(b, false, None)
    case Lost => Answer(b, true, None)
    case Delivered(back) => Answer(Carry(b, m).0, true, Through(Carry(b, m).1, back))
    case Refused(left, back) =>
      var spoiled := if Writes(m.cmd) && |left| == |m.payload|
                     then WithBank(b, m.cmd, Overwrite(Bank(b, m.cmd), m.addr, left)) else b;
      Answer(spoiled, true, Through(Refuse(m.addr), back))
  }

  // ----- what the host accepts -----

  /** The acknowledgement test of the host. */
  function AckError(reply: Option<seq<Byte>>, addr: Half): (e: Option<Error>)
  {
    if reply.None? || |reply.value| < OVERHEAD then Some(Timeout)
    else
      match Parse(reply.value[..OVERHEAD])
      case Err(e) => Some(e)
      case Good(m) => if m.cmd != ACK || m.addr != addr || m.len != 0 then Some(Fpga) else None
  }

  /** The acknowledgement came back undamaged. */
  predicate Accepted(a: Attempt, addr: Half) {
    a.Delivered? && Through(Acknowledge(addr), a.back) == Some(Acknowledge(addr))
  }

  /** The host takes a write for done exactly when the device carried it out and the
      acknowledgement came back undamaged; a refusal is never mistaken for one. */
  lemma AckIffAccepted(a: Attempt, b: Banks, m: Message)
    requires Writes(m.cmd)
    ensures AckError(Transmit(a, b, m).reply, m.addr) == None <==> Accepted(a, m.addr)
  {
    hide Packet, Parse, Overwrite;
    RoundTrip(ACK, m.addr, []);
    RoundTrip(NAK, m.addr, []);
    var r := Transmit(a, b, m).reply;
    if r.Some? {
      var p := if a.Delivered? then Acknowledge(m.addr) else Refuse(m.addr);
      if a.back.Flip? && a.back.at < OVERHEAD && a.back.value != p[a.back.at] {
        BareByteDetected(p, a.back.at, a.back.value);
      } else {
        assert r.value == p;
      }
      assert r.value[..OVERHEAD] == r.value;
    }
  }

  // ----- retries -----

  /** The outcome of up to n attempts starting at attempt number `clock`. */
  function Tries(plan: nat -> Attempt, clock: nat, addr: Half, n: nat): (r: (bool, nat))
    ensures clock <= r.1 <= clock + n
    decreases n
  {
    if n == 0 then (false, clock)
    else if Accepted(plan(clock), addr) then (true, clock + 1)
    else Tries(plan, clock + 1, addr, n - 1)
  }

  /** One of the three attempts from a clock reading on is accepted, or the clock has moved on by three. */
  lemma ThreeAttempts(plan: nat -> Attempt, clock: nat, addr: Half)
    ensures var (ok, next) := Tries(plan, clock, addr, RETRIES);
      && (ok <==> exists c :: clock <= c < clock + 3 && Accepted(plan(c), addr))
      && clock < next <= clock + 3 && (ok ==> Accepted(plan(next - 1), addr)) && (!ok ==> next == clock + 3)
      && forall c :: clock <= c < next - 1 ==> !Accepted(plan(c), addr)
  {
    hide Accepted;
    assert Tries(plan, clock, addr, 3) == (if Accepted(plan(clock), addr) then (true, clock + 1)
                                           else Tries(plan, clock + 1, addr, 2));
    assert Tries(plan, clock + 1, addr, 2) == (if Accepted(plan(clock + 1), addr) then (true, clock + 2)
                                               else Tries(plan, clock + 2, addr, 1));
    assert Tries(plan, clock + 2, addr, 1) == (if Accepted(plan(clock + 2), addr) then (true, clock + 3)
                                               else Tries(plan, clock + 3, addr, 0));
  }

  /** The memories agree outside a range of one of them. */
  predicate SameOutside(b: Banks, c: Banks, cmd: Byte, addr: nat, n: nat) {
    && c == WithBank(b, cmd, Bank(c, cmd)) && |Bank(c, cmd)| == |Bank(b, cmd)|
    && forall k :: 0 <= k < |Bank(b, cmd)| && !(addr <= k < addr + n) ==> Bank(c, cmd)[k] == Bank(b, cmd)[k]
  }

  /** Whatever happens to a write, only the addressed bytes can change; if it is accepted they are
      the payload. */
  lemma AttemptEffect(a: Attempt, b: Banks, m: Message)
    requires Writes(m.cmd)
    ensures SameOutside(b, Transmit(a, b, m).banks, m.cmd, m.addr, |m.payload|)
    ensures Accepted(a, m.addr) && m.addr + |m.payload| <= |Bank(b, m.cmd)| ==>
              Bank(Transmit(a, b, m).banks, m.cmd)[m.addr..m.addr + |m.payload|] == m.payload
  {
    hide Overwrite, Packet;
    OverwriteHere(Bank(b, m.cmd), m.addr, m.payload);
    if a.Refused? && |a.left| == |m.payload| {
      OverwriteHere(Bank(b, m.cmd), m.addr, a.left);
    }
  }

  lemma SameOutsideTrans(b: Banks, c: Banks, d: Banks, cmd: Byte, addr: nat, n: nat)
    requires SameOutside(b, c, cmd, addr, n) && SameOutside(c, d, cmd, addr, n)
    ensures SameOutside(b, d, cmd, addr, n)
  {
  }

  class Link {
    /** What happens at each attempt; the host knows nothing about it. */
    const plan: nat -> Attempt
    var clock: nat
    var banks: Banks

    constructor (plan: nat -> Attempt, banks: Banks)
      ensures this.plan == plan && this.banks == banks && clock == 0
    {
      this.plan, this.banks, clock := plan, banks, 0;
    }

    /** Sends one packet and waits for the reply to it. */
    method Exchange(packet: seq<Byte>) returns (sent: bool, reply: Option<seq<Byte>>)
      requires Parse(packet).Good?
      modifies this
      ensures clock == old(clock) + 1
      ensures Answer(banks, sent, reply) == Transmit(plan(old(clock)), old(banks), Parse(packet).value)
    {
      var answer := Transmit(plan(clock), banks, Parse(packet).value);
      clock := clock + 1;
      banks := answer.banks;
      return answer.sent, answer.reply;
    }

    /** The retry loop around a write packet. */
    method SendWithRetries(packet: seq<Byte>) returns (error: Option<Error>)
      requires Parse(packet).Good? && Writes(Parse(packet).value.cmd)
      modifies this
      ensures var m := Parse(packet).value;
              && (error == None, clock) == Tries(plan, old(clock), m.addr, RETRIES)
              && SameOutside(old(banks), banks, m.cmd, m.addr, |m.payload|)
              && (error == None && m.addr + |m.payload| <= |Bank(banks, m.cmd)| ==>
                    Bank(banks, m.cmd)[m.addr..m.addr + |m.payload|] == m.payload)
      ensures |banks.data| == |old(banks.data)| && |banks.program| == |old(banks.program)|
      ensures error != Some(BadArg)
      ensures error == None <==>
                exists c :: old(clock) <= c < old(clock) + 3 && Accepted(plan(c), Parse(packet).value.addr)
      ensures error.Some? ==> clock == old(clock) + 3
      ensures error.Some? ==> var last, m := plan(old(clock) + 2), Parse(packet).value;
                error == if last.SendFails? then Some(Io) else AckError(Transmit(last, old(banks), m).reply, m.addr)
    {
      hide Parse, Transmit, Accepted;
      ghost var m := Parse(packet).value;
      ThreeAttempts(plan, clock, m.addr);
      error := Some(Fpga);
      for attempt := 0 to RETRIES
        invariant SameOutside(old(banks), banks, m.cmd, m.addr, |m.payload|)
        invariant Tries(plan, clock, m.addr, RETRIES - attempt) == Tries(plan, old(clock), m.addr, RETRIES)
        invariant error.Some? && error != Some(BadArg) && clock == old(clock) + attempt
        invariant attempt > 0 ==>
                    error == if plan(clock - 1).SendFails? then Some(Io)
                             else AckError(Transmit(plan(clock - 1), old(banks), m).reply, m.addr)
      {
        ghost var before, now := banks, clock;
        var sent, reply := Exchange(packet);
        AttemptEffect(plan(now), before, m);
        SameOutsideTrans(old(banks), before, banks, m.cmd, m.addr, |m.payload|);
        AckIffAccepted(plan(now), before, m);
        SameReply(plan(now), before, old(banks), m);
        if !sent {
          error := Some(Io);
          NotSent(plan(now), before, m);
          continue;
        }
        error := AckError(reply, AddressOf(packet));
        if error == None {
          return;
        }
        AckErrorKinds(reply, AddressOf(packet));
      }
    }
  }

  /** The address the host put into a packet. */
  function AddressOf(packet: seq<Byte>): (a: Half)
    requires Parse(packet).Good?
    ensures a == Parse(packet).value.addr
  {
    Join(packet[2], packet[3])
  }

  /** What a write hears does not depend on the memories. */
  lemma SameReply(a: Attempt, b: Banks, c: Banks, m: Message)
    requires Writes(m.cmd)
    ensures Transmit(a, b, m).reply == Transmit(a, c, m).reply && (Transmit(a, b, m).sent <==> !a.SendFails?)
  {
    hide Overwrite;
  }

  lemma NotSent(a: Attempt, b: Banks, m: Message)
    requires !Transmit(a, b, m).sent
    ensures !Accepted(a, m.addr)
  {
  }

  lemma AckErrorKinds(reply: Option<seq<Byte>>, addr: Half)
    ensures AckError(reply, addr) != Some(BadArg)
  {
  }
}
