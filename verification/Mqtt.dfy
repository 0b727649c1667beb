/** The client engine of examples/mqtt/src/mqtt.c over a byte stream that arrives in any
    pieces, with any pauses. */
module Mqtt {
  import opened Bytes
  import opened MqttWire
  import opened MqttConnect

  const ACK_TIMEOUT_MS := 5000
  const FIXED_HDR_MAX := 5

  /** How one recv() ends: some bytes, SO_RCVTIMEO, or a connection that is gone. */
  datatype RecvEvent = Chunk(n: nat) | Quiet | Broken

  /** How one send() ends. */
  datatype SendEvent = Took(n: nat) | Busy | Refused

  datatype Rd = RdOk | RdTimeout | RdError

  /** One read_packet as its caller sees it. */
  datatype Outcome = Got(p: Packet) | Nothing | Lost

  predicate Skips(cap: nat, s: seq<byte>, s': seq<byte>) {
    Parse(s).Some? && Parse(s).value.1 == s' && |Parse(s).value.0.body| > cap
  }

  /** What read_packet promises about the stream: it stands at a packet boundary whenever the
      session goes on. A packet too big for the buffer is consumed whole and not shown. */
  predicate ReadStep(cap: nat, s: seq<byte>, o: Outcome, s': seq<byte>) {
    match o
    case Got(p) => |p.body| <= cap && Parse(s) == Some((p, s'))
    case Nothing => s' == s || Skips(cap, s, s')
    case Lost => true
  }

  /** Unsigned subtraction of two readings of the millisecond clock. */
  function Elapsed(now: uint32, start: uint32): (e: uint32)
    ensures now == start ==> e == 0
  {
    (now - start) % TWO_32
  }

  /** It is the time that has passed, also when the clock wrapped in between. */
  lemma ElapsedIsTime(start: uint32, ms: uint32)
    ensures Elapsed((start + ms) % TWO_32, start) == ms
  {
  }

  /** The pieces send_subscribe puts behind its header make the packet. */
  lemma SubscribeIs(head: seq<byte>, rem: nat, pktId: uint16, topic: seq<byte>)
    requires head == [PKT_SUBSCRIBE * 16 + 2] + EncLen(rem) && rem == 2 + 2 + |topic| + 1
    ensures head + Be16(pktId) + EncStr(topic) + [0] == Encode(SubscribePacket(pktId, topic))
  {
  }

  /** The packet that begins at s, once its header byte and length have been read. */
  lemma PacketRead(s: seq<byte>, h: byte, s1: seq<byte>, rem: nat, s2: seq<byte>)
    requires s != [] && s[0] == h && s1 == s[1..]
    requires DecLen(s1, MAX_LEN_BYTES).Len? && DecLen(s1, MAX_LEN_BYTES).value == rem
    requires s2 == s1[DecLen(s1, MAX_LEN_BYTES).used..]
    ensures Parse(s) == if rem <= |s2| then Some((Packet(h / 16, h % 16, s2[..rem]), s2[rem..])) else None
  {
    var used := DecLen(s1, MAX_LEN_BYTES).used;
    assert s2 == s[1 + used..];
    if rem <= |s2| {
      assert s2[..rem] == s[1 + used..1 + used + rem] && s2[rem..] == s[1 + used + rem..];
    }
  }

  lemma FiveParts(a: seq<byte>, b: seq<byte>, c: seq<byte>, d: seq<byte>, e: seq<byte>)
    ensures a + b + c + d + e == a + (b + (c + (d + e)))
  {
  }

  function MessageOf(p: Packet): seq<Message> {
    if p.kind != PKT_PUBLISH then []
    else match ReadPublish(p.flags, p.body)
      case Some(m) => [m]
      case None => []
  }

  /** The messages in them. */
  function Delivered(cap: nat, ps: seq<Packet>): seq<Message> {
    if ps == [] then []
    else (if |ps[0].body| <= cap then MessageOf(ps[0]) else []) + Delivered(cap, ps[1..])
  }

  /** wait_packet has gone past the first k packets without meeting `want`. */
  predicate Waited(cap: nat, want: nibble, sent: seq<Packet>, k: nat, s: seq<byte>,
                   shown0: seq<Message>, shown: seq<Message>) {
    && k <= |sent| && s == EncodeAll(sent[k..])
    && (forall i :: 0 <= i < k && |sent[i].body| <= cap ==> sent[i].kind != want)
    && shown == shown0 + Delivered(cap, sent[..k])
  }

  /** Packet k is the one asked for, and the next to be read is packet k + 1. */
  predicate Found(cap: nat, want: nibble, sent: seq<Packet>, k: nat, body: seq<byte>, s: seq<byte>) {
    && k < |sent| && sent[k].kind == want && sent[k].body == body && |body| <= cap
    && s == EncodeAll(sent[k + 1..])
  }

  /** A packet that is waited for and fits the buffer is among those sent. */
  predicate Comes(cap: nat, want: nibble, sent: seq<Packet>) {
    exists i :: 0 <= i < |sent| && sent[i].kind == want && |sent[i].body| <= cap
  }

  predicate Sendable(ps: seq<Packet>) {
    forall i :: 0 <= i < |ps| ==> |ps[i].body| < MAX_BODY
  }

  /** As long as it has not come, there is a whole packet at the front of the stream. */
  lemma NextParses(cap: nat, want: nibble, sent: seq<Packet>, k: nat)
    requires k <= |sent| && Sendable(sent)
    requires forall i :: 0 <= i < k && |sent[i].body| <= cap ==> sent[i].kind != want
    ensures Comes(cap, want, sent) ==> Parse(EncodeAll(sent[k..])).Some?
    ensures k < |sent| ==> Parse(EncodeAll(sent[k..])).Some?
  {
    if k < |sent| {
      var left := sent[k..];
      ParseEncodeIff(left[0], EncodeAll(left[1..]));
    }
  }

  lemma {:induction false} DeliveredAppend(cap: nat, ps: seq<Packet>, p: Packet)
    ensures Delivered(cap, ps + [p]) == Delivered(cap, ps) + if |p.body| <= cap then MessageOf(p) else []
  {
    if ps != [] {
      DeliveredAppend(cap, ps[1..], p);
      assert (ps + [p])[1..] == ps[1..] + [p];
    }
  }

  /** One read_packet at the start of a sequence of packets takes the first or none. */
  lemma OneRead(cap: nat, ps: seq<Packet>, o: Outcome, s': seq<byte>) returns (moved: bool)
    requires ReadStep(cap, EncodeAll(ps), o, s') && !o.Lost? && (ps != [] ==> |ps[0].body| < MAX_BODY)
    ensures moved ==> ps != [] && s' == EncodeAll(ps[1..])
                      && o == if |ps[0].body| <= cap then Got(ps[0]) else Nothing
    ensures !moved ==> s' == EncodeAll(ps) && o == Nothing
  {
    if ps != [] {
      ParseEncodeIff(ps[0], EncodeAll(ps[1..]));
    }
    moved := s' != EncodeAll(ps) || o.Got?;
  }

  lemma WaitedStep(cap: nat, want: nibble, sent: seq<Packet>, k: nat, s: seq<byte>, o: Outcome, s': seq<byte>,
                   shown0: seq<Message>, shown: seq<Message>) returns (k': nat)
    requires Waited(cap, want, sent, k, s, shown0, shown) && Sendable(sent)
    requires ReadStep(cap, s, o, s') && !o.Lost?
    ensures o.Got? && o.p.kind == want ==> k' == k && Found(cap, want, sent, k, o.p.body, s')
    ensures !(o.Got? && o.p.kind == want) ==>
              Waited(cap, want, sent, k', s', shown0, shown + if o.Got? then MessageOf(o.p) else [])
  {
    var moved := OneRead(cap, sent[k..], o, s');
    k' := k;
    if moved {
      assert sent[k..][0] == sent[k] && sent[k..][1..] == sent[k + 1..];
      if !(o.Got? && o.p.kind == want) {
        DeliveredAppend(cap, sent[..k], sent[k]);
        assert sent[..k + 1] == sent[..k] + [sent[k]];
        k' := k + 1;
      }
    }
  }

  function Acks(flags: nibble, body: seq<byte>): seq<byte> {
    match ReadPublish(flags, body)
    case Some(m) => if m.qos == 1 then Encode(PubackPacket(m.pktId)) else []
    case None => []
  }

  /** A publication of a broker is acknowledged exactly when it came with QoS 1, by a PUBACK with
      its identifier. */
  lemma AckAnswers(dup: bool, qos: nat, retain: bool, topic: seq<byte>, pktId: uint16, payload: seq<byte>)
    requires qos <= 2 && |topic| < TWO_16
    ensures var p := BrokerPublish(dup, qos, retain, topic, pktId, payload);
            && MessageOf(p) == [Message(topic, payload, qos, if qos > 0 then pktId else 0)]
            && Acks(p.flags, p.body) == if qos == 1 then [0x40, 2, pktId / 0x100, pktId % 0x100] else []
  {
    BrokerPublishReadIff(dup, qos, retain, topic, pktId, payload);
    PubackBytes(pktId);
  }

  /** v * 128^i. */
  function Scale(v: nat, i: nat): nat {
    if i == 0 then v else 128 * Scale(v, i - 1)
  }

  lemma {:induction false} ScaleIsTimes(v: nat, i: nat)
    ensures Scale(v, i) == v * Pow128(i)
  {
    if i > 0 {
      ScaleIsTimes(v, i - 1);
      assert 128 * (v * Pow128(i - 1)) == v * (128 * Pow128(i - 1));
    }
  }

  function Shifted(r: LenRead, i: nat, value: nat): LenRead {
    match r
    case Len(v, used) => Len(value + Scale(v, i), i + used)
    case bad => bad
  }

  /** After i digits worth `value`, the whole length is what k more bytes of s make of it. */
  predicate Continues(whole: LenRead, s: seq<byte>, k: nat, i: nat, value: nat) {
    whole == Shifted(DecLen(s, k), i, value)
  }

  lemma {:induction false} ScaleDigit(digit: nat, v: nat, i: nat)
    ensures Scale(digit + 128 * v, i) == Scale(digit, i) + Scale(v, i + 1)
  {
    if i > 0 {
      ScaleDigit(digit, v, i - 1);
    }
  }

  lemma ContinuesStep(whole: LenRead, s: seq<byte>, k: nat, i: nat, value: nat)
    requires Continues(whole, s, k, i, value) && s != [] && k > 0
    ensures var digit: nat := s[0] % 128;
            if s[0] < 128 then whole == Len(value + Scale(digit, i), i + 1)
            else Continues(whole, s[1..], k - 1, i + 1, value + Scale(digit, i))
  {
    var digit: nat, more := s[0] % 128, DecLen(s[1..], k - 1);
    if s[0] < 128 {
      assert DecLen(s, k) == Len(digit, 1);
    } else if more.Len? {
      assert DecLen(s, k) == Len(digit + 128 * more.value, more.used + 1);
      ScaleDigit(digit, more.value, i);
    }
  }

  class Client {
    // The connection: bytes the broker sends and this client has not read, how the coming
    // recv() and send() calls end, what this client has sent, and the clock.
    var stream: seq<byte>
    var recvs: seq<RecvEvent>
    var sends: seq<SendEvent>
    var wire: seq<byte>
    const clock: nat -> uint32
    var readings: nat

    var lastTxMs: uint32
    var lastRxMs: uint32
    var lastRd: Rd            // how the last recv() ended
    const txbuf: array<byte>
    const rxbuf: array<byte>
    const cap: nat
    var shown: seq<Message>   // what handle_publish reported

    ghost predicate Valid()
      reads this
    {
      txbuf != rxbuf && txbuf.Length == cap && rxbuf.Length == cap && 0 < cap < MAX_BODY
    }

    constructor (stream: seq<byte>, recvs: seq<RecvEvent>, sends: seq<SendEvent>, clock: nat -> uint32, cap: nat)
      requires 0 < cap < MAX_BODY
      ensures Valid() && fresh(txbuf) && fresh(rxbuf)
      ensures this.stream == stream && this.recvs == recvs && this.cap == cap && wire == [] && shown == []
    {
      this.stream, this.recvs, this.sends, this.clock, this.cap := stream, recvs, sends, clock, cap;
      wire, shown, readings, lastTxMs, lastRxMs, lastRd := [], [], 0, 0, 0, RdOk;
      txbuf := new byte[cap](i => 0);
      rxbuf := new byte[cap](i => 0);
    }

    /** Every coming recv() delivers, and there are enough of them for what the broker sent. */
    ghost predicate Steady()
      reads this
    {
      |recvs| >= |stream| && forall i :: 0 <= i < |recvs| ==> recvs[i].Chunk?
    }

    /** Every coming send() takes something, for a message of n bytes. */
    ghost predicate Accepting(n: nat)
      reads this
    {
      |sends| >= n && forall i :: 0 <= i < |sends| ==> sends[i].Took? && sends[i].n > 0
    }

    /** At the last reading of the clock, timeoutMs had passed since reading number `from`. */
    predicate TimedOut(from: nat, timeoutMs: uint32)
      reads this
    {
      readings > 0 && Elapsed(clock(readings - 1), clock(from)) >= timeoutMs
    }

    method NowMs() returns (t: uint32)
      modifies this`readings
      ensures t == clock(old(readings)) && readings == old(readings) + 1
    {
      t := clock(readings);
      readings := readings + 1;
    }

    // ---------------------------------------------------------------- receiving

    /** recv(): between 1 and |buf| bytes when it delivers anything. */
    method RecvSome(buf: array<byte>, off: nat, len: nat) returns (r: Rd, n: nat, ghost d: seq<byte>)
      requires Valid() && off + len <= buf.Length && len > 0 && buf != txbuf
      modifies this`stream, this`recvs, this`readings, this`lastRxMs, this`lastRd, buf
      ensures recvs == (if old(recvs) == [] then [] else old(recvs)[1..])
      ensures old(recvs) == [] ==> r == RdError
      ensures n == |d| <= len && old(stream) == d + stream && (r == RdOk <==> n > 0)
      ensures lastRd == r
      ensures buf[..off + n] == old(buf[..off]) + d
      ensures old(Steady()) && old(stream) != [] ==> r == RdOk && Steady()
    {
      n, d := 0, [];
      if recvs == [] {
        r, lastRd := RdError, RdError;
        return;
      }
      var e := recvs[0];
      recvs := recvs[1..];
      match e {
        case Broken =>
          r := RdError;
        case Quiet =>
          r := RdTimeout;
        case Chunk(k) =>
          if stream == [] {
            r, lastRd := RdTimeout, RdTimeout;
            return;
          }
          n := if k == 0 then 1 else if k > len then len else k;
          n := if n > |stream| then |stream| else n;
          d := stream[..n];
          AppendTo(buf, off, stream[..n]);
          stream := stream[n..];
          lastRxMs := NowMs();
          r := RdOk;
      }
      lastRd := r;
    }

    /** Reads exactly `len` bytes, or none but a prefix of them and the session is over.
        With timeout 0 a quiet stream is reported at once. */
    method ReadExact(buf: array<byte>, len: nat, timeoutMs: uint32) returns (r: Rd)
      requires Valid() && len <= buf.Length && buf != txbuf
      modifies this`stream, this`recvs, this`readings, this`lastRxMs, this`lastRd, buf
      ensures |recvs| <= |old(recvs)| && (len > 0 ==> old(recvs) == [] || |recvs| < |old(recvs)|)
      ensures old(recvs) == [] && len > 0 ==> r == RdError
      ensures r == RdOk ==> len <= |old(stream)| && buf[..len] == old(stream)[..len] && stream == old(stream)[len..]
      ensures r == RdTimeout && len == 1 ==> stream == old(stream)
      ensures r != RdOk ==> lastRd == r
      ensures r == RdTimeout ==> TimedOut(old(readings), timeoutMs)
      ensures old(Steady()) && len <= |old(stream)| ==> r == RdOk && Steady()
    {
      var off: nat := 0;
      ghost var taken: seq<byte> := [];
      var start := NowMs();
      while off < len
        invariant off == |taken| <= len && old(stream) == taken + stream && buf[..off] == taken
        invariant |recvs| <= |old(recvs)| && (off > 0 ==> |recvs| < |old(recvs)|)
        invariant old(Steady()) && len <= |old(stream)| ==> Steady()
        decreases |recvs|
      {
        var e, n, d := RecvSome(buf, off, len - off);
        Associative(taken, d, stream);
        taken := taken + d;
        if e == RdError {
          return RdError;
        }
        if e == RdTimeout {
          var now := NowMs();
          if Elapsed(now, start) >= timeoutMs {
            return RdTimeout;
          }
          continue;
        }
        off := off + n;
      }
      return RdOk;
    }

    method DropBytes(count: nat) returns (r: Rd)
      requires Valid()
      modifies this`stream, this`recvs, this`readings, this`lastRxMs, this`lastRd, rxbuf
      ensures |recvs| <= |old(recvs)|
      ensures r == RdOk ==> count <= |old(stream)| && stream == old(stream)[count..]
      ensures r != RdOk ==> lastRd == r
      ensures old(Steady()) && count <= |old(stream)| ==> r == RdOk && Steady()
    {
      var left: nat := count;
      while left > 0
        invariant left <= count && count - left <= |old(stream)|
        invariant stream == old(stream)[count - left..]
        invariant old(Steady()) && count <= |old(stream)| ==> Steady()
        invariant |recvs| <= |old(recvs)|
      {
        var chunk := if left < cap then left else cap;
        r := ReadExact(rxbuf, chunk, ACK_TIMEOUT_MS);
        if r != RdOk {
          return;
        }
        left := left - chunk;
      }
      return RdOk;
    }

    /** Reads the base-128 length that DecLen describes; -1 for a malformed or cut one. */
    method ReadRemainingLen() returns (ok: bool, value: nat)
      requires Valid()
      modifies this`stream, this`recvs, this`readings, this`lastRxMs, this`lastRd
      ensures |recvs| <= |old(recvs)|
      ensures ok ==> DecLen(old(stream), MAX_LEN_BYTES).Len?
                     && value == DecLen(old(stream), MAX_LEN_BYTES).value
                     && stream == old(stream)[DecLen(old(stream), MAX_LEN_BYTES).used..]
      ensures !ok ==> lastRd != RdOk || DecLen(old(stream), MAX_LEN_BYTES) == Malformed
      ensures old(Steady()) && DecLen(old(stream), MAX_LEN_BYTES).Len? ==> ok && Steady()
    {
      ok, value := false, 0;
      var b := new byte[1](_ => 0);
      var mult: nat := 1;
      for i := 0 to MAX_LEN_BYTES
        invariant |recvs| <= |old(recvs)| && i <= |old(stream)| && stream == old(stream)[i..]
        invariant mult == Pow128(i)
        invariant old(Steady()) ==> Steady()
        invariant Continues(DecLen(old(stream), MAX_LEN_BYTES), stream, MAX_LEN_BYTES - i, i, value)
      {
        ghost var before := stream;
        var r := ReadExact(b, 1, ACK_TIMEOUT_MS);
        if r != RdOk {
          return;
        }
        assert b[0] == b[..1][0] == before[0];
        var digit: nat := b[0] % 128;
        ContinuesStep(DecLen(old(stream), MAX_LEN_BYTES), before, MAX_LEN_BYTES - i, i, value);
        ScaleIsTimes(digit, i);
        value := value + digit * mult;
        if b[0] < 128 {
          return true, value;
        }
        mult := mult * 128;
      }
    }

    /** The body of a packet: into rxbuf when it fits, else thrown away. */
    method TakeBody(rem: nat) returns (r: int)
      requires Valid()
      modifies this`stream, this`recvs, this`readings, this`lastRxMs, this`lastRd, rxbuf
      ensures |recvs| <= |old(recvs)| && (r == -1 || r == if rem <= cap then 1 else 0)
      ensures r >= 0 ==> rem <= |old(stream)| && stream == old(stream)[rem..]
      ensures r == 1 ==> rxbuf[..rem] == old(stream)[..rem]
      ensures r == -1 ==> lastRd != RdOk
      ensures old(Steady()) && rem <= |old(stream)| ==> r >= 0 && Steady()
    {
      if rem > cap {
        var dropped := DropBytes(rem);
        return if dropped == RdOk then 0 else -1;
      }
      if rem > 0 {
        var rd := ReadExact(rxbuf, rem, ACK_TIMEOUT_MS);
        if rd != RdOk {
          return -1;
        }
      }
      return 1;
    }

    /** 1: a packet is in rxbuf; 0: nothing to report; -1: the session is over. */
    method ReadPacket() returns (r: int, kind: nibble, flags: nibble, bodyLen: nat)
      requires Valid()
      modifies this`stream, this`recvs, this`readings, this`lastRxMs, this`lastRd, rxbuf
      ensures r == -1 || ((r == 0 || r == 1) && |recvs| < |old(recvs)|)
      ensures r == 1 ==> bodyLen <= cap && ReadStep(cap, old(stream), Got(Packet(kind, flags, rxbuf[..bodyLen])), stream)
      ensures r == 0 ==> ReadStep(cap, old(stream), Nothing, stream)
      ensures r == -1 ==> lastRd != RdOk || (old(stream) != [] && DecLen(old(stream)[1..], MAX_LEN_BYTES) == Malformed)
      ensures old(Steady()) && Parse(old(stream)).Some? ==>
                Steady() && r == if |Parse(old(stream)).value.0.body| <= cap then 1 else 0
    {
      kind, flags, bodyLen := 0, 0, 0;
      var hdr := new byte[1](_ => 0);
      var rd := ReadExact(hdr, 1, 0);
      if rd == RdTimeout {
        return 0, 0, 0, 0;
      }
      if rd == RdError {
        return -1, 0, 0, 0;
      }
      assert hdr[0] == hdr[..1][0] == old(stream)[0];
      ghost var s1 := stream;
      var ok, rem := ReadRemainingLen();
      if !ok {
        return -1, 0, 0, 0;
      }
      kind, flags := hdr[0] / 16, hdr[0] % 16;
      PacketRead(old(stream), hdr[0], s1, rem, stream);
      r := TakeBody(rem);
      bodyLen := if r == 1 then rem else 0;
    }

    /** All of it, or a prefix and the session is over. */
    method SendAll(data: seq<byte>) returns (ok: bool)
      modifies this`sends, this`wire, this`lastTxMs, this`readings
      ensures ok ==> wire == old(wire) + data
      ensures old(wire) <= wire <= old(wire) + data
      ensures old(Accepting(|data|)) ==> ok
    {
      var off: nat := 0;
      while off < |data|
        invariant off <= |data| && wire == old(wire) + data[..off]
        invariant old(Accepting(|data|)) ==> Accepting(|data| - off)
        decreases |data| - off, |sends|
      {
        var e := if sends == [] then Refused else sends[0];
        sends := if sends == [] then [] else sends[1..];
        match e {
          case Took(k) =>
            var n := if k > |data| - off then |data| - off else k;
            if n == 0 {
              return false;
            }
            wire := wire + data[off..off + n];
            assert data[..off + n] == data[..off] + data[off..off + n];
            off := off + n;
          case Busy =>
          case Refused =>
            return false;
        }
      }
      lastTxMs := NowMs();
      return true;
    }

    /** A message is shown, and acknowledged when it came with QoS 1. */
    method HandlePublish(flags: nibble, len: nat)
      requires Valid() && len <= cap
      modifies this`sends, this`wire, this`lastTxMs, this`readings, this`shown
      ensures shown == old(shown) + MessageOf(Packet(PKT_PUBLISH, flags, rxbuf[..len]))
      ensures old(wire) <= wire <= old(wire) + Acks(flags, rxbuf[..len])
      ensures old(Accepting(4)) ==> wire == old(wire) + Acks(flags, rxbuf[..len])
    {
      var qos := flags / 2 % 4;
      var p := rxbuf[..len];
      if len < 2 {
        return;
      }
      var topicLen: nat := U16(p[0], p[1]);
      var off: nat := 2 + topicLen;
      if off > len {
        return;
      }
      var pktId: uint16 := 0;
      if qos > 0 {
        if off + 2 > len {
          return;
        }
        pktId := U16(p[off], p[off + 1]);
        off := off + 2;
      }
      shown := shown + [Message(p[2..2 + topicLen], p[off..], qos, pktId)];
      if qos == 1 {
        var puback := [PKT_PUBACK * 16, 2] + Be16(pktId);
        assert puback == Encode(PubackPacket(pktId));
        var _ := SendAll(puback);
      }
    }

    /** One packet of the wait: the one asked for, or one that is shown when it is a message. */
    method WaitTurn(want: nibble, ghost sent: seq<Packet>, ghost k: nat, ghost shown0: seq<Message>, ghost sure: bool)
      returns (r: int, found: bool, bodyLen: nat, ghost k': nat)
      requires Valid() && Sendable(sent) && Waited(cap, want, sent, k, stream, shown0, shown)
      requires sure ==> Steady() && Comes(cap, want, sent)
      modifies this`stream, this`recvs, this`readings, this`lastRxMs, this`lastRd
      modifies this`sends, this`wire, this`lastTxMs, this`shown, rxbuf, txbuf
      ensures found ==> r == 1 && bodyLen <= cap && Found(cap, want, sent, k', rxbuf[..bodyLen], stream)
      ensures found ==> Waited(cap, want, sent, k', EncodeAll(sent[k'..]), shown0, shown)
      ensures r >= 0 ==> |recvs| < |old(recvs)| && (!found ==> Waited(cap, want, sent, k', stream, shown0, shown))
      ensures r < 0 ==> lastRd != RdOk
      ensures sure ==> r >= 0 && Steady()
    {
      ghost var s := stream;
      NextParses(cap, want, sent, k);
      var kind, flags;
      r, kind, flags, bodyLen := ReadPacket();
      found, k' := r == 1 && kind == want, k;
      if r < 0 {
        return;
      }
      ghost var o := if r == 1 then Got(Packet(kind, flags, rxbuf[..bodyLen])) else Nothing;
      ghost var before := shown;
      k' := WaitedStep(cap, want, sent, k, s, o, stream, shown0, shown);
      if r == 1 && !found && kind == PKT_PUBLISH {
        HandlePublish(flags, bodyLen);
      }
      assert !found ==> shown == before + if o.Got? then MessageOf(o.p) else [];
    }

    /** Reads packets until one of kind `want` shows up. `sent` is what the broker sends. */
    method WaitPacket(want: nibble, timeoutMs: uint32, ghost sent: seq<Packet>)
      returns (ok: bool, bodyLen: nat, ghost k: nat)
      requires Valid() && stream == EncodeAll(sent) && Sendable(sent)
      modifies this`stream, this`recvs, this`readings, this`lastRxMs, this`lastRd
      modifies this`sends, this`wire, this`lastTxMs, this`shown, rxbuf, txbuf
      ensures ok ==> bodyLen <= cap && Found(cap, want, sent, k, rxbuf[..bodyLen], stream)
      ensures ok ==> Waited(cap, want, sent, k, EncodeAll(sent[k..]), old(shown), shown)
      ensures !ok ==> lastRd != RdOk || TimedOut(old(readings), timeoutMs)
      ensures old(Steady()) && Comes(cap, want, sent) && !ok ==> TimedOut(old(readings), timeoutMs)
    {
      ok, bodyLen, k := false, 0, 0;
      var start := NowMs();
      var r := 0;
      ghost var sure := Steady() && Comes(cap, want, sent);
      while true
        invariant Waited(cap, want, sent, k, stream, old(shown), shown)
        invariant sure ==> Steady()
        decreases |recvs|
      {
        r, ok, bodyLen, k := WaitTurn(want, sent, k, old(shown), sure);
        if r < 0 || ok {
          break;
        }
        var now := NowMs();
        if Elapsed(now, start) >= timeoutMs {
          break;
        }
      }
    }

    // ---------------------------------------------------------------- sending

    /** enc_remaining_len at txbuf[off..]. */
    method EncRemainingLen(off: nat, len: nat) returns (n: nat)
      requires Valid() && off + |EncLen(len)| <= cap
      modifies txbuf
      ensures n == |EncLen(len)| && txbuf[..off + n] == old(txbuf[..off]) + EncLen(len)
    {
      n := 0;
      var left := len;
      while true
        invariant off + n + |EncLen(left)| <= cap
        invariant txbuf[..off + n] + EncLen(left) == old(txbuf[..off]) + EncLen(len)
        decreases left
      {
        var b := left % 128;
        var more := left / 128;
        txbuf[off + n] := if more > 0 then b + 128 else b;
        assert txbuf[..off + n + 1] == txbuf[..off + n] + [txbuf[off + n]];
        n := n + 1;
        if more == 0 {
          return;
        }
        assert txbuf[..off + n] + EncLen(more) == txbuf[..off + n - 1] + ([txbuf[off + n - 1]] + EncLen(more));
        left := more;
      }
    }

    /** The fixed header of a packet whose body takes `rem` bytes. */
    method PutHeader(kind: nibble, flags: nibble, rem: nat) returns (off: nat)
      requires Valid() && FIXED_HDR_MAX + rem <= cap
      modifies txbuf
      ensures off + rem <= cap && txbuf[..off] == [kind * 16 + flags] + EncLen(rem)
    {
      Pow128Of4();
      LenSize(rem, MAX_LEN_BYTES);
      txbuf[0] := kind * 16 + flags;
      var n := EncRemainingLen(1, rem);
      return 1 + n;
    }

    /** enc_str, for a field that is there. */
    method PutStr(n: nat, field: Option<seq<byte>>) returns (n': nat)
      requires Valid() && n + |OptStr(field)| <= cap
      modifies txbuf
      ensures n' == n + |OptStr(field)| && txbuf[..n'] == old(txbuf[..n]) + OptStr(field)
    {
      n' := n;
      if field.Some? {
        AppendTo(txbuf, n, EncStr(field.value));
        n' := n + 2 + |field.value|;
      }
    }

    /** The body of CONNECT behind the fixed header. */
    method PutLogin(off: nat, c: Login, hasUser: bool, hasPass: bool) returns (n: nat)
      requires Valid() && off + |ConnectPacket(c).body| <= cap
      requires hasUser <==> Effective(c).username.Some?
      requires hasPass <==> Effective(c).password.Some?
      modifies txbuf
      ensures n == off + |ConnectPacket(c).body| && txbuf[..n] == old(txbuf[..off]) + ConnectPacket(c).body
    {
      ghost var e, head := Effective(c), txbuf[..off];
      var flags := CLEAN_SESSION + (if hasUser then WITH_USERNAME else 0) + (if hasPass then WITH_PASSWORD else 0);
      var h := EncStr(PROTOCOL_NAME) + [PROTOCOL_LEVEL, flags] + Be16(c.keepAliveS);
      assert h == VariableHeader(e);
      AppendTo(txbuf, off, h);
      n := PutStr(off + 10, Some(c.clientId));
      n := PutStr(n, if hasUser then c.username else None);
      n := PutStr(n, if hasPass then c.password else None);
      FiveParts(head, h, EncStr(e.clientId), OptStr(e.username), OptStr(e.password));
    }

    /** send_connect: the optional fields one after the other. */
    method SendConnect(c: Login) returns (ok: bool)
      requires Valid()
      modifies this`sends, this`wire, this`lastTxMs, this`readings, txbuf
      ensures ok ==> wire == old(wire) + Encode(ConnectPacket(c))
      ensures old(wire) <= wire <= old(wire) + Encode(ConnectPacket(c))
      ensures old(Accepting(|Encode(ConnectPacket(c))|)) ==> (ok <==> FIXED_HDR_MAX + |ConnectPacket(c).body| <= cap)
    {
      var hasUser := c.username.Some? && c.username.value != [];
      var hasPass := hasUser && c.password.Some? && c.password.value != [];
      var rem := 10 + (2 + |c.clientId|) + (if hasUser then 2 + |c.username.value| else 0)
                 + (if hasPass then 2 + |c.password.value| else 0);
      if FIXED_HDR_MAX + rem > cap {
        return false;
      }
      var off := PutHeader(PKT_CONNECT, 0, rem);
      ghost var head := txbuf[..off];
      var n := PutLogin(off, c, hasUser, hasPass);
      assert txbuf[..n] == Encode(ConnectPacket(c));
      ok := SendAll(txbuf[..n]);
    }

    method SendPublish(topic: seq<byte>, payload: seq<byte>) returns (ok: bool)
      requires Valid()
      modifies this`sends, this`wire, this`lastTxMs, this`readings, txbuf
      ensures ok ==> wire == old(wire) + Encode(PublishPacket(topic, payload))
      ensures old(wire) <= wire <= old(wire) + Encode(PublishPacket(topic, payload))
      ensures FIXED_HDR_MAX + 2 + |topic| + |payload| > cap ==> !ok && wire == old(wire)
      ensures old(Accepting(|Encode(PublishPacket(topic, payload))|)) ==>
                (ok <==> FIXED_HDR_MAX + 2 + |topic| + |payload| <= cap)
    {
      var rem := 2 + |topic| + |payload|;
      if FIXED_HDR_MAX + rem > cap {
        return false;
      }
      var off := PutHeader(PKT_PUBLISH, 0, rem);
      AppendTo(txbuf, off, EncStr(topic));
      AppendTo(txbuf, off + 2 + |topic|, payload);
      assert txbuf[..off + rem] == Encode(PublishPacket(topic, payload));
      ok := SendAll(txbuf[..off + rem]);
    }

    method SendSubscribe(pktId: uint16, topic: seq<byte>) returns (ok: bool)
      requires Valid()
      modifies this`sends, this`wire, this`lastTxMs, this`readings, txbuf
      ensures ok ==> wire == old(wire) + Encode(SubscribePacket(pktId, topic))
      ensures old(wire) <= wire <= old(wire) + Encode(SubscribePacket(pktId, topic))
      ensures old(Accepting(|Encode(SubscribePacket(pktId, topic))|)) ==> (ok <==> FIXED_HDR_MAX + 5 + |topic| <= cap)
    {
      var rem := 2 + 2 + |topic| + 1;
      if FIXED_HDR_MAX + rem > cap {
        return false;
      }
      var off := PutHeader(PKT_SUBSCRIBE, 2, rem);
      ghost var head := txbuf[..off];
      AppendTo(txbuf, off, Be16(pktId));
      AppendTo(txbuf, off + 2, EncStr(topic));
      AppendTo(txbuf, off + 4 + |topic|, [0]);
      SubscribeIs(head, rem, pktId, topic);
      assert txbuf[..off + rem] == Encode(SubscribePacket(pktId, topic));
      ok := SendAll(txbuf[..off + rem]);
    }
  }

  // ------------------------------------------------------------------ whole sessions

  /** The packets that fit the buffer. */
  function Fitting(cap: nat, ps: seq<Packet>): seq<Packet> {
    if ps == [] then [] else (if |ps[0].body| <= cap then [ps[0]] else []) + Fitting(cap, ps[1..])
  }

  /** The outcomes of any number of read_packet calls on one connection, timeouts included. */
  ghost predicate Reads(cap: nat, s: seq<byte>, os: seq<Outcome>, s': seq<byte>)
    decreases |os|
  {
    if os == [] then s' == s
    else !os[0].Lost? && exists m :: ReadStep(cap, s, os[0], m) && Reads(cap, m, os[1..], s')
  }

  function PacketsOf(os: seq<Outcome>): seq<Packet> {
    if os == [] then [] else (if os[0].Got? then [os[0].p] else []) + PacketsOf(os[1..])
  }

  lemma FirstRead(cap: nat, s: seq<byte>, os: seq<Outcome>, s': seq<byte>) returns (m: seq<byte>)
    requires os != [] && Reads(cap, s, os, s')
    ensures !os[0].Lost? && ReadStep(cap, s, os[0], m) && Reads(cap, m, os[1..], s')
  {
    m :| ReadStep(cap, s, os[0], m) && Reads(cap, m, os[1..], s');
  }

  lemma FittingFirst(cap: nat, ps: seq<Packet>, j: nat)
    requires j + 1 <= |ps|
    ensures Fitting(cap, ps[..j + 1]) == (if |ps[0].body| <= cap then [ps[0]] else []) + Fitting(cap, ps[1..][..j])
    ensures ps[1..][j..] == ps[j + 1..]
  {
    assert ps[..j + 1][1..] == ps[1..][..j];
  }

  /** For any split of the stream into recv() chunks and any idle timeouts in between, the
      packets returned are the ones sent that fit the buffer, in order, and the stream stands
      at the boundary before packet k. */
  lemma {:induction false} SessionDeliversPackets(cap: nat, ps: seq<Packet>, os: seq<Outcome>, s': seq<byte>)
    returns (k: nat)
    requires Reads(cap, EncodeAll(ps), os, s') && Sendable(ps)
    ensures k <= |ps| && s' == EncodeAll(ps[k..]) && PacketsOf(os) == Fitting(cap, ps[..k])
    decreases |os|
  {
    if os == [] {
      k := 0;
    } else {
      var m := FirstRead(cap, EncodeAll(ps), os, s');
      var moved := OneRead(cap, ps, os[0], m);
      if moved {
        var j := SessionDeliversPackets(cap, ps[1..], os[1..], s');
        k := j + 1;
        FittingFirst(cap, ps, j);
      } else {
        k := SessionDeliversPackets(cap, ps, os[1..], s');
      }
    }
  }

  /** What one client publishes, another one that reads it in any pieces shows unchanged,
      whatever follows it. */
  lemma PublishEndToEnd(cap: nat, topic: seq<byte>, payload: seq<byte>, behind: seq<byte>, o: Outcome, rest: seq<byte>)
    requires FIXED_HDR_MAX + 2 + |topic| + |payload| <= cap < MAX_BODY && |topic| < TWO_16
    requires ReadStep(cap, Encode(PublishPacket(topic, payload)) + behind, o, rest) && o.Got?
    ensures MessageOf(o.p) == [Message(topic, payload, 0, 0)] && rest == behind
  {
    ParseEncodeIff(PublishPacket(topic, payload), behind);
    PublishReadBackIff(topic, payload);
  }
}
