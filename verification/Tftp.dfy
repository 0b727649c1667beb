/** The TFTP read client of examples/tftp/src/tftp_core.c, as it acts on its globals,
    and the specification of one poll as a function of the client's state. */
module Tftp {
  import opened Bytes

  const BLK_SIZE := 512
  const MAX_MTU_SIZE := 1514
  const FILE_NAME_SIZE := 20
  const SERVER_PORT: uint16 := 69
  const TIMEOUT_TICKS := 5
  const MAX_RETRIES := 5

  const OP_RRQ := 1
  const OP_DATA := 3
  const OP_ACK := 4
  const OP_ERROR := 5
  const OP_OACK := 6

  // "octet", "timeout" and "5": the transfer mode and the one option of a read request.
  const TRANS_BINARY: seq<byte> := [111, 99, 116, 101, 116]
  const OPT_TIMEOUT: seq<byte> := [116, 105, 109, 101, 111, 117, 116]
  const TIMEOUT_VALUE: seq<byte> := [53]

  datatype Phase = NoPhase | Rrq | Oack | Data
  datatype Progress = InProgress | Fail | Success

  datatype Datagram = Datagram(bytes: seq<byte>, ip: uint32, port: uint16)
  datatype Saved = Saved(block: uint16, len: uint32, data: seq<byte>)

  /** What the client puts on the wire, and what it makes of what it receives. */
  datatype Request = ReadRequest(filename: seq<byte>) | AckOf(block: uint16)
  datatype Outgoing = Outgoing(req: Request, ip: uint32, port: uint16)
  datatype Message = DataMsg(block: uint16, len: uint32, data: seq<byte>) | OackMsg | ErrorMsg | OtherMsg

  datatype Timer = Timer(on: bool, ticks: uint32, retries: uint32)

  /** What tftp_core.c keeps between calls, plus the two calls it makes outwards: `sent`
      lists what went to the transport, `saved` what went to save_data. */
  datatype Client = Client(
    serverIp: uint32, serverPort: uint16, filename: seq<byte>,
    phase: Phase, block: uint16, progress: Progress, timer: Timer,
    sent: seq<Outgoing>, saved: seq<Saved>)

  // ------------------------------------------------------------------ packets

  /** A C string as it is copied into a packet. */
  function Z(s: seq<byte>): seq<byte> {
    s + [0]
  }

  function Encode(r: Request): seq<byte> {
    match r
    case ReadRequest(filename) => Be16(OP_RRQ) + Z(filename) + Z(TRANS_BINARY) + Z(OPT_TIMEOUT) + Z(TIMEOUT_VALUE)
    case AckOf(n) => Be16(OP_ACK) + Be16(n)
  }

  /** What a server reads in a client's packet: section 5 of RFC 1350, with the options of
      RFC 2347. */
  datatype Asked = Read(filename: seq<byte>, mode: seq<byte>, options: seq<(seq<byte>, seq<byte>)>) | Acked(block: uint16)

  /** The position of the first NUL from i on, or the end. */
  function NulFrom(b: seq<byte>, i: nat): (k: nat)
    requires i <= |b|
    ensures i <= k <= |b| && (k < |b| ==> b[k] == 0) && 0 !in b[i..k]
    decreases |b| - i
  {
    if i == |b| || b[i] == 0 then i else NulFrom(b, i + 1)
  }

  /** A string up to its NUL, and what is behind it. */
  function TakeString(b: seq<byte>): (r: Option<(seq<byte>, seq<byte>)>)
    ensures r.Some? ==> |r.value.1| < |b| && 0 !in r.value.0
  {
    var k := NulFrom(b, 0);
    if k == |b| then None else Some((b[..k], b[k + 1..]))
  }

  /** Name and value, each up to its NUL, until the packet ends. */
  function TakeOptions(b: seq<byte>): Option<seq<(seq<byte>, seq<byte>)>>
    decreases |b|
  {
    if b == [] then Some([])
    else match TakeString(b)
      case None => None
      case Some((name, rest)) =>
        match TakeString(rest)
        case None => None
        case Some((value, more)) =>
          match TakeOptions(more)
          case None => None
          case Some(options) => Some([(name, value)] + options)
  }

  /** A read request behind its opcode. */
  function ServerReadsRrq(b: seq<byte>): (r: Option<Asked>)
    ensures r.Some? ==> r.value.Read? && 0 !in r.value.filename
  {
    match TakeString(b)
    case None => None
    case Some((filename, rest)) =>
      match TakeString(rest)
      case None => None
      case Some((mode, more)) =>
        match TakeOptions(more)
        case None => None
        case Some(options) => Some(Read(filename, mode, options))
  }

  function ServerReads(b: seq<byte>): Option<Asked> {
    if |b| < 2 then None
    else if U16(b[0], b[1]) == OP_ACK then if |b| == 4 then Some(Acked(U16(b[2], b[3]))) else None
    else if U16(b[0], b[1]) == OP_RRQ then ServerReadsRrq(b[2..])
    else None
  }

  /** What the client means to ask. */
  function Meant(r: Request): Asked {
    match r
    case ReadRequest(filename) => Read(filename, TRANS_BINARY, [(OPT_TIMEOUT, TIMEOUT_VALUE)])
    case AckOf(n) => Acked(n)
  }

  lemma {:induction false} NulIs(b: seq<byte>, i: nat, n: nat)
    requires i <= n < |b| && b[n] == 0 && forall j :: i <= j < n ==> b[j] != 0
    ensures NulFrom(b, i) == n
    decreases n - i
  {
    if i < n {
      NulIs(b, i + 1, n);
    }
  }

  lemma TakeOfZ(s: seq<byte>, rest: seq<byte>)
    requires 0 !in s
    ensures TakeString(Z(s) + rest) == Some((s, rest))
  {
    var b := Z(s) + rest;
    var k := NulFrom(b, 0);
    assert b[|s|] == 0 && b[..|s|] == s && b[|s| + 1..] == rest;
    NulIs(b, 0, |s|);
  }

  lemma OptionReads(name: seq<byte>, value: seq<byte>)
    requires 0 !in name && 0 !in value
    ensures TakeOptions(Z(name) + Z(value)) == Some([(name, value)])
  {
    TakeOfZ(name, Z(value));
    assert Z(value) == Z(value) + [];
    TakeOfZ(value, []);
    assert TakeOptions([]) == Some([]);
    assert [(name, value)] + [] == [(name, value)];
  }

  lemma RrqReads(filename: seq<byte>, mode: seq<byte>, name: seq<byte>, value: seq<byte>)
    requires 0 !in filename && 0 !in mode && 0 !in name && 0 !in value
    ensures ServerReadsRrq(Z(filename) + (Z(mode) + (Z(name) + Z(value)))) == Some(Read(filename, mode, [(name, value)]))
  {
    TakeOfZ(filename, Z(mode) + (Z(name) + Z(value)));
    TakeOfZ(mode, Z(name) + Z(value));
    OptionReads(name, value);
  }

  lemma BehindOpcode(op: seq<byte>, f: seq<byte>, m: seq<byte>, n: seq<byte>, v: seq<byte>)
    requires |op| == 2
    ensures (op + f + m + n + v)[2..] == f + (m + (n + v))
    ensures (op + f + m + n + v)[0] == op[0] && (op + f + m + n + v)[1] == op[1]
  {
  }

  /** An ACK always reads back; a read request reads back, name, mode and option, exactly when
      its file name holds no NUL. */
  lemma ServerReadsEncodeIff(r: Request)
    ensures ServerReads(Encode(r)) == Some(Meant(r)) <==> (r.ReadRequest? ==> 0 !in r.filename)
  {
    if r.ReadRequest? {
      BehindOpcode(Be16(OP_RRQ), Z(r.filename), Z(TRANS_BINARY), Z(OPT_TIMEOUT), Z(TIMEOUT_VALUE));
      if 0 !in r.filename {
        RrqReads(r.filename, TRANS_BINARY, OPT_TIMEOUT, TIMEOUT_VALUE);
      }
    }
  }

  /** A server hears ACK n in the packet of that ACK and in no other. */
  lemma HearsAckIff(r: Request, n: uint16)
    ensures ServerReads(Encode(r)) == Some(Acked(n)) <==> r == AckOf(n)
  {
    ServerReadsEncodeIff(AckOf(n));
    if r.ReadRequest? {
      BehindOpcode(Be16(OP_RRQ), Z(r.filename), Z(TRANS_BINARY), Z(OPT_TIMEOUT), Z(TIMEOUT_VALUE));
    } else {
      ServerReadsEncodeIff(r);
    }
  }

  function DataBytes(n: uint16, data: seq<byte>): seq<byte> {
    Be16(OP_DATA) + Be16(n) + data
  }

  /** msg_len - 4 is computed in 32 bits without sign. */
  function PayloadLen(len: uint32): uint32 {
    if len >= 4 then len - 4 else len + (TWO_32 - 4)
  }

  /** How a datagram of `len` bytes at the start of the receive buffer is read. The opcode
      and block number are read even where a shorter datagram left older bytes standing. */
  function Decode(buf: seq<byte>, len: uint32): Message
    requires 4 <= |buf| && len <= |buf|
  {
    var op := U16(buf[0], buf[1]);
    if op == OP_DATA then DataMsg(U16(buf[2], buf[3]), PayloadLen(len), if len < 4 then [] else buf[4..len])
    else if op == OP_OACK then OackMsg
    else if op == OP_ERROR then ErrorMsg
    else OtherMsg
  }

  /** The handlers convert the two header words of DATA and ERROR to host order in place. */
  function SwapHeader(buf: seq<byte>): seq<byte>
    requires |buf| >= 4
  {
    [buf[1], buf[0], buf[3], buf[2]] + buf[4..]
  }

  // ------------------------------------------------------------------ one event

  /** init_tftp: forget the transfer; only the past stays. */
  function Reset(c: Client, progress: Progress): Client {
    Client(0, 0, [], NoPhase, 0, progress, Timer(false, 0, 0), c.sent, c.saved)
  }

  function Send(c: Client, r: Request, port: uint16): Client {
    c.(sent := c.sent + [Outgoing(r, c.serverIp, port)])
  }

  /** The retransmission timer: starting it again while it runs changes nothing. */
  function Arm(t: Timer): Timer {
    if t.on then t else Timer(true, 0, 0)
  }

  function Disarm(t: Timer): Timer {
    if t.on then Timer(false, 0, 0) else t
  }

  function SendRrq(c: Client): Client {
    Send(c, ReadRequest(c.filename), SERVER_PORT).(phase := Rrq, timer := Arm(c.timer))
  }

  function SendAck(c: Client, n: uint16): Client {
    Send(c, AckOf(n), c.serverPort).(timer := Arm(c.timer))
  }

  /** The block the client would store next. `block + 1` is an int: it reaches 65536 and
      then equals no block number. */
  predicate Expects(c: Client, n: uint16) {
    if c.phase == Data then n == c.block + 1 else n == 1
  }

  function Store(c: Client, n: uint16, len: uint32, data: seq<byte>): Client {
    c.(phase := Data, block := n, timer := Disarm(c.timer), saved := c.saved + [Saved(n, len, data)])
  }

  function OnData(c: Client, n: uint16, len: uint32, data: seq<byte>): Client {
    var acked := SendAck(if Expects(c, n) then Store(c, n, len, data) else c, n);
    if len < BLK_SIZE then Reset(acked, Success) else acked
  }

  /** A message from the server's address. */
  function OnMessage(c: Client, m: Message): Client {
    match m
    case DataMsg(n, len, data) => if c.phase == NoPhase then c else OnData(c, n, len, data)
    case OackMsg => if c.phase == Rrq then SendAck(c.(phase := Oack, timer := Disarm(c.timer)), 0) else c
    case ErrorMsg => Reset(c, Fail)
    case OtherMsg => c
  }

  function OnPacket(c: Client, m: Message, fromIp: uint32, fromPort: uint16): Client {
    if fromIp != c.serverIp then c
    else OnMessage(if c.phase == Rrq then c.(serverPort := fromPort) else c, m)
  }

  function OnTimer(c: Client): Client {
    if !c.timer.on || c.timer.ticks < TIMEOUT_TICKS then c
    else
      var again := match c.phase
        case Rrq => SendRrq(c)
        case NoPhase => c
        case _ => SendAck(c, c.block);
      var retries := Inc(c.timer.retries);
      if retries >= MAX_RETRIES then Reset(again, Fail) else again.(timer := Timer(true, 0, retries))
  }

  /** tftpc_run, given what the transport delivered and how it reads. */
  function Poll(c: Client, m: Option<Message>, ip: uint32, port: uint16): Client {
    if m.None? then OnTimer(c) else OnPacket(OnTimer(c), m.value, ip, port)
  }

  function Tick(c: Client): Client {
    if c.timer.on then c.(timer := c.timer.(ticks := Inc(c.timer.ticks))) else c
  }

  function Start(c: Client, serverIp: uint32, filename: seq<byte>): Client {
    SendRrq(c.(serverIp := serverIp, progress := InProgress, filename := filename))
  }

  // ------------------------------------------------------------------ the receive buffer

  /** The transport delivers between 1 and MAX_MTU_SIZE bytes, or nothing. */
  predicate Deliverable(b: seq<byte>) {
    1 <= |b| <= MAX_MTU_SIZE
  }

  function Filled(buf: seq<byte>, b: seq<byte>): seq<byte>
    requires |b| <= |buf|
  {
    b + buf[|b|..]
  }

  /** The buffer once the datagram in it has been handled. */
  function Handled(c: Client, buf: seq<byte>, len: uint32, fromIp: uint32): seq<byte>
    requires 4 <= |buf| && len <= |buf|
  {
    if fromIp == c.serverIp && (Decode(buf, len).DataMsg? || Decode(buf, len).ErrorMsg?) then SwapHeader(buf) else buf
  }

  // ------------------------------------------------------------------ the code

  /** tftp_core.c: one transfer at a time, all state in module globals. */
  class TftpClient {
    var serverIp: uint32
    var serverPort: uint16
    var filename: seq<byte>
    var phase: Phase
    var block: uint16
    var progress: Progress
    var resend: bool
    var time: uint32
    var retry: uint32
    const rcvBuf: array<byte>
    var sent: seq<Outgoing>   // what the packets given to the transport say
    var saved: seq<Saved>

    ghost predicate Valid()
      reads this
    {
      rcvBuf.Length == MAX_MTU_SIZE && |filename| < FILE_NAME_SIZE && 0 !in filename
    }

    function View(): Client
      reads this
    {
      Client(serverIp, serverPort, filename, phase, block, progress, Timer(resend, time, retry), sent, saved)
    }

    constructor (buf: array<byte>)
      requires buf.Length == MAX_MTU_SIZE
      ensures Valid() && rcvBuf == buf
      ensures View() == Client(0, 0, [], NoPhase, 0, InProgress, Timer(false, 0, 0), [], [])
    {
      rcvBuf := buf;
      serverIp, serverPort, filename := 0, 0, [];
      phase, block, progress := NoPhase, 0, InProgress;
      resend, time, retry := false, 0, 0;
      sent, saved := [], [];
    }

    method InitTftp(p: Progress)
      requires Valid()
      modifies this
      ensures Valid() && View() == Reset(old(View()), p)
    {
      filename := [];
      serverIp, serverPort := 0, 0;
      phase, block := NoPhase, 0;
      resend := false;
      retry, time := 0, 0;
      progress := p;
    }

    method CancelTimeout()
      modifies this`resend, this`time, this`retry
      ensures Timer(resend, time, retry) == Disarm(old(Timer(resend, time, retry)))
    {
      if resend {
        resend := false;
        retry, time := 0, 0;
      }
    }

    method RegTimeout()
      modifies this`resend, this`time, this`retry
      ensures Timer(resend, time, retry) == Arm(old(Timer(resend, time, retry)))
    {
      if !resend {
        resend := true;
        retry, time := 0, 0;
      }
    }

    /** send_udp_packet: the bytes must be those of the request that is recorded. */
    method SendUdpPacket(bytes: seq<byte>, ip: uint32, port: uint16, req: Request)
      requires bytes == Encode(req)
      modifies this`sent
      ensures sent == old(sent) + [Outgoing(req, ip, port)]
    {
      sent := sent + [Outgoing(req, ip, port)];
    }

    /** strcpy behind the first n bytes of the packet. */
    static method PutString(pkt: array<byte>, n: nat, s: seq<byte>) returns (n': nat)
      requires n + |s| < pkt.Length
      modifies pkt
      ensures n' == n + |s| + 1 && pkt[..n'] == old(pkt[..n]) + Z(s)
    {
      AppendTo(pkt, n, s + [0]);
      n' := n + |s| + 1;
    }

    /** The packet of send_tftp_rrq, string by string. */
    static method BuildRrq(name: seq<byte>) returns (bytes: seq<byte>)
      requires |name| < FILE_NAME_SIZE
      ensures bytes == Encode(ReadRequest(name))
    {
      var pkt := new byte[MAX_MTU_SIZE];
      pkt[0], pkt[1] := 0, OP_RRQ;
      assert pkt[..2] == Be16(OP_RRQ);
      var n := PutString(pkt, 2, name);
      n := PutString(pkt, n, TRANS_BINARY);
      n := PutString(pkt, n, OPT_TIMEOUT);
      n := PutString(pkt, n, TIMEOUT_VALUE);
      bytes := pkt[..n];
    }

    /** The four bytes of send_tftp_ack. */
    static method BuildAck(n: uint16) returns (bytes: seq<byte>)
      ensures bytes == Encode(AckOf(n))
    {
      var pkt := new byte[4];
      pkt[0], pkt[1] := 0, OP_ACK;
      pkt[2], pkt[3] := n / 0x100, n % 0x100;
      bytes := pkt[..];
    }

    method SendTftpRrq(name: seq<byte>)
      requires Valid() && |name| < FILE_NAME_SIZE && 0 !in name
      modifies this
      ensures Valid() && View() == SendRrq(old(View()).(filename := name))
    {
      var bytes := BuildRrq(name);
      SendUdpPacket(bytes, serverIp, SERVER_PORT, ReadRequest(name));
      phase := Rrq;
      filename := name;
      RegTimeout();
    }

    method SendTftpAck(n: uint16)
      requires Valid()
      modifies this
      ensures Valid() && View() == SendAck(old(View()), n)
    {
      var bytes := BuildAck(n);
      SendUdpPacket(bytes, serverIp, serverPort, AckOf(n));
      RegTimeout();
    }

    method NtohsHeader()
      requires rcvBuf.Length == MAX_MTU_SIZE
      modifies rcvBuf
      ensures rcvBuf[..] == SwapHeader(old(rcvBuf[..]))
    {
      rcvBuf[0], rcvBuf[1] := rcvBuf[1], rcvBuf[0];
      rcvBuf[2], rcvBuf[3] := rcvBuf[3], rcvBuf[2];
    }

    method HandleBlock(n: uint16, len: uint32, data: seq<byte>)
      requires Valid() && phase != NoPhase
      modifies this
      ensures Valid() && View() == OnData(old(View()), n, len, data)
    {
      if phase == Data {
        if n == block + 1 {
          block := n;
          saved := saved + [Saved(n, len, data)];
          CancelTimeout();
        }
      } else if n == 1 {
        phase := Data;
        block := n;
        saved := saved + [Saved(n, len, data)];
        CancelTimeout();
      }
      SendTftpAck(n);
      if len < BLK_SIZE {
        InitTftp(Success);
      }
    }

    method RecvTftpData(len: uint32)
      requires Valid() && len <= MAX_MTU_SIZE && Decode(rcvBuf[..], len).DataMsg?
      modifies this, rcvBuf
      ensures Valid() && rcvBuf[..] == SwapHeader(old(rcvBuf[..]))
      ensures View() == OnMessage(old(View()), Decode(old(rcvBuf[..]), len))
    {
      ghost var m := Decode(rcvBuf[..], len);
      var n := U16(rcvBuf[2], rcvBuf[3]);
      NtohsHeader();
      var data := if len < 4 then [] else rcvBuf[4..len];
      assert data == m.data;
      if phase != NoPhase {
        HandleBlock(n, PayloadLen(len), data);
      }
    }

    method RecvTftpOack()
      requires Valid()
      modifies this
      ensures Valid() && View() == OnMessage(old(View()), OackMsg)
    {
      if phase == Rrq {
        phase := Oack;
        CancelTimeout();
        SendTftpAck(0);
      }
    }

    method RecvTftpError()
      requires Valid()
      modifies this, rcvBuf
      ensures Valid() && View() == OnMessage(old(View()), ErrorMsg)
      ensures rcvBuf[..] == SwapHeader(old(rcvBuf[..]))
    {
      NtohsHeader();
      InitTftp(Fail);
    }

    method RecvTftpPacket(len: uint32, fromIp: uint32, fromPort: uint16)
      requires Valid() && len <= MAX_MTU_SIZE
      modifies this, rcvBuf
      ensures Valid() && View() == OnPacket(old(View()), Decode(old(rcvBuf[..]), len), fromIp, fromPort)
      ensures rcvBuf[..] == Handled(old(View()), old(rcvBuf[..]), len, fromIp)
    {
      if fromIp != serverIp {
        return;
      }
      var op := U16(rcvBuf[0], rcvBuf[1]);
      if phase == Rrq {
        serverPort := fromPort;
      }
      if op == OP_DATA {
        RecvTftpData(len);
      } else if op == OP_OACK {
        RecvTftpOack();
      } else if op == OP_ERROR {
        RecvTftpError();
      }
    }

    method TimeoutProcess()
      requires Valid()
      modifies this
      ensures Valid() && View() == OnTimer(old(View()))
    {
      if resend {
        if time >= TIMEOUT_TICKS {
          match phase {
            case Rrq => SendTftpRrq(filename);
            case NoPhase =>
            case _ => SendTftpAck(block);
          }
          time := 0;
          retry := Inc(retry);
          if retry >= MAX_RETRIES {
            InitTftp(Fail);
          }
        }
      }
    }

    /** recvfrom: the datagram overwrites the start of the buffer. */
    method Receive(b: seq<byte>)
      requires |b| <= rcvBuf.Length
      modifies rcvBuf
      ensures rcvBuf[..] == Filled(old(rcvBuf[..]), b)
    {
      CopyTo(rcvBuf, 0, b);
    }

    /** tftpc_run: at most one datagram is taken from the transport. */
    method Run(d: Option<Datagram>) returns (state: Progress)
      requires Valid() && (d.Some? ==> Deliverable(d.value.bytes))
      modifies this, rcvBuf
      ensures Valid() && state == progress
      ensures d.None? ==> View() == Poll(old(View()), None, 0, 0) && rcvBuf[..] == old(rcvBuf[..])
      ensures d.Some? ==>
                var buf, len := Filled(old(rcvBuf[..]), d.value.bytes), |d.value.bytes|;
                && View() == Poll(old(View()), Some(Decode(buf, len)), d.value.ip, d.value.port)
                && rcvBuf[..] == Handled(OnTimer(old(View())), buf, len, d.value.ip)
    {
      TimeoutProcess();
      if d.None? {
        return progress;
      }
      Receive(d.value.bytes);
      RecvTftpPacket(|d.value.bytes|, d.value.ip, d.value.port);
      return progress;
    }

    method ReadRequestFor(ip: uint32, name: seq<byte>)
      requires Valid() && |name| < FILE_NAME_SIZE && 0 !in name
      modifies this
      ensures Valid() && View() == Start(old(View()), ip, name)
    {
      serverIp := ip;
      progress := InProgress;
      SendTftpRrq(name);
    }

    method TimeoutHandler()
      modifies this
      ensures View() == Tick(old(View()))
    {
      if resend {
        time := Inc(time);
      }
    }
  }

  /** A whole DATA packet reads back as what it carries, whatever the buffer held before. */
  lemma DecodeData(buf: seq<byte>, n: uint16, data: seq<byte>)
    requires |data| + 4 <= |buf| && |buf| == MAX_MTU_SIZE
    ensures Decode(Filled(buf, DataBytes(n, data)), |data| + 4) == DataMsg(n, |data|, data)
  {
  }

  /** A DATA packet cut off before its data is acknowledged, but it ends nothing: its length has
      wrapped, so it does not count as the short block. */
  lemma CutOffDataEndsNothing(c: Client, buf: seq<byte>, len: uint32)
    requires |buf| == MAX_MTU_SIZE && len < 4 && Decode(buf, len).DataMsg? && c.phase != NoPhase
    ensures OnMessage(c, Decode(buf, len)).progress == c.progress && OnMessage(c, Decode(buf, len)).phase != NoPhase
  {
  }

  /** A handled DATA packet leaves its header swapped in the buffer, so that a datagram of one
      byte behind it is taken for no packet at all. */
  lemma OneByteBehindData(buf: seq<byte>, n: uint16, data: seq<byte>, b: byte)
    requires |data| + 4 <= |buf| && |buf| == MAX_MTU_SIZE
    ensures Decode(Filled(SwapHeader(Filled(buf, DataBytes(n, data))), [b]), 1) == OtherMsg
  {
    var after := SwapHeader(Filled(buf, DataBytes(n, data)));
    assert after[1] == 0;
  }
}
