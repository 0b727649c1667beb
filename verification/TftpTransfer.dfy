/** A whole TFTP read transfer: the client of module Tftp, a server that follows RFC 1350
    section 2 and RFC 2347, and a network that loses, duplicates and reorders. */
module TftpTransfer {
  import opened Bytes
  import opened Tftp

  /** A C string holds no NUL. */
  type Name = s: seq<byte> | 0 !in s

  /** What a run is about: the server's address, the ports its transfers use, the file it
      serves under which name, and whether it acknowledges options before it sends data. */
  datatype Conf = Conf(serverIp: uint32, ports: set<uint16>, filename: Name, file: seq<byte>, oack: bool)

  /** A packet of the server: block j of the file, or one that is not DATA (OACK, ERROR). */
  datatype Packet = BlockPacket(j: nat, port: uint16) | OtherPacket(bytes: seq<byte>, port: uint16)

  /** `net` holds every packet the server ever sent; a delivery does not remove it, so loss,
      duplication and reordering need no steps of their own. `got` are those that have been
      delivered. Of the packets the client sent, `heard` gives the positions in `c.sent` of
      those that reached the server's host; the others are lost or still under way. */
  datatype Sys = Sys(c: Client, buf: seq<byte>, net: set<Packet>, got: set<Packet>, heard: set<nat>)

  // ------------------------------------------------------------------ the server

  /** The number of DATA packets a file takes: the last one is always short. */
  function NumBlocks(file: seq<byte>): nat {
    |file| / BLK_SIZE + 1
  }

  function Block(file: seq<byte>, j: nat): (b: seq<byte>)
    requires 1 <= j <= NumBlocks(file)
    ensures |b| <= BLK_SIZE && (|b| < BLK_SIZE <==> j == NumBlocks(file))
  {
    if j == NumBlocks(file) then file[(j - 1) * BLK_SIZE..] else file[(j - 1) * BLK_SIZE..j * BLK_SIZE]
  }

  /** A server numbers its blocks in 16 bits. */
  function Wire(j: nat): uint16 {
    j % TWO_16
  }

  function PacketBytes(file: seq<byte>, p: Packet): seq<byte>
    requires p.BlockPacket? ==> 1 <= p.j <= NumBlocks(file)
  {
    match p
    case BlockPacket(j, _) => DataBytes(Wire(j), Block(file, j))
    case OtherPacket(bytes, _) => bytes
  }

  /** The port a TFTP server listens on for requests (section 4 of RFC 1350). */
  const REQUEST_PORT: uint16 := 69

  /** What a server process at `port` has read in the packets that came in there. */
  predicate Heard(conf: Conf, s: Sys, port: uint16, what: Asked) {
    exists i :: i in s.heard && i < |s.c.sent|
                && s.c.sent[i].ip == conf.serverIp && s.c.sent[i].port == port
                && ServerReads(Encode(s.c.sent[i].req)) == Some(what)
  }

  function ReadAsked(conf: Conf): Asked {
    Read(conf.filename, Ascii("octet"), [(Ascii("timeout"), Ascii("5"))])
  }

  predicate PacketOk(conf: Conf, p: Packet) {
    && p.port in conf.ports
    && match p
       case BlockPacket(j, _) => 1 <= j <= NumBlocks(conf.file)
       case OtherPacket(b, _) => 2 <= |b| <= MAX_MTU_SIZE && U16(b[0], b[1]) != OP_DATA
  }

  /** A transfer runs at one port of its own: block j + 1 answers ACK j at that port, and block 1
      the read request, or ACK 0 at that port where options are acknowledged. Packets other
      than DATA may come at any time. */
  predicate MaySend(conf: Conf, s: Sys, p: Packet) {
    && PacketOk(conf, p)
    && (p.BlockPacket? ==>
          if p.j > 1 then Heard(conf, s, p.port, Acked(Wire(p.j - 1)))
          else if conf.oack then Heard(conf, s, p.port, Acked(0))
          else Heard(conf, s, REQUEST_PORT, ReadAsked(conf)))
  }

  // ------------------------------------------------------------------ steps and runs

  datatype Event =
    | TimerTick
    | ServerHears(i: nat)      // a packet of the client arrives at the server's host
    | ServerSends(p: Packet)
    | PollNothing
    | PollServer(p: Packet)    // a packet of the server is delivered
    | PollOther(d: Datagram)   // another host sends the client anything at all

  predicate Enabled(conf: Conf, s: Sys, e: Event) {
    match e
    case TimerTick => true
    case ServerHears(i) => i < |s.c.sent|
    case ServerSends(p) => MaySend(conf, s, p)
    case PollNothing => s.c.progress == InProgress
    case PollServer(p) => s.c.progress == InProgress && p in s.net
    case PollOther(d) => s.c.progress == InProgress && Deliverable(d.bytes) && d.ip != conf.serverIp
  }

  predicate SysOk(conf: Conf, s: Sys) {
    && |s.buf| == MAX_MTU_SIZE
    && forall p :: p in s.net ==> PacketOk(conf, p)
  }

  function Delivered(s: Sys, b: seq<byte>, ip: uint32, port: uint16): Sys
    requires |s.buf| == MAX_MTU_SIZE && Deliverable(b)
  {
    var buf := Filled(s.buf, b);
    s.(c := Poll(s.c, Some(Decode(buf, |b|)), ip, port), buf := Handled(OnTimer(s.c), buf, |b|, ip))
  }

  function Next(conf: Conf, s: Sys, e: Event): (s': Sys)
    requires SysOk(conf, s) && Enabled(conf, s, e)
    ensures SysOk(conf, s')
  {
    match e
    case TimerTick => s.(c := Tick(s.c))
    case ServerHears(i) => s.(heard := s.heard + {i})
    case ServerSends(p) => s.(net := s.net + {p})
    case PollNothing => s.(c := Poll(s.c, None, 0, 0))
    case PollServer(p) =>
      assert PacketOk(conf, p);
      Delivered(s.(got := s.got + {p}), PacketBytes(conf.file, p), conf.serverIp, p.port)
    case PollOther(d) => Delivered(s, d.bytes, d.ip, d.port)
  }

  function Idle(): Client {
    Client(0, 0, [], NoPhase, 0, InProgress, Timer(false, 0, 0), [], [])
  }

  /** A client fresh from tftpc_init that has just called tftpc_read_request. */
  predicate Init(conf: Conf, s: Sys) {
    && s.net == {} && s.got == {} && s.heard == {} && |s.buf| == MAX_MTU_SIZE
    && s.c == Start(Idle(), conf.serverIp, conf.filename)
  }

  /** `es`, latest event first, leads from s0 to s. */
  ghost predicate Leads(conf: Conf, s0: Sys, es: seq<Event>, s: Sys)
    decreases |es|
  {
    if es == [] then s == s0
    else exists m :: SysOk(conf, m) && Leads(conf, s0, es[1..], m) && Enabled(conf, m, es[0]) && s == Next(conf, m, es[0])
  }

  ghost predicate Reachable(conf: Conf, s: Sys) {
    exists es, s0 :: Init(conf, s0) && Leads(conf, s0, es, s)
  }

  // ------------------------------------------------------------------ the invariant

  const MAX_BLOCKS := 0xFFFF

  /** The files whose blocks 1..65535 hold everything. */
  predicate Fits(file: seq<byte>) {
    |file| <= MAX_BLOCKS * BLK_SIZE
  }

  function SavedBlock(file: seq<byte>, j: nat): Saved
    requires 1 <= j <= Min(NumBlocks(file), MAX_BLOCKS)
  {
    Saved(j, |Block(file, j)|, Block(file, j))
  }

  /** The calls of save_data so far were blocks 1, 2, 3, ..., each once, in order. */
  predicate SavedInOrder(file: seq<byte>, saved: seq<Saved>) {
    && |saved| <= Min(NumBlocks(file), MAX_BLOCKS)
    && forall i :: 0 <= i < |saved| ==> saved[i] == SavedBlock(file, i + 1)
  }

  /** No acknowledgement runs ahead of what was stored. */
  predicate AcksBehind(sent: seq<Outgoing>, k: nat) {
    forall i :: 0 <= i < |sent| && sent[i].req.AckOf? ==> sent[i].req.block <= k
  }

  /** A block in flight is an already stored one or the very next. */
  predicate NetBehind(net: set<Packet>, k: nat) {
    forall p :: p in net && p.BlockPacket? ==> p.j <= k + 1
  }

  predicate PhaseOk(conf: Conf, c: Client) {
    && (c.progress == InProgress ==>
          && c.serverIp == conf.serverIp
          && c.phase != NoPhase
          && c.block == |c.saved| < NumBlocks(conf.file)
          && (c.phase == Data <==> c.block > 0))
    && (c.progress != InProgress ==> c.phase == NoPhase)
    && (c.progress == Success ==> |c.saved| == Min(NumBlocks(conf.file), MAX_BLOCKS))
  }

  predicate ClientInv(conf: Conf, c: Client) {
    SavedInOrder(conf.file, c.saved) && AcksBehind(c.sent, |c.saved|) && PhaseOk(conf, c)
  }

  predicate Inv(conf: Conf, s: Sys) {
    SysOk(conf, s) && ClientInv(conf, s.c) && NetBehind(s.net, |s.c.saved|)
  }

  // ------------------------------------------------------------------ every step keeps it

  lemma SmallWire(j: nat)
    requires j <= MAX_BLOCKS
    ensures Wire(j) == j
  {
  }

  lemma ServerKeepsInv(conf: Conf, s: Sys, p: Packet)
    requires Fits(conf.file) && Inv(conf, s) && MaySend(conf, s, p)
    ensures Inv(conf, s.(net := s.net + {p}))
  {
    if p.BlockPacket? && p.j > 1 {
      var i :| i in s.heard && i < |s.c.sent| && ServerReads(Encode(s.c.sent[i].req)) == Some(Acked(Wire(p.j - 1)));
      HearsAckIff(s.c.sent[i].req, Wire(p.j - 1));
      SmallWire(p.j - 1);
    }
  }

  lemma TimerKeepsInv(conf: Conf, c: Client)
    requires ClientInv(conf, c) && c.progress == InProgress
    ensures ClientInv(conf, OnTimer(c)) && OnTimer(c).progress != Success && OnTimer(c).saved == c.saved
  {
  }

  /** The heart of the matter: a block of the file reaches the waiting client. */
  lemma DataKeepsInv(conf: Conf, c: Client, j: nat)
    requires Fits(conf.file) && ClientInv(conf, c) && c.progress == InProgress
    requires 1 <= j <= Min(NumBlocks(conf.file), |c.saved| + 1)
    ensures var data := Block(conf.file, j);
            var c' := OnData(c, Wire(j), |data|, data);
            ClientInv(conf, c') && |c.saved| <= |c'.saved|
  {
    if j <= MAX_BLOCKS {
      SmallWire(j);
    }
    var data, n := Block(conf.file, j), Wire(j);
    if Expects(c, n) {
      assert n == j == |c.saved| + 1;
      assert SavedInOrder(conf.file, Store(c, n, |data|, data).saved);
    }
  }

  lemma OtherKeepsInv(conf: Conf, c: Client, m: Message, ip: uint32, port: uint16)
    requires ClientInv(conf, c) && c.progress != Success
    requires ip != conf.serverIp || !m.DataMsg?
    ensures ClientInv(conf, OnPacket(c, m, ip, port)) && OnPacket(c, m, ip, port).saved == c.saved
  {
  }

  lemma BlockKeepsInv(conf: Conf, c: Client, j: nat, port: uint16)
    requires Fits(conf.file) && ClientInv(conf, c) && c.progress != Success
    requires 1 <= j <= Min(NumBlocks(conf.file), |c.saved| + 1)
    ensures var data := Block(conf.file, j);
            var c' := OnPacket(c, DataMsg(Wire(j), |data|, data), conf.serverIp, port);
            ClientInv(conf, c') && |c.saved| <= |c'.saved|
  {
    if c.progress == InProgress {
      DataKeepsInv(conf, if c.phase == Rrq then c.(serverPort := port) else c, j);
    }
  }

  lemma DeliveryKeepsInv(conf: Conf, s: Sys, p: Packet)
    requires Fits(conf.file) && Inv(conf, s) && s.c.progress == InProgress && p in s.net
    ensures Inv(conf, Next(conf, s, PollServer(p)))
  {
    assert PacketOk(conf, p);
    TimerKeepsInv(conf, s.c);
    var c := OnTimer(s.c);
    if p.BlockPacket? {
      DecodeData(s.buf, Wire(p.j), Block(conf.file, p.j));
      BlockKeepsInv(conf, c, p.j, p.port);
    } else {
      var m := Decode(Filled(s.buf, p.bytes), |p.bytes|);
      OtherKeepsInv(conf, c, m, conf.serverIp, p.port);
    }
  }

  lemma StepKeepsInv(conf: Conf, s: Sys, e: Event)
    requires Fits(conf.file) && Inv(conf, s) && Enabled(conf, s, e)
    ensures Inv(conf, Next(conf, s, e))
  {
    match e
    case TimerTick =>
    case ServerHears(i) =>
    case ServerSends(p) => ServerKeepsInv(conf, s, p);
    case PollNothing => TimerKeepsInv(conf, s.c);
    case PollServer(p) => DeliveryKeepsInv(conf, s, p);
    case PollOther(d) =>
      TimerKeepsInv(conf, s.c);
      OtherKeepsInv(conf, OnTimer(s.c), Decode(Filled(s.buf, d.bytes), |d.bytes|), d.ip, d.port);
  }

  lemma {:induction false} RunKeepsInv(conf: Conf, s0: Sys, es: seq<Event>, s: Sys)
    requires Fits(conf.file) && Init(conf, s0) && Leads(conf, s0, es, s)
    ensures Inv(conf, s)
    decreases |es|
  {
    if es != [] {
      var m :| SysOk(conf, m) && Leads(conf, s0, es[1..], m) && Enabled(conf, m, es[0]) && s == Next(conf, m, es[0]);
      RunKeepsInv(conf, s0, es[1..], m);
      StepKeepsInv(conf, m, es[0]);
    }
  }

  // ------------------------------------------------------------------ who is written to

  predicate CameFrom(got: set<Packet>, port: uint16) {
    exists p :: p in got && p.port == port
  }

  /** Read requests go to the request port and ask for the file; ACKs go to a port of the
      server from which a packet was delivered. */
  predicate SentWell(conf: Conf, got: set<Packet>, o: Outgoing) {
    && o.ip == conf.serverIp
    && match o.req
       case ReadRequest(name) => o.port == REQUEST_PORT && name == conf.filename
       case AckOf(_) => CameFrom(got, o.port)
  }

  predicate Addressed(conf: Conf, got: set<Packet>, c: Client) {
    && (forall i :: 0 <= i < |c.sent| ==> SentWell(conf, got, c.sent[i]))
    && (c.progress != InProgress ==> c.phase == NoPhase)
    && (c.progress == InProgress ==>
          c.serverIp == conf.serverIp && c.filename == conf.filename && c.phase != NoPhase
          && (c.phase != Rrq ==> CameFrom(got, c.serverPort)))
  }

  lemma TimerKeepsAddressed(conf: Conf, got: set<Packet>, c: Client)
    requires Addressed(conf, got, c)
    ensures Addressed(conf, got, OnTimer(c))
  {
  }

  lemma PacketKeepsAddressed(conf: Conf, got: set<Packet>, c: Client, m: Message, ip: uint32, port: uint16)
    requires Addressed(conf, got, c) && (ip == conf.serverIp ==> CameFrom(got, port))
    ensures Addressed(conf, got, OnPacket(c, m, ip, port))
  {
  }

  lemma GotMore(conf: Conf, got: set<Packet>, p: Packet, c: Client)
    requires Addressed(conf, got, c)
    ensures Addressed(conf, got + {p}, c)
  {
    forall port | CameFrom(got, port) ensures CameFrom(got + {p}, port) {
      var q :| q in got && q.port == port;
      assert q in got + {p};
    }
  }

  lemma PollKeepsAddressed(conf: Conf, got: set<Packet>, s: Sys, b: seq<byte>, ip: uint32, port: uint16)
    requires |s.buf| == MAX_MTU_SIZE && Deliverable(b)
    requires Addressed(conf, got, s.c) && (ip == conf.serverIp ==> CameFrom(got, port))
    ensures Addressed(conf, got, Delivered(s, b, ip, port).c)
  {
    TimerKeepsAddressed(conf, got, s.c);
    PacketKeepsAddressed(conf, got, OnTimer(s.c), Decode(Filled(s.buf, b), |b|), ip, port);
  }

  lemma StepKeepsAddressed(conf: Conf, s: Sys, e: Event)
    requires SysOk(conf, s) && Enabled(conf, s, e) && Addressed(conf, s.got, s.c)
    ensures Addressed(conf, Next(conf, s, e).got, Next(conf, s, e).c)
  {
    match e
    case PollNothing => TimerKeepsAddressed(conf, s.got, s.c);
    case PollServer(p) =>
      assert PacketOk(conf, p);
      var s1 := s.(got := s.got + {p});
      GotMore(conf, s.got, p, s.c);
      assert p in s1.got;
      PollKeepsAddressed(conf, s1.got, s1, PacketBytes(conf.file, p), conf.serverIp, p.port);
    case PollOther(d) => PollKeepsAddressed(conf, s.got, s, d.bytes, d.ip, d.port);
    case _ =>
  }

  /** Every run, whatever the size of the file: all that is ever sent goes where it belongs. */
  lemma {:induction false} EveryPacketIsAddressed(conf: Conf, s0: Sys, es: seq<Event>, s: Sys)
    requires Init(conf, s0) && Leads(conf, s0, es, s)
    ensures Addressed(conf, s.got, s.c) && s.got <= s.net
    decreases |es|
  {
    if es != [] {
      var m :| SysOk(conf, m) && Leads(conf, s0, es[1..], m) && Enabled(conf, m, es[0]) && s == Next(conf, m, es[0]);
      EveryPacketIsAddressed(conf, s0, es[1..], m);
      StepKeepsAddressed(conf, m, es[0]);
    }
  }

  /** All acknowledgements went to one port, the one the transfer goes by. */
  predicate OnePort(c: Client) {
    && (forall i, k :: 0 <= i < |c.sent| && 0 <= k < |c.sent| && c.sent[i].req.AckOf? && c.sent[k].req.AckOf?
          ==> c.sent[i].port == c.sent[k].port)
    && (c.progress == InProgress ==>
          forall i :: 0 <= i < |c.sent| && c.sent[i].req.AckOf? ==> c.phase != Rrq && c.sent[i].port == c.serverPort)
  }

  lemma TimerKeepsOnePort(c: Client)
    requires OnePort(c) && (c.progress != InProgress ==> c.phase == NoPhase)
    ensures OnePort(OnTimer(c)) && (OnTimer(c).progress != InProgress ==> OnTimer(c).phase == NoPhase)
  {
  }

  lemma PacketKeepsOnePort(c: Client, m: Message, ip: uint32, port: uint16)
    requires OnePort(c) && (c.progress != InProgress ==> c.phase == NoPhase)
    requires c.phase == Rrq && ip == c.serverIp && m.DataMsg? ==> m.block == 1
    ensures OnePort(OnPacket(c, m, ip, port))
  {
  }

  lemma StepKeepsOnePort(conf: Conf, s: Sys, e: Event)
    requires Fits(conf.file) && Inv(conf, s) && Enabled(conf, s, e) && OnePort(s.c)
    ensures OnePort(Next(conf, s, e).c)
  {
    TimerKeepsOnePort(s.c);
    if s.c.progress == InProgress {
      TimerKeepsInv(conf, s.c);
    }
    match e
    case PollServer(p) =>
      assert PacketOk(conf, p);
      if p.BlockPacket? {
        DecodeData(s.buf, Wire(p.j), Block(conf.file, p.j));
        SmallWire(1);
      }
      var b := PacketBytes(conf.file, p);
      PacketKeepsOnePort(OnTimer(s.c), Decode(Filled(s.buf, b), |b|), conf.serverIp, p.port);
    case PollOther(d) =>
      PacketKeepsOnePort(OnTimer(s.c), Decode(Filled(s.buf, d.bytes), |d.bytes|), d.ip, d.port);
    case _ =>
  }

  /** In every run the server's first answer fixes the port: no ACK goes to a second one. */
  lemma {:induction false} EveryAckGoesToOnePort(conf: Conf, s0: Sys, es: seq<Event>, s: Sys)
    requires Fits(conf.file) && Init(conf, s0) && Leads(conf, s0, es, s)
    ensures OnePort(s.c)
    decreases |es|
  {
    if es != [] {
      var m :| SysOk(conf, m) && Leads(conf, s0, es[1..], m) && Enabled(conf, m, es[0]) && s == Next(conf, m, es[0]);
      EveryAckGoesToOnePort(conf, s0, es[1..], m);
      RunKeepsInv(conf, s0, es[1..], m);
      StepKeepsOnePort(conf, m, es[0]);
    }
  }
}
