/** What a TFTP transfer delivers: which files arrive whole, and that they can. */
module TftpDelivery {
  import opened Bytes
  import opened Tftp
  import opened TftpTransfer

  /** What the client handed to save_data, as one file. */
  function SavedFile(saved: seq<Saved>): seq<byte> {
    if saved == [] then [] else SavedFile(saved[..|saved| - 1]) + saved[|saved| - 1].data
  }

  lemma NextBlock(file: seq<byte>, j: nat)
    requires 1 <= j <= NumBlocks(file)
    ensures file[..Min((j - 1) * BLK_SIZE, |file|)] + Block(file, j) == file[..Min(j * BLK_SIZE, |file|)]
  {
  }

  /** Blocks 1..k are the first k * 512 bytes of the file, or all of it. */
  lemma {:induction false} SavedIsPrefix(file: seq<byte>, saved: seq<Saved>)
    requires SavedInOrder(file, saved)
    ensures SavedFile(saved) == file[..Min(|saved| * BLK_SIZE, |file|)]
  {
    var k := |saved|;
    if k > 0 {
      var prev := saved[..k - 1];
      assert SavedInOrder(file, prev);
      SavedIsPrefix(file, prev);
      NextBlock(file, k);
      assert saved[k - 1] == SavedBlock(file, k);
    }
  }

  /** Safety over every run, whatever the network loses, repeats or reorders: save_data sees
      blocks 1, 2, ... in order and once each, and a reported success means the whole file. */
  lemma EveryRunDelivers(conf: Conf, s: Sys)
    requires Fits(conf.file) && Reachable(conf, s)
    ensures SavedInOrder(conf.file, s.c.saved)
    ensures SavedFile(s.c.saved) <= conf.file
    ensures s.c.progress == Success ==> SavedFile(s.c.saved) == conf.file
    ensures s.c.progress == Success && NumBlocks(conf.file) <= MAX_BLOCKS ==> |s.c.saved| == NumBlocks(conf.file)
  {
    var es, s0 :| Init(conf, s0) && Leads(conf, s0, es, s);
    RunKeepsInv(conf, s0, es, s);
    SavedIsPrefix(conf.file, s.c.saved);
  }

  /** An ERROR that is delivered while the transfer lasts ends it with FAIL. */
  lemma ErrorEnds(conf: Conf, s: Sys, p: Packet)
    requires SysOk(conf, s) && Enabled(conf, s, PollServer(p)) && s.c.serverIp == conf.serverIp
    requires p.OtherPacket? && |p.bytes| >= 2 && p.bytes[..2] == [0, 5]
    ensures var s' := Next(conf, s, PollServer(p)); s'.c.progress == Fail && s'.c.saved == s.c.saved
  {
    assert PacketOk(conf, p);
    var buf := Filled(s.buf, p.bytes);
    assert buf[0] == p.bytes[..2][0] && buf[1] == p.bytes[..2][1];
    assert Decode(buf, |p.bytes|) == ErrorMsg;
  }

  // ------------------------------------------------------------------ lossy runs

  /** The packet the client sent last, and will send again. */
  function LastSent(s: Sys): Outgoing
    requires s.c.sent != []
  {
    s.c.sent[|s.c.sent| - 1]
  }

  /** Of each packet that has reached the server, the `lost` copies sent just before were lost. */
  predicate Lossy(lost: nat, sent: seq<Outgoing>, heard: set<nat>) {
    forall i :: i in heard ==>
      && lost <= i < |sent|
      && forall m :: i - lost <= m < i ==> m !in heard && sent[m] == sent[i]
  }

  /** ... and the last packet has not reached it yet. */
  predicate Pending(lost: nat, sent: seq<Outgoing>, heard: set<nat>) {
    Lossy(lost, sent, heard) && sent != [] && forall i :: i in heard ==> i < |sent| - 1
  }

  /** `sent` with its last packet sent n more times. */
  function Again(sent: seq<Outgoing>, n: nat): (more: seq<Outgoing>)
    requires sent != []
    ensures |more| == |sent| + n && sent <= more && forall i :: |sent| - 1 <= i < |more| ==> more[i] == sent[|sent| - 1]
  {
    sent + seq(n, i => sent[|sent| - 1])
  }

  lemma HeardAtLast(lost: nat, sent: seq<Outgoing>, heard: set<nat>)
    requires Pending(lost, sent, heard)
    ensures Lossy(lost, Again(sent, lost), heard + {|sent| + lost - 1})
  {
  }

  /** What lets the server send block j + 1 from `port`, and where it has to be sent. */
  function Asks(conf: Conf, j: nat, port: uint16): Outgoing {
    if j == 0 && !conf.oack then Outgoing(ReadRequest(conf.filename), conf.serverIp, REQUEST_PORT)
    else Outgoing(AckOf(Wire(j)), conf.serverIp, port)
  }

  /** The client waits, having sent its last packet once. */
  predicate Waits(conf: Conf, s: Sys, lost: nat) {
    && s.c.progress == InProgress && s.c.serverIp == conf.serverIp && s.c.filename == conf.filename
    && s.c.timer == Timer(true, 0, 0) && Pending(lost, s.c.sent, s.heard)
  }

  /** The client after j blocks exchanged one by one. Blocks past 65535 are acknowledged but no
      longer stored. */
  predicate LockStep(conf: Conf, s: Sys, lost: nat, port: uint16, j: nat) {
    && j <= NumBlocks(conf.file)
    && SavedInOrder(conf.file, s.c.saved) && |s.c.saved| == Min(j, MAX_BLOCKS)
    && if j == NumBlocks(conf.file) then s.c.progress == Success && Lossy(lost, s.c.sent, s.heard)
       else && Waits(conf, s, lost) && LastSent(s) == Asks(conf, j, port) && s.c.block == |s.c.saved|
            && s.c.phase == (if j > 0 then Data else if conf.oack then Oack else Rrq)
            && (s.c.phase != Rrq ==> s.c.serverPort == port)
  }

  lemma OneMoreEvent(conf: Conf, s: Sys, e: Event)
    requires Reachable(conf, s) && SysOk(conf, s) && Enabled(conf, s, e)
    ensures Reachable(conf, Next(conf, s, e))
  {
    var es, s0 :| Init(conf, s0) && Leads(conf, s0, es, s);
    assert ([e] + es)[1..] == es;
    assert Leads(conf, s0, [e] + es, Next(conf, s, e));
  }

  lemma {:induction false} Ticks(conf: Conf, s: Sys, n: nat) returns (s': Sys)
    requires Reachable(conf, s) && SysOk(conf, s) && s.c.timer.on && s.c.timer.ticks + n < TWO_32
    ensures Reachable(conf, s') && SysOk(conf, s')
    ensures s' == s.(c := s.c.(timer := s.c.timer.(ticks := s.c.timer.ticks + n)))
  {
    s' := s;
    if n > 0 {
      var m := Ticks(conf, s, n - 1);
      OneMoreEvent(conf, m, TimerTick);
      s' := Next(conf, m, TimerTick);
    }
  }

  /** The packet a client repeats when its timer is due. */
  function Repetition(c: Client): Outgoing {
    if c.phase == Rrq then Outgoing(ReadRequest(c.filename), c.serverIp, REQUEST_PORT)
    else Outgoing(AckOf(c.block), c.serverIp, c.serverPort)
  }

  predicate MayRepeat(s: Sys) {
    && s.c.progress == InProgress && s.c.phase != NoPhase && s.c.timer == Timer(true, 0, 0)
    && s.c.sent != [] && LastSent(s) == Repetition(s.c)
  }

  /** The last packet has been sent n more times, and nothing else has happened. */
  function Repeated(s: Sys, n: nat): Sys
    requires s.c.sent != [] && n <= 4
  {
    s.(c := s.c.(sent := Again(s.c.sent, n), timer := Timer(true, 0, n)))
  }

  /** Five ticks without an answer, and the last packet is sent again as it was. */
  lemma OnceMore(conf: Conf, s: Sys, n: nat)
    requires MayRepeat(s) && n < 4 && Reachable(conf, Repeated(s, n)) && SysOk(conf, s)
    ensures Reachable(conf, Repeated(s, n + 1))
  {
    var m := Ticks(conf, Repeated(s, n), 5);
    OneMoreEvent(conf, m, PollNothing);
    assert Again(s.c.sent, n) + [LastSent(s)] == Again(s.c.sent, n + 1);
    assert Next(conf, m, PollNothing).c == Repeated(s, n + 1).c;
  }

  lemma {:induction false} Repeats(conf: Conf, s: Sys, n: nat)
    requires MayRepeat(s) && n <= 4 && Reachable(conf, s) && SysOk(conf, s)
    ensures Reachable(conf, Repeated(s, n))
  {
    if n > 0 {
      Repeats(conf, s, n - 1);
      OnceMore(conf, s, n - 1);
    } else {
      assert Again(s.c.sent, 0) == s.c.sent;
      assert Repeated(s, 0).c == s.c;
    }
  }

  lemma Spelled()
    ensures Ascii("octet") == TRANS_BINARY && Ascii("timeout") == OPT_TIMEOUT && Ascii("5") == TIMEOUT_VALUE
  {
  }

  lemma RequestIsRead(conf: Conf)
    ensures ServerReads(Encode(ReadRequest(conf.filename))) == Some(ReadAsked(conf))
  {
    ServerReadsEncodeIff(ReadRequest(conf.filename));
    Spelled();
  }

  /** The server reads what the client asks. */
  lemma AskIsRead(conf: Conf, j: nat, port: uint16)
    ensures ServerReads(Encode(Asks(conf, j, port).req)) ==
            Some(if j == 0 && !conf.oack then ReadAsked(conf) else Acked(Wire(j)))
  {
    if j == 0 && !conf.oack {
      RequestIsRead(conf);
    } else {
      HearsAckIff(AckOf(Wire(j)), Wire(j));
    }
  }

  /** The last packet goes out `lost` times in vain and is heard the next time. */
  function Asked(s: Sys, lost: nat): Sys
    requires s.c.sent != [] && lost <= 4
  {
    var m := Repeated(s, lost);
    m.(heard := m.heard + {|m.c.sent| - 1})
  }

  predicate MayAsk(s: Sys, lost: nat) {
    && lost <= 4 && s.c.progress == InProgress && s.c.phase != NoPhase && s.c.timer == Timer(true, 0, 0)
    && s.c.sent != [] && (lost > 0 ==> LastSent(s) == Repetition(s.c))
  }

  lemma RepeatedNever(s: Sys)
    requires s.c.sent != [] && s.c.timer == Timer(true, 0, 0)
    ensures Repeated(s, 0) == s
  {
    assert Again(s.c.sent, 0) == s.c.sent;
    assert Repeated(s, 0).c == s.c;
  }

  lemma Resend(conf: Conf, s: Sys, lost: nat)
    requires Reachable(conf, s) && SysOk(conf, s) && MayAsk(s, lost)
    ensures Reachable(conf, Repeated(s, lost))
  {
    if lost > 0 {
      Repeats(conf, s, lost);
    } else {
      RepeatedNever(s);
    }
  }

  lemma LastIsHeard(conf: Conf, s: Sys)
    requires Reachable(conf, s) && SysOk(conf, s) && s.c.sent != []
    ensures Reachable(conf, s.(heard := s.heard + {|s.c.sent| - 1}))
  {
    OneMoreEvent(conf, s, ServerHears(|s.c.sent| - 1));
  }

  lemma Ask(conf: Conf, s: Sys, lost: nat)
    requires Reachable(conf, s) && SysOk(conf, s) && MayAsk(s, lost)
    ensures Reachable(conf, Asked(s, lost))
  {
    Resend(conf, s, lost);
    LastIsHeard(conf, Repeated(s, lost));
  }

  /** What block j + 1 does to a client that asked for it. */
  lemma ExchangeData(conf: Conf, c: Client, port: uint16, j: nat)
    requires j < NumBlocks(conf.file) && SavedInOrder(conf.file, c.saved) && |c.saved| == Min(j, MAX_BLOCKS) == c.block
    requires c.progress == InProgress && c.phase != NoPhase && (c.phase == Data <==> j > 0)
    requires c.serverPort == port
    ensures var data := Block(conf.file, j + 1);
            var c' := OnData(c, Wire(j + 1), |data|, data);
            && SavedInOrder(conf.file, c'.saved) && |c'.saved| == Min(j + 1, MAX_BLOCKS)
            && c'.sent == c.sent + [Outgoing(AckOf(Wire(j + 1)), c.serverIp, port)]
            && if j + 1 == NumBlocks(conf.file) then c'.progress == Success
               else c'.progress == InProgress && c'.phase == Data && c'.block == |c'.saved|
                    && c'.serverIp == c.serverIp && c'.serverPort == port && c'.filename == c.filename
                    && c'.timer == if j < MAX_BLOCKS then Timer(true, 0, 0) else Arm(c.timer)
  {
    var data, n := Block(conf.file, j + 1), Wire(j + 1);
    if j < MAX_BLOCKS {
      SmallWire(j + 1);
    }
    assert Expects(c, n) <==> j < MAX_BLOCKS;
    var c1 := if Expects(c, n) then Store(c, n, |data|, data) else c;
    assert SavedInOrder(conf.file, c1.saved) && |c1.saved| == Min(j + 1, MAX_BLOCKS);
  }

  lemma OneMoreSent(lost: nat, sent: seq<Outgoing>, heard: set<nat>, o: Outgoing)
    requires Lossy(lost, sent, heard)
    ensures Pending(lost, sent + [o], heard) && (sent + [o])[|sent|] == o
  {
  }

  /** The poll that takes block j + 1 out of the network. */
  lemma BlockArrives(conf: Conf, s: Sys, port: uint16, j: nat)
    requires SysOk(conf, s) && Enabled(conf, s, PollServer(BlockPacket(j + 1, port)))
    requires s.c.timer.ticks == 0 && s.c.serverIp == conf.serverIp && s.c.phase != NoPhase && j < NumBlocks(conf.file)
    ensures var s', data := Next(conf, s, PollServer(BlockPacket(j + 1, port))), Block(conf.file, j + 1);
            && s'.c == OnData(if s.c.phase == Rrq then s.c.(serverPort := port) else s.c, Wire(j + 1), |data|, data)
            && s'.heard == s.heard
  {
    DecodeData(s.buf, Wire(j + 1), Block(conf.file, j + 1));
  }

  lemma ArrivalIs(conf: Conf, s: Sys, lost: nat, port: uint16, j: nat, before: Sys)
    requires SysOk(conf, s) && LockStep(conf, before, lost, port, j) && j < NumBlocks(conf.file) && lost <= 4
    requires s == Asked(before, lost).(net := s.net) && Lossy(lost, s.c.sent, s.heard)
    requires lost > 0 ==> Fits(conf.file)
    requires BlockPacket(j + 1, port) in s.net
    ensures LockStep(conf, Next(conf, s, PollServer(BlockPacket(j + 1, port))), lost, port, j + 1)
  {
    BlockArrives(conf, s, port, j);
    ExchangeData(conf, if s.c.phase == Rrq then s.c.(serverPort := port) else s.c, port, j);
    OneMoreSent(lost, s.c.sent, s.heard, Outgoing(AckOf(Wire(j + 1)), conf.serverIp, port));
  }

  lemma MayBeSent(conf: Conf, s: Sys, port: uint16, j: nat)
    requires s.c.sent != [] && |s.c.sent| - 1 in s.heard && LastSent(s) == Asks(conf, j, port)
    requires j < NumBlocks(conf.file) && port in conf.ports
    ensures MaySend(conf, s, BlockPacket(j + 1, port))
  {
    AskIsRead(conf, j, port);
    var i := |s.c.sent| - 1;
    assert s.c.sent[i] == LastSent(s);
    if j == 0 && conf.oack {
      SmallWire(0);
    }
  }

  /** The server answers, and the client takes the answer. */
  lemma Answer(conf: Conf, s: Sys, p: Packet) returns (s': Sys)
    requires Reachable(conf, s) && SysOk(conf, s) && s.c.progress == InProgress && MaySend(conf, s, p)
    ensures SysOk(conf, s.(net := s.net + {p})) && Enabled(conf, s.(net := s.net + {p}), PollServer(p))
    ensures s' == Next(conf, s.(net := s.net + {p}), PollServer(p))
    ensures Reachable(conf, s') && SysOk(conf, s')
  {
    OneMoreEvent(conf, s, ServerSends(p));
    var m := Next(conf, s, ServerSends(p));
    OneMoreEvent(conf, m, PollServer(p));
    s' := Next(conf, m, PollServer(p));
  }

  lemma AskAndAnswer(conf: Conf, s: Sys, lost: nat, p: Packet) returns (s': Sys)
    requires Reachable(conf, s) && SysOk(conf, s) && MayAsk(s, lost) && MaySend(conf, Asked(s, lost), p)
    ensures var m := Asked(s, lost).(net := s.net + {p});
            SysOk(conf, m) && Enabled(conf, m, PollServer(p)) && s' == Next(conf, m, PollServer(p))
    ensures Reachable(conf, s') && SysOk(conf, s')
  {
    Ask(conf, s, lost);
    s' := Answer(conf, Asked(s, lost), p);
  }

  lemma MayAskNext(conf: Conf, s: Sys, lost: nat, port: uint16, j: nat)
    requires LockStep(conf, s, lost, port, j) && j < NumBlocks(conf.file) && port in conf.ports
    requires lost <= 4 && (lost > 0 ==> Fits(conf.file))
    ensures MayAsk(s, lost) && MaySend(conf, Asked(s, lost), BlockPacket(j + 1, port))
    ensures Lossy(lost, Asked(s, lost).c.sent, Asked(s, lost).heard)
  {
    if lost > 0 {
      SmallWire(j);
    }
    HeardAtLast(lost, s.c.sent, s.heard);
    MayBeSent(conf, Asked(s, lost), port, j);
  }

  lemma Exchange(conf: Conf, s: Sys, lost: nat, port: uint16, j: nat) returns (s': Sys)
    requires Reachable(conf, s) && SysOk(conf, s) && LockStep(conf, s, lost, port, j) && j < NumBlocks(conf.file)
    requires port in conf.ports && lost <= 4 && (lost > 0 ==> Fits(conf.file))
    ensures Reachable(conf, s') && SysOk(conf, s') && LockStep(conf, s', lost, port, j + 1)
  {
    var p := BlockPacket(j + 1, port);
    MayAskNext(conf, s, lost, port, j);
    s' := AskAndAnswer(conf, s, lost, p);
    ArrivalIs(conf, Asked(s, lost).(net := s.net + {p}), lost, port, j, s);
  }

  lemma Begins(conf: Conf) returns (s: Sys)
    ensures Reachable(conf, s) && SysOk(conf, s) && s.heard == {} && s.net == {}
    ensures s.c == Start(Idle(), conf.serverIp, conf.filename)
  {
    s := Sys(Start(Idle(), conf.serverIp, conf.filename), seq(MAX_MTU_SIZE, i => 0), {}, {}, {});
    assert Leads(conf, s, [], s);
  }

  lemma OackArrives(conf: Conf, s: Sys, p: Packet)
    requires SysOk(conf, s) && Enabled(conf, s, PollServer(p)) && s.c.serverIp == conf.serverIp
    requires p.OtherPacket? && |p.bytes| >= 2 && p.bytes[..2] == [0, 6] && s.c.phase == Rrq && s.c.timer.ticks == 0
    ensures var s' := Next(conf, s, PollServer(p));
            && s'.c == SendAck(s.c.(serverPort := p.port, phase := Oack, timer := Disarm(s.c.timer)), 0)
            && s'.heard == s.heard
  {
    assert PacketOk(conf, p);
    var buf := Filled(s.buf, p.bytes);
    assert buf[0] == p.bytes[..2][0] && buf[1] == p.bytes[..2][1];
    assert Decode(buf, |p.bytes|) == OackMsg;
  }

  /** The first exchange where options are acknowledged: the request, an OACK, ACK 0. */
  lemma OptionsAcknowledged(conf: Conf, lost: nat, port: uint16) returns (s: Sys)
    requires conf.oack && port in conf.ports && lost <= 4
    ensures Reachable(conf, s) && SysOk(conf, s) && LockStep(conf, s, lost, port, 0)
  {
    var s0 := Begins(conf);
    var p := OtherPacket([0, 6] + Z(Ascii("timeout")) + Z(Ascii("5")), port);
    s := AskAndAnswer(conf, s0, lost, p);
    OackArrives(conf, Asked(s0, lost).(net := s0.net + {p}), p);
    HeardAtLast(lost, s0.c.sent, {});
    OneMoreSent(lost, Again(s0.c.sent, lost), Asked(s0, lost).heard, Outgoing(AckOf(0), conf.serverIp, port));
  }

  lemma {:induction false} LossyRun(conf: Conf, lost: nat, port: uint16, j: nat) returns (s: Sys)
    requires j <= NumBlocks(conf.file) && port in conf.ports && lost <= 4 && (lost > 0 ==> Fits(conf.file))
    ensures Reachable(conf, s) && SysOk(conf, s) && LockStep(conf, s, lost, port, j)
  {
    if j > 0 {
      var m := LossyRun(conf, lost, port, j - 1);
      s := Exchange(conf, m, lost, port, j - 1);
    } else if conf.oack {
      s := OptionsAcknowledged(conf, lost, port);
    } else {
      s := Begins(conf);
    }
  }

  /** A file that fits arrives whole, from any port the server chooses, with or without an OACK,
      even when up to four copies of every packet of the client are lost before one is heard. */
  lemma LostPacketsAreRepeated(conf: Conf, lost: nat, port: uint16) returns (s: Sys)
    requires port in conf.ports && lost <= 4 && Fits(conf.file)
    ensures Reachable(conf, s) && s.c.progress == Success && SavedFile(s.c.saved) == conf.file
    ensures Lossy(lost, s.c.sent, s.heard)
  {
    s := LossyRun(conf, lost, port, NumBlocks(conf.file));
    EveryRunDelivers(conf, s);
  }

  ghost predicate SuccessMeansWholeFile(conf: Conf) {
    forall s :: Reachable(conf, s) && s.c.progress == Success ==> SavedFile(s.c.saved) == conf.file
  }

  /** The exact limit of the protocol loop: block numbers are compared as int and never wrap,
      so a success means the whole file precisely for files of at most 65535 * 512 bytes. */
  lemma SuccessMeansWholeFileIff(conf: Conf)
    requires conf.ports != {}
    ensures SuccessMeansWholeFile(conf) <==> Fits(conf.file)
  {
    if Fits(conf.file) {
      forall s | Reachable(conf, s) && s.c.progress == Success ensures SavedFile(s.c.saved) == conf.file {
        EveryRunDelivers(conf, s);
      }
    } else {
      var port :| port in conf.ports;
      var s := LossyRun(conf, 0, port, NumBlocks(conf.file));
      SavedIsPrefix(conf.file, s.c.saved);
      assert |SavedFile(s.c.saved)| == MAX_BLOCKS * BLK_SIZE < |conf.file|;
    }
  }
}
