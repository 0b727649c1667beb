/** A TFTP transfer ends, whatever packets arrive. */
module TftpTermination {
  import opened Bytes
  import opened Tftp

  /** Progress events so far: the OACK counts as one, DATA block b as the (b + 1)th. */
  function Rank(c: Client): nat {
    match c.phase
    case NoPhase => 0
    case Rrq => 0
    case Oack => 1
    case Data => c.block + 1
  }

  const MAX_RANK := 0x1_0000
  const STALL_TICKS := TIMEOUT_TICKS * MAX_RETRIES

  /** Ticks counted since the last progress event. */
  function Stalled(c: Client): nat {
    TIMEOUT_TICKS * c.timer.retries + c.timer.ticks
  }

  /** A transfer in progress has its timer running; `late` allows for one tick just counted. */
  predicate Waiting(c: Client, late: nat) {
    c.progress == InProgress ==>
      && c.phase != NoPhase && c.timer.on
      && (c.phase == Data ==> c.block >= 1)
      && c.timer.ticks < TIMEOUT_TICKS + late && c.timer.retries < MAX_RETRIES
  }

  /** The lexicographic pair (progress still possible, ticks until the client gives up),
      as one number: how many more ticks the transfer can last. */
  function TicksLeft(c: Client): nat
    requires Waiting(c, 0)
  {
    if c.progress != InProgress then 0
    else STALL_TICKS * (MAX_RANK - Rank(c)) + STALL_TICKS - Stalled(c)
  }

  /** What one call of tftpc_run finds: nothing, or any message from anywhere. */
  datatype Arrival = Arrival(m: Option<Message>, ip: uint32, port: uint16)

  function PollOf(c: Client, a: Arrival): Client {
    Poll(c, a.m, a.ip, a.port)
  }

  /** tftpc_run called once per arrival while the transfer lasts. */
  function Polls(c: Client, arrivals: seq<Arrival>): Client
    decreases |arrivals|
  {
    if arrivals == [] || c.progress != InProgress then c else Polls(PollOf(c, arrivals[0]), arrivals[1..])
  }

  /** One timer tick and the polls before the next one, for each element of `rounds`. */
  function Rounds(c: Client, rounds: seq<seq<Arrival>>): Client
    decreases |rounds|
  {
    if rounds == [] || c.progress != InProgress then c
    else Rounds(Polls(Tick(c), rounds[0]), rounds[1..])
  }

  /** The countdown goes on unchanged, or starts again at a higher rank, or the transfer is over. */
  predicate Advances(c: Client, p: Client) {
    p.progress == InProgress ==>
      || (Rank(p) == Rank(c) && Stalled(p) == Stalled(c))
      || (Rank(p) > Rank(c) && Stalled(p) == 0)
  }

  lemma TimerStep(c: Client)
    requires c.progress == InProgress && Waiting(c, 1)
    ensures Waiting(OnTimer(c), 0) && Advances(c, OnTimer(c))
    ensures OnTimer(c).progress == InProgress || OnTimer(c).phase == NoPhase
  {
  }

  lemma PacketStep(c: Client, m: Message, ip: uint32, port: uint16)
    requires Waiting(c, 0) && (c.progress == InProgress || c.phase == NoPhase)
    ensures Waiting(OnPacket(c, m, ip, port), 0)
    ensures c.progress == InProgress ==> Advances(c, OnPacket(c, m, ip, port))
    ensures c.progress != InProgress ==> OnPacket(c, m, ip, port).progress != InProgress
  {
  }

  lemma PollStep(c: Client, a: Arrival)
    requires c.progress == InProgress && Waiting(c, 1)
    ensures Waiting(PollOf(c, a), 0) && Advances(c, PollOf(c, a))
  {
    TimerStep(c);
    if a.m.Some? {
      PacketStep(OnTimer(c), a.m.value, a.ip, a.port);
    }
  }

  lemma AdvanceCounts(c: Client, p: Client)
    requires Waiting(c, 0) && c.progress == InProgress && Waiting(p, 0) && Advances(c, p)
    ensures TicksLeft(p) <= TicksLeft(c)
  {
  }

  lemma {:induction false} PollsStep(c: Client, arrivals: seq<Arrival>)
    requires Waiting(c, 0)
    ensures Waiting(Polls(c, arrivals), 0) && TicksLeft(Polls(c, arrivals)) <= TicksLeft(c)
    decreases |arrivals|
  {
    if arrivals != [] && c.progress == InProgress {
      PollStep(c, arrivals[0]);
      var p := PollOf(c, arrivals[0]);
      AdvanceCounts(c, p);
      PollsStep(p, arrivals[1..]);
    }
  }

  lemma TickCounts(c: Client, p: Client)
    requires Waiting(c, 0) && c.progress == InProgress && Waiting(p, 0) && Advances(Tick(c), p)
    ensures TicksLeft(p) < TicksLeft(c)
  {
  }

  lemma RoundStep(c: Client, arrivals: seq<Arrival>)
    requires Waiting(c, 0) && c.progress == InProgress && arrivals != []
    ensures Waiting(Polls(Tick(c), arrivals), 0) && TicksLeft(Polls(Tick(c), arrivals)) < TicksLeft(c)
  {
    PollStep(Tick(c), arrivals[0]);
    var p := PollOf(Tick(c), arrivals[0]);
    TickCounts(c, p);
    PollsStep(p, arrivals[1..]);
  }

  lemma {:induction false} RoundsStep(c: Client, rounds: seq<seq<Arrival>>)
    requires Waiting(c, 0) && forall i :: 0 <= i < |rounds| ==> rounds[i] != []
    ensures var r := Rounds(c, rounds);
            && Waiting(r, 0)
            && (r.progress == InProgress ==> TicksLeft(r) + |rounds| <= TicksLeft(c))
    decreases |rounds|
  {
    if rounds != [] && c.progress == InProgress {
      RoundStep(c, rounds[0]);
      RoundsStep(Polls(Tick(c), rounds[0]), rounds[1..]);
    }
  }

  /** A timer that is due already acts at the first poll, however long it has been due. */
  lemma OverdueSame(c: Client, d: Client, arrivals: seq<Arrival>)
    requires c.timer.on && c.timer.ticks >= TIMEOUT_TICKS && arrivals != []
    requires d == c.(timer := c.timer.(ticks := TIMEOUT_TICKS))
    ensures Polls(c, arrivals) == if c.progress == InProgress then Polls(d, arrivals) else c
  {
    assert OnTimer(c) == OnTimer(d);
  }

  /** Once a transfer is over the client is deaf and mute: polls, ticks and packets from any host
      but 0.0.0.0 change nothing, so a reported SUCCESS or FAIL stands until the next request. */
  lemma EndedStaysEnded(c: Client, p: Progress, m: Option<Message>, ip: uint32, port: uint16)
    requires ip != 0
    ensures Poll(Reset(c, p), m, ip, port) == Reset(c, p) && Tick(Reset(c, p)) == Reset(c, p)
    ensures Reset(c, p).progress == p && Reset(c, p).sent == c.sent && Reset(c, p).saved == c.saved
  {
  }

  /** How every transfer ends: whatever ended it leaves the client as after tftpc_init, but for
      what has been sent and stored. */
  lemma EndIsReset(c: Client, a: Arrival)
    requires c.progress == InProgress && PollOf(c, a).progress != InProgress
    ensures exists d :: PollOf(c, a) == Reset(d, PollOf(c, a).progress)
  {
    var t := OnTimer(c);
    var again := if c.timer.on && c.timer.ticks >= TIMEOUT_TICKS then
                   match c.phase case Rrq => SendRrq(c) case NoPhase => c case _ => SendAck(c, c.block) else c;
    assert t.progress != InProgress ==> t == Reset(again, Fail);
    if a.m.Some? && a.ip == t.serverIp && t.progress == InProgress {
      var c1 := if t.phase == Rrq then t.(serverPort := a.port) else t;
      match a.m.value {
        case DataMsg(n, len, data) =>
          var acked := SendAck(if Expects(c1, n) then Store(c1, n, len, data) else c1, n);
          assert PollOf(c, a) == Reset(acked, Success);
        case ErrorMsg => assert PollOf(c, a) == Reset(c1, Fail);
        case _ =>
      }
    } else if a.m.Some? && t.progress != InProgress && a.ip == 0 && a.m.value.ErrorMsg? {
      assert PollOf(c, a) == Reset(t, Fail);
    }
  }

  /** A read request starts afresh after any transfer: to the new server's request port, for the
      new file, with nothing acknowledged and the whole time to wait. */
  lemma NextTransferIsFresh(c: Client, p: Progress, serverIp: uint32, filename: seq<byte>)
    ensures var s := Start(Reset(c, p), serverIp, filename);
            s == Client(serverIp, 0, filename, Rrq, 0, InProgress, Timer(true, 0, 0),
                        c.sent + [Outgoing(ReadRequest(filename), serverIp, 69)], c.saved)
  {
  }

  predicate RetriesBelow(c: Client) {
    c.timer.on ==> c.timer.retries < MAX_RETRIES
  }

  /** The retry counter stays below its limit in every client: it starts so, and ticks, polls
      and new requests keep it so. */
  lemma RetriesStayBelow(c: Client, a: Arrival, serverIp: uint32, filename: seq<byte>)
    requires RetriesBelow(c)
    ensures RetriesBelow(Tick(c)) && RetriesBelow(PollOf(c, a)) && RetriesBelow(Start(c, serverIp, filename))
  {
  }

  /** From the read request on, with at least one poll per tick and any packets at all, the
      client reports SUCCESS or FAIL within 25 * 65537 ticks, also when the timer of an earlier
      request still runs or is overdue (short of the end of its 32-bit counter). */
  lemma TransferEnds(c: Client, serverIp: uint32, filename: seq<byte>, rounds: seq<seq<Arrival>>)
    requires RetriesBelow(c) && (c.timer.on ==> c.timer.ticks < TWO_32 - 1)
    requires |rounds| >= 25 * 65537
    requires forall i :: 0 <= i < |rounds| ==> rounds[i] != []
    ensures Rounds(Start(c, serverIp, filename), rounds).progress != InProgress
  {
    var s := Start(c, serverIp, filename);
    if s.timer.ticks < TIMEOUT_TICKS {
      RoundsStep(s, rounds);
    } else {
      var due := s.(timer := s.timer.(ticks := TIMEOUT_TICKS - 1));
      OverdueSame(Tick(s), Tick(due), rounds[0]);
      assert Rounds(s, rounds) == Rounds(due, rounds);
      RoundsStep(due, rounds);
    }
  }

  /** n ticks with one poll after each, and nothing arrives. */
  function Silence(n: nat): seq<seq<Arrival>> {
    seq(n, i => [Arrival(None, 0, 0)])
  }

  /** The last packet of a client that has just sent it for the first time. */
  predicate JustSent(c: Client, o: Outgoing) {
    && c.progress == InProgress && c.timer == Timer(true, 0, 0)
    && o == match c.phase
            case Rrq => Outgoing(ReadRequest(c.filename), c.serverIp, 69)
            case _ => Outgoing(AckOf(c.block), c.serverIp, c.serverPort)
  }

  lemma SilenceNext(n: nat)
    ensures Silence(n + 1)[0] == [Arrival(None, 0, 0)] && Silence(n + 1)[1..] == Silence(n)
  {
  }

  /** The rounds to come, from a client that has sat through `past` ticks. */
  lemma {:induction false} SilenceFrom(c: Client, o: Outgoing, past: nat, n: nat)
    requires c.progress == InProgress && c.phase != NoPhase && past < 25
    requires c.timer == Timer(true, past % 5, past / 5) && JustSent(c.(timer := Timer(true, 0, 0)), o)
    ensures var r, total := Rounds(c, Silence(n)), past + n;
            && r.saved == c.saved
            && r.sent == c.sent + seq(Min(total, 25) / 5 - past / 5, i => o)
            && (if total < 25 then r.progress == InProgress && r.phase == c.phase && r.block == c.block
                else r.progress == Fail && r.phase == NoPhase)
    decreases n
  {
    if n > 0 {
      SilenceNext(n - 1);
      var c1 := Polls(Tick(c), [Arrival(None, 0, 0)]);
      assert Polls(c1, []) == c1;
      assert [Arrival(None, 0, 0)][1..] == [];
      assert c1 == OnTimer(Tick(c));
      if past + 1 < 25 {
        SilenceFrom(c1, o, past + 1, n - 1);
      }
    }
  }

  /** In silence the last packet is sent again after 5, 10, 15 and 20 ticks, to where it went
      before; nothing is stored, and after 25 ticks and five repetitions the transfer fails. */
  lemma SilenceRepeatsLast(c: Client, o: Outgoing, n: nat)
    requires c.phase != NoPhase && JustSent(c, o)
    ensures var r := Rounds(c, Silence(n));
            && r.saved == c.saved && r.sent == c.sent + seq(Min(n, 25) / 5, i => o)
            && r.progress == if n < 25 then InProgress else Fail
  {
    SilenceFrom(c, o, 0, n);
  }

  /** Twenty-five ticks without a new block (or the OACK) end the transfer. */
  lemma StallEnds(c: Client, rounds: seq<seq<Arrival>>)
    requires Waiting(c, 0) && c.progress == InProgress
    requires |rounds| == 25 && forall i :: 0 <= i < |rounds| ==> rounds[i] != []
    ensures var r := Rounds(c, rounds); r.progress != InProgress || Rank(r) > Rank(c)
  {
    RoundsStep(c, rounds);
  }
}
