/** The DHCP client over whole runs: what precedes a lease, and what precedes a failure. */
module DhcpRuns {
  import opened Bytes
  import opened DhcpWire
  import opened Dhcp

  // ------------------------------------------------------------------ runs

  /** A run is made of turns of the poll loop, however polls group them, and of stops followed
      by a new start. */
  datatype Act = Take(t: Turn) | Restart(rnd: uint32)

  predicate ActOk(a: Act) {
    a.Take? ==> a.t.now >= 0
  }

  function Restarted(c: Client, rnd: uint32): Client {
    EnterSelecting(c.(bound := false, lease := Lease(NO_IP, NO_IP, NO_IP, NO_IP, 0)), rnd)
  }

  function Acted(cfg: Config, c: Client, a: Act): Client {
    match a
    case Take(t) => OneTurn(cfg, c, t).0
    case Restart(rnd) => Restarted(c, rnd)
  }

  function After(cfg: Config, c: Client, acts: seq<Act>): Client {
    if acts == [] then c else Acted(cfg, After(cfg, c, acts[..|acts| - 1]), acts[|acts| - 1])
  }

  lemma {:induction false} TurnFirst(cfg: Config, c: Client, turns: seq<Turn>, j: nat)
    requires j < |turns|
    ensures After(cfg, c, seq(j + 1, i requires 0 <= i < j + 1 => Take(turns[i])))
            == After(cfg, OneTurn(cfg, c, turns[0]).0, seq(j, i requires 0 <= i < j => Take(turns[1..][i])))
  {
    var all := seq(j + 1, i requires 0 <= i < j + 1 => Take(turns[i]));
    var tail := seq(j, i requires 0 <= i < j => Take(turns[1..][i]));
    if j == 0 {
      assert all == [Take(turns[0])] && all[..0] == [] && tail == [];
    } else {
      TurnFirst(cfg, c, turns, j - 1);
      assert all[..j] == seq(j, i requires 0 <= i < j => Take(turns[i]));
      assert tail[..j - 1] == seq(j - 1, i requires 0 <= i < j - 1 => Take(turns[1..][i]));
    }
  }

  /** A poll is a number of turns; its status is that of the last one. */
  lemma {:induction false} StepIsTurns(cfg: Config, c: Client, turns: seq<Turn>) returns (k: nat)
    ensures k <= |turns| && Step(cfg, c, turns).0 == After(cfg, c, seq(k, i requires 0 <= i < k => Take(turns[i])))
    ensures Step(cfg, c, turns).1 != Pending ==>
              k > 0 && var before := After(cfg, c, seq(k - 1, i requires 0 <= i < k - 1 => Take(turns[i])));
                       OneTurn(cfg, before, turns[k - 1]) == (Step(cfg, c, turns).0, Some(Step(cfg, c, turns).1))
    decreases |turns|
  {
    if turns == [] {
      k := 0;
    } else {
      var (c1, st) := OneTurn(cfg, c, turns[0]);
      if st.Some? {
        k := 1;
        assert seq(1, i requires 0 <= i < 1 => Take(turns[i])) == [Take(turns[0])];
        assert [Take(turns[0])][..0] == [];
      } else {
        var j := StepIsTurns(cfg, c1, turns[1..]);
        k := j + 1;
        TurnFirst(cfg, c, turns, j);
        if j > 0 {
          TurnFirst(cfg, c, turns, j - 1);
        }
      }
    }
  }

  // ------------------------------------------------------------------ the order of events

  /** Where the current round has got to; the numbers are positions in the log. `named` is the
      server id the client has been given last, `offerNamed` the one the accepted OFFER carried. */
  datatype Round = Round(xid: uint32, enter: nat, discover: Option<nat>, offer: Option<nat>, yiaddr: Ip,
                         offerNamed: Option<Ip>, named: Option<Ip>, request: Option<nat>, ack: Option<nat>, lease: Lease)

  const NO_LEASE := Lease(NO_IP, NO_IP, NO_IP, NO_IP, 0)

  function NewRound(xid: uint32, enter: nat, lease: Lease): Round {
    Round(xid, enter, None, None, NO_IP, None, None, None, None, lease)
  }

  /** The server id that is left when a reply carried `now` after one that carried `before`. */
  function Later(now: Option<Ip>, before: Option<Ip>): Option<Ip> {
    if now.Some? then now else before
  }

  // Messages of this client in the exchange, and replies to it, by their type (section 9.6 of
  // RFC 2132).

  predicate Sends(e: Event, kind: byte, xid: uint32, mac: Mac) {
    e.Tx? && Concerns(e.msg, 1, xid, mac) && TypeOf(e.msg) == kind
  }

  predicate TakesOffer(e: Event, xid: uint32, mac: Mac) {
    e.OfferTaken? && Concerns(e.msg, 2, xid, mac) && TypeOf(e.msg) == 2
  }

  predicate TakesAck(e: Event, xid: uint32, mac: Mac) {
    e.AckTaken? && Concerns(e.msg, 2, xid, mac) && TypeOf(e.msg) == 5
  }

  /** The n-th event, judged by RFC 2131: DISCOVER, then OFFER, then REQUEST for the offered
      address, then ACK, all in the round's exchange; only then may its lease be applied. A
      REQUEST names the server id stored last, and the first one follows its OFFER directly. */
  function Judge(mac: Mac, r: Round, n: nat, e: Event): Option<Round> {
    match e
    case Enter(xid) => Some(NewRound(xid, n, r.lease))
    case Tx(msg, _) =>
      if Sends(e, 1, r.xid, mac) && r.offer.None? && RequestedIn(msg).None? && ServerIdIn(msg).None?
      then Some(r.(discover := Some(n)))
      else if Sends(e, 3, r.xid, mac) && r.offer.Some? && r.ack.None? && RequestedIn(msg) == Some(r.yiaddr)
              && ServerIdIn(msg) == Some(OrElse(r.named, NO_IP))
      then Some(if r.request.None? then r.(request := Some(n)) else r)
      else None
    case OfferTaken(msg) =>
      if TakesOffer(e, r.xid, mac) && r.discover.Some? && r.offer.None?
      then Some(r.(offer := Some(n), yiaddr := YiaddrIn(msg), offerNamed := ServerIdIn(msg),
                   named := Later(ServerIdIn(msg), r.named)))
      else None
    case Named(msg) =>
      if Concerns(msg, 2, r.xid, mac) && ServerIdIn(msg).Some? && (r.offer.None? || r.request.Some?)
      then Some(r.(named := ServerIdIn(msg))) else None
    case AckTaken(msg) =>
      if TakesAck(e, r.xid, mac) && r.request.Some? && r.ack.None?
      then Some(r.(ack := Some(n), lease := LeaseIn(msg))) else None
    case Applied(lease) => if r.ack.Some? && r.lease == lease then Some(r) else None
    case GaveUp(_) => Some(r)
  }

  function Track(mac: Mac, log: seq<Event>): Option<Round> {
    if log == [] then None
    else
      var n := |log| - 1;
      if n == 0 then if log[0].Enter? then Some(NewRound(log[0].xid, 0, NO_LEASE)) else None
      else match Track(mac, log[..n])
        case None => None
        case Some(r) => Judge(mac, r, n, log[n])
  }

  predicate RequestsAskFor(log: seq<Event>, from: nat, yiaddr: Ip) {
    forall i :: from < i < |log| && log[i].Tx? && TypeOf(log[i].msg) == 3 ==> RequestedIn(log[i].msg) == Some(yiaddr)
  }

  /** What the positions in a round stand for. */
  predicate RoundTrue(mac: Mac, log: seq<Event>, r: Round) {
    && r.enter < |log| && log[r.enter] == Enter(r.xid)
    && (forall i :: r.enter < i < |log| ==> !log[i].Enter?)
    && (r.discover.Some? ==> r.enter < r.discover.value < |log| && Sends(log[r.discover.value], 1, r.xid, mac))
    && (r.offer.Some? ==>
          && r.discover.Some? && r.discover.value < r.offer.value < |log|
          && TakesOffer(log[r.offer.value], r.xid, mac)
          && r.yiaddr == YiaddrIn(log[r.offer.value].msg) && r.offerNamed == ServerIdIn(log[r.offer.value].msg))
    && (forall i :: r.enter < i < |log| && log[i].OfferTaken? ==> r.offer == Some(i))
    && (r.request.Some? ==>
          && r.offer.Some? && r.offer.value < r.request.value < |log|
          && Sends(log[r.request.value], 3, r.xid, mac)
          && RequestedIn(log[r.request.value].msg) == Some(r.yiaddr)
          && (r.offerNamed.Some? ==> ServerIdIn(log[r.request.value].msg) == r.offerNamed))
    && (r.ack.Some? ==>
          && r.request.Some? && r.request.value < r.ack.value < |log|
          && TakesAck(log[r.ack.value], r.xid, mac) && r.lease == LeaseIn(log[r.ack.value].msg))
    && RequestsAskFor(log, r.enter, r.yiaddr)
    && (r.offer.None? ==> forall i :: r.enter < i < |log| && log[i].Tx? ==> TypeOf(log[i].msg) != 3)
    && (r.offer.Some? && r.offerNamed.Some? ==> r.named.Some? && (r.request.None? ==> r.named == r.offerNamed))
  }

  lemma JudgedTx(mac: Mac, log: seq<Event>, r: Round, e: Event)
    requires RoundTrue(mac, log, r) && Judge(mac, r, |log|, e).Some? && e.Tx?
    ensures RoundTrue(mac, log + [e], Judge(mac, r, |log|, e).value)
  {
  }

  lemma JudgedAck(mac: Mac, log: seq<Event>, r: Round, e: Event)
    requires RoundTrue(mac, log, r) && Judge(mac, r, |log|, e).Some? && e.AckTaken?
    ensures RoundTrue(mac, log + [e], Judge(mac, r, |log|, e).value)
  {
  }

  lemma JudgedOffer(mac: Mac, log: seq<Event>, r: Round, e: Event)
    requires RoundTrue(mac, log, r) && Judge(mac, r, |log|, e).Some? && e.OfferTaken?
    ensures RoundTrue(mac, log + [e], Judge(mac, r, |log|, e).value)
  {
  }

  lemma JudgeIsTrue(mac: Mac, log: seq<Event>, r: Round, e: Event)
    requires RoundTrue(mac, log, r) && Judge(mac, r, |log|, e).Some?
    ensures RoundTrue(mac, log + [e], Judge(mac, r, |log|, e).value)
  {
    match e
    case Tx(_, _) => JudgedTx(mac, log, r, e);
    case OfferTaken(_) => JudgedOffer(mac, log, r, e);
    case AckTaken(_) => JudgedAck(mac, log, r, e);
    case _ =>
  }

  lemma {:induction false} TrackIsTrue(mac: Mac, log: seq<Event>)
    requires Track(mac, log).Some?
    ensures RoundTrue(mac, log, Track(mac, log).value)
  {
    var n := |log| - 1;
    if n > 0 {
      TrackIsTrue(mac, log[..n]);
      JudgeIsTrue(mac, log[..n], Track(mac, log[..n]).value, log[n]);
      assert log == log[..n] + [log[n]];
    }
  }

  lemma {:induction false} TrackPrefix(mac: Mac, log: seq<Event>, k: nat)
    requires Track(mac, log).Some? && 0 < k <= |log|
    ensures Track(mac, log[..k]).Some?
  {
    if k < |log| {
      TrackPrefix(mac, log[..|log| - 1], k);
      assert log[..|log| - 1][..k] == log[..k];
    } else {
      assert log[..k] == log;
    }
  }

  // ------------------------------------------------------------------ the client keeps to it

  /** The client's fields say what its log says; `armed`: a transmission is not pending. */
  predicate Follows(c: Client, armed: bool) {
    && Track(c.mac, c.log).Some?
    && var r := Track(c.mac, c.log).value;
       && r.xid == c.xid && c.serverId == OrElse(r.named, NO_IP)
       && (c.tries == 0 ==> c.state == Bound || (c.nextTxUs == 0 && !armed))
       && match c.state
          case Selecting => r.offer.None? && r.request.None? && r.ack.None? && (c.tries > 0 ==> r.discover.Some?)
          case Requesting => r.offer.Some? && r.yiaddr == c.offered && r.ack.None? && (c.tries > 0 <==> r.request.Some?)
          case Bound => r.ack.Some? && r.lease == c.lease && !armed
  }

  lemma TrackNext(mac: Mac, log: seq<Event>, e: Event)
    requires Track(mac, log).Some?
    ensures Track(mac, log + [e]) == Judge(mac, Track(mac, log).value, |log|, e)
  {
  }

  lemma EnterFollows(c: Client, xid: uint32)
    requires Track(c.mac, c.log).Some?
    ensures Follows(EnterSelecting(c, xid), false)
  {
  }

  lemma TransmitFollows(cfg: Config, c: Client, now: int)
    requires Follows(c, false) && c.state != Bound && now >= 0
    ensures Follows(Transmit(cfg, c, now), true)
  {
    var kind := if c.state == Selecting then DISCOVER else REQUEST;
    BuildReads(kind, c.xid, c.mac, c.offered, c.serverId);
    TrackNext(c.mac, c.log, Tx(Build(kind, c.xid, c.mac, c.offered, c.serverId), now));
  }

  lemma BeforeReceiveFollows(cfg: Config, c: Client, t: Turn)
    requires cfg.xmitTries > 0 && t.now >= 0 && Follows(c, false)
    ensures Follows(BeforeReceive(cfg, c, t).0, BeforeReceive(cfg, c, t).1.None?)
    ensures BeforeReceive(cfg, c, t).0.mac == c.mac
  {
    if c.state == Bound && t.now < c.renewAtUs {
    } else {
      EnterFollows(c, t.rnd);
      var c1 := if c.state == Bound then EnterSelecting(c, t.rnd) else c;
      if t.now < c1.nextTxUs {
      } else if c1.tries >= cfg.xmitTries {
        TrackNext(c1.mac, c1.log, GaveUp(t.now));
        EnterFollows(c1.(log := c1.log + [GaveUp(t.now)]), t.rnd);
      } else {
        TransmitFollows(cfg, c1, t.now);
      }
    }
  }

  lemma TakeOfferFollows(c: Client, p: seq<byte>)
    requires Follows(c, true) && c.state == Selecting && Concerns(p, 2, c.xid, c.mac) && TypeOf(p) == 2
    ensures Follows(TakeOffer(c.(serverId := OrElse(ServerIdIn(p), c.serverId)), YiaddrIn(p), p), false)
  {
    TrackNext(c.mac, c.log, OfferTaken(p));
  }

  lemma NoteFollows(c: Client, p: seq<byte>, told: bool, id: Ip)
    requires Follows(c, true) && (told <==> Concerns(p, 2, c.xid, c.mac) && ServerIdIn(p).Some?)
    requires id == if told then ServerIdIn(p).value else c.serverId
    ensures Follows(c.(serverId := id, log := if told then c.log + [Named(p)] else c.log), true)
  {
    if told {
      TrackNext(c.mac, c.log, Named(p));
    } else {
      assert c.(serverId := id, log := c.log) == c;
    }
  }

  lemma TakeAckFollows(c: Client, p: seq<byte>, later: int)
    requires Follows(c, true) && c.state == Requesting && Concerns(p, 2, c.xid, c.mac) && TypeOf(p) == 5
    ensures Follows(TakeAck(c, LeaseIn(p), p, later), false)
  {
    TrackNext(c.mac, c.log, AckTaken(p));
    var r := Track(c.mac, c.log + [AckTaken(p)]);
    assert r.Some? && r.value.ack.Some? && r.value.lease == LeaseIn(p) && r.value.xid == c.xid;
    TrackNext(c.mac, c.log + [AckTaken(p)], Applied(LeaseIn(p)));
    assert c.log + [AckTaken(p), Applied(LeaseIn(p))] == c.log + [AckTaken(p)] + [Applied(LeaseIn(p))];
  }

  /** Only a reply to this client counts, and counts as what any reader sees in it. */
  lemma TookFollows(c: Client, m: Parsed, told: bool, p: seq<byte>, rnd: uint32, later: int)
    requires Follows(c, true) && (told <==> Concerns(p, 2, c.xid, c.mac) && ServerIdIn(p).Some?)
    requires m.serverId == if told then ServerIdIn(p).value else c.serverId
    requires m.kind == OFFER || m.kind == ACK ==>
               Concerns(p, 2, c.xid, c.mac) && m.kind == TypeOf(p) && m.lease == LeaseIn(p)
    ensures Follows(Took(c, m, told, p, rnd, later).0, false) && Took(c, m, told, p, rnd, later).0.mac == c.mac
  {
    if c.state == Selecting && m.kind == OFFER {
      TakeOfferFollows(c, p);
    } else {
      NoteFollows(c, p, told, m.serverId);
      var c1 := c.(serverId := m.serverId, log := if told then c.log + [Named(p)] else c.log);
      EnterFollows(c1, rnd);
      if c.state == Requesting && m.kind == ACK {
        TakeAckFollows(c1, p, later);
      }
    }
  }

  lemma ReceiveFollows(c: Client, p: seq<byte>, rnd: uint32, later: int)
    requires Follows(c, true)
    ensures Follows(Receive(c, p, rnd, later).0, false) && Receive(c, p, rnd, later).0.mac == c.mac
  {
    ParseReads(p, c.xid, c.mac, c.serverId);
    TookFollows(c, Parse(p, c.xid, c.mac, c.serverId), ForUs(p, c.xid, c.mac) && ServerIdIn(p).Some?, p, rnd, later);
  }

  lemma TurnFollows(cfg: Config, c: Client, t: Turn)
    requires cfg.xmitTries > 0 && t.now >= 0 && Follows(c, false)
    ensures Follows(OneTurn(cfg, c, t).0, false) && OneTurn(cfg, c, t).0.mac == c.mac
  {
    BeforeReceiveFollows(cfg, c, t);
    var (c1, st) := BeforeReceive(cfg, c, t);
    if st.None? && t.got.Some? {
      ReceiveFollows(c1, t.got.value, t.rnd2, t.later);
    }
  }

  lemma {:induction false} RunFollows(cfg: Config, mac: Mac, rnd: uint32, acts: seq<Act>)
    requires cfg.xmitTries > 0 && forall i :: 0 <= i < |acts| ==> ActOk(acts[i])
    ensures Follows(After(cfg, Started(mac, rnd), acts), false) && After(cfg, Started(mac, rnd), acts).mac == mac
  {
    if acts != [] {
      var n := |acts| - 1;
      RunFollows(cfg, mac, rnd, acts[..n]);
      var m := After(cfg, Started(mac, rnd), acts[..n]);
      if acts[n].Take? {
        TurnFollows(cfg, m, acts[n].t);
      } else {
        EnterFollows(m.(bound := false, lease := NO_LEASE), acts[n].rnd);
      }
    }
  }

  // ------------------------------------------------------------------ every lease is earned

  /** The ACK at position a ends one round: entered at e, DISCOVER at d, OFFER at o, REQUEST at
      q, with one xid, and no other round begun in between. As their bytes say, all REQUESTs of
      the round ask for the offered address, and the first one names the server id of that
      OFFER if it had one. */
  predicate RoundWon(mac: Mac, log: seq<Event>, e: nat, d: nat, o: nat, q: nat, a: nat) {
    && e < d < o < q < a < |log|
    && log[e].Enter? && (forall i :: e < i < |log| ==> !log[i].Enter?)
    && var xid := log[e].xid;
       && Sends(log[d], 1, xid, mac)
       && TakesOffer(log[o], xid, mac)
       && Sends(log[q], 3, xid, mac) && RequestedIn(log[q].msg) == Some(YiaddrIn(log[o].msg))
       && (ServerIdIn(log[o].msg).Some? ==> ServerIdIn(log[q].msg) == ServerIdIn(log[o].msg))
       && TakesAck(log[a], xid, mac)
       && RequestsAskFor(log, e, YiaddrIn(log[o].msg))
  }

  /** The lease applied at position k of the log is what the ACK that won the round says. */
  predicate Earned(mac: Mac, log: seq<Event>, k: nat, e: nat, d: nat, o: nat, q: nat, a: nat)
    requires k < |log| && log[k].Applied?
  {
    RoundWon(mac, log[..k], e, d, o, q, a) && log[a].AckTaken? && log[k].lease == LeaseIn(log[a].msg)
  }

  lemma TrackedIsWon(mac: Mac, log: seq<Event>) returns (e: nat, d: nat, o: nat, q: nat, a: nat)
    requires Track(mac, log).Some? && Track(mac, log).value.ack.Some?
    ensures RoundWon(mac, log, e, d, o, q, a) && Track(mac, log).value.lease == LeaseIn(log[a].msg)
  {
    TrackIsTrue(mac, log);
    var r := Track(mac, log).value;
    e, d, o, q, a := r.enter, r.discover.value, r.offer.value, r.request.value, r.ack.value;
  }

  lemma TrackedIsEarned(mac: Mac, log: seq<Event>, k: nat) returns (e: nat, d: nat, o: nat, q: nat, a: nat)
    requires Track(mac, log).Some? && k < |log| && log[k].Applied?
    ensures Earned(mac, log, k, e, d, o, q, a)
  {
    TrackPrefix(mac, log, k + 1);
    assert log[..k + 1][..k] == log[..k];
    e, d, o, q, a := TrackedIsWon(mac, log[..k]);
  }

  /** Run safety: every lease ever applied, in any run, was earned. */
  lemma EveryLeaseIsEarned(cfg: Config, mac: Mac, rnd: uint32, acts: seq<Act>, k: nat)
    returns (e: nat, d: nat, o: nat, q: nat, a: nat)
    requires cfg.xmitTries > 0 && forall i :: 0 <= i < |acts| ==> ActOk(acts[i])
    requires var log := After(cfg, Started(mac, rnd), acts).log; k < |log| && log[k].Applied?
    ensures Earned(mac, After(cfg, Started(mac, rnd), acts).log, k, e, d, o, q, a)
  {
    RunFollows(cfg, mac, rnd, acts);
    e, d, o, q, a := TrackedIsEarned(mac, After(cfg, Started(mac, rnd), acts).log, k);
  }

  predicate IsReply(e: Event) {
    e.OfferTaken? || e.Named? || e.AckTaken?
  }

  predicate Arrived(acts: seq<Act>, msg: seq<byte>) {
    exists k :: 0 <= k < |acts| && acts[k].Take? && acts[k].t.got == Some(msg)
  }

  /** The log only grows, and every reply that gets into it is the datagram p. */
  predicate Logs(before: seq<Event>, after: seq<Event>, p: Option<seq<byte>>) {
    before <= after && forall i :: |before| <= i < |after| && IsReply(after[i]) ==> p == Some(after[i].msg)
  }

  lemma TookLogs(c: Client, m: Parsed, told: bool, p: seq<byte>, rnd: uint32, later: int)
    ensures Logs(c.log, Took(c, m, told, p, rnd, later).0.log, Some(p))
  {
  }

  lemma BeforeReceiveLogs(cfg: Config, c: Client, t: Turn)
    ensures Logs(c.log, BeforeReceive(cfg, c, t).0.log, None)
  {
  }

  lemma TurnLogs(cfg: Config, c: Client, t: Turn)
    ensures Logs(c.log, OneTurn(cfg, c, t).0.log, t.got)
  {
    BeforeReceiveLogs(cfg, c, t);
    var c1 := BeforeReceive(cfg, c, t).0;
    if t.got.Some? {
      var p := t.got.value;
      TookLogs(c1, Parse(p, c1.xid, c1.mac, c1.serverId), ForUs(p, c1.xid, c1.mac) && ServerIdIn(p).Some?, p, t.rnd2,
               t.later);
    }
  }

  /** In every run, each reply in the log is a datagram that a turn of the run received. */
  lemma {:induction false} EveryReplyArrived(cfg: Config, mac: Mac, rnd: uint32, acts: seq<Act>, i: nat)
    requires var log := After(cfg, Started(mac, rnd), acts).log; i < |log| && IsReply(log[i])
    ensures Arrived(acts, After(cfg, Started(mac, rnd), acts).log[i].msg)
  {
    if acts != [] {
      var n := |acts| - 1;
      var m := After(cfg, Started(mac, rnd), acts[..n]);
      var msg := After(cfg, Started(mac, rnd), acts).log[i].msg;
      if acts[n].Take? {
        TurnLogs(cfg, m, acts[n].t);
      }
      if i < |m.log| {
        EveryReplyArrived(cfg, mac, rnd, acts[..n], i);
        var k :| 0 <= k < n && acts[..n][k].Take? && acts[..n][k].t.got == Some(msg);
        assert acts[k].Take? && acts[k].t.got == Some(msg);
      } else {
        assert acts[n].Take? && acts[n].t.got == Some(msg);
      }
    }
  }

  lemma {:induction false} StepLeased(cfg: Config, c: Client, turns: seq<Turn>)
    requires Step(cfg, c, turns).1.Leased?
    ensures var (c', st) := Step(cfg, c, turns); c'.state == Bound && c'.lease == st.info
    decreases |turns|
  {
    var (c1, st) := OneTurn(cfg, c, turns[0]);
    if st.None? {
      StepLeased(cfg, c1, turns[1..]);
    }
  }

  lemma AfterOne(cfg: Config, c: Client, acts: seq<Act>, a: Act)
    ensures After(cfg, c, acts + [a]) == Acted(cfg, After(cfg, c, acts), a)
  {
    assert (acts + [a])[..|acts|] == acts;
  }

  lemma {:induction false} AfterMore(cfg: Config, c: Client, acts: seq<Act>, more: seq<Act>)
    ensures After(cfg, After(cfg, c, acts), more) == After(cfg, c, acts + more)
  {
    if more == [] {
      assert acts + more == acts;
    } else {
      var n := |more| - 1;
      AfterMore(cfg, c, acts, more[..n]);
      assert more == more[..n] + [more[n]] && acts + more == acts + more[..n] + [more[n]];
      AfterOne(cfg, After(cfg, c, acts), more[..n], more[n]);
      AfterOne(cfg, c, acts + more[..n], more[n]);
    }
  }

  /** A poll of any run that returns LEASED leaves the client bound to exactly that lease, and
      the round the client is in was won by the ACK that carried it. */
  lemma LeasedIsWon(cfg: Config, mac: Mac, rnd: uint32, acts: seq<Act>, turns: seq<Turn>)
    returns (e: nat, d: nat, o: nat, q: nat, a: nat)
    requires cfg.xmitTries > 0 && forall i :: 0 <= i < |acts| ==> ActOk(acts[i])
    requires forall i :: 0 <= i < |turns| ==> turns[i].now >= 0
    requires Step(cfg, After(cfg, Started(mac, rnd), acts), turns).1.Leased?
    ensures var (c', st) := Step(cfg, After(cfg, Started(mac, rnd), acts), turns);
            && c'.state == Bound && c'.lease == st.info
            && RoundWon(mac, c'.log, e, d, o, q, a) && st.info == LeaseIn(c'.log[a].msg)
  {
    var c := After(cfg, Started(mac, rnd), acts);
    StepLeased(cfg, c, turns);
    var k := StepIsTurns(cfg, c, turns);
    var more := seq(k, i requires 0 <= i < k => Take(turns[i]));
    AfterMore(cfg, Started(mac, rnd), acts, more);
    RunFollows(cfg, mac, rnd, acts + more);
    e, d, o, q, a := TrackedIsWon(mac, Step(cfg, c, turns).0.log);
  }

  // ------------------------------------------------------------------ what a reply does

  /** The lease that well-formed options stand for, by their numbers in RFC 2132. */
  function LeaseOf(yiaddr: Ip, items: seq<Item>): Lease {
    var none: Ip := [0, 0, 0, 0];
    var time := LastValue(items, 51, 4);
    Lease(yiaddr, Or4(LastValue(items, 1, 4), none), Or4(LastValue(items, 3, 4), none), Or4(LastValue(items, 6, 4), none),
          if time.Some? then U32(time.value[..4]) else 0)
  }

  function HalfOf(lease: Lease): nat {
    if lease.leaseS == 0 then 1800 else lease.leaseS / 2
  }

  lemma ParseOfReply(c: Client, yiaddr: Ip, items: seq<Item>, tail: seq<byte>)
    requires ItemsOk(items) && Stops(tail)
    ensures var m := Parse(Header(OP_REPLY, c.xid, yiaddr, c.mac) + EncodeItems(items) + tail, c.xid, c.mac, c.serverId);
            && m.kind == (if LastValue(items, 53, 1).Some? then LastValue(items, 53, 1).value[0] else 0)
            && m.lease == LeaseOf(yiaddr, items) && m.serverId == Or4(LastValue(items, 54, 4), c.serverId)
  {
    ParseReply(c.xid, yiaddr, c.mac, items, tail, c.xid, c.mac, c.serverId);
  }

  /** What a message of type `kind` that reads as m does, in each state: an ACK (5) ends the
      exchange with the lease it carries, an OFFER (2) is asked for at once, a NAK (6) starts
      over, and nothing else changes more than the server id. */
  lemma TookIs(c: Client, m: Parsed, told: bool, p: seq<byte>, rnd: uint32, later: int)
    ensures var (c', st) := Took(c, m, told, p, rnd, later);
            if c.state == Requesting && m.kind == 5 then
              && st == Some(Leased(m.lease)) && c'.state == Bound && c'.bound && c'.lease == m.lease
              && c'.log[|c'.log| - 1] == Applied(m.lease) && c'.renewAtUs == later + HalfOf(m.lease) * 1000000
            else if c.state == Selecting && m.kind == 2 then
              && st.None? && c'.state == Requesting && c'.offered == m.lease.ip && c'.tries == 0 && c'.nextTxUs == 0
              && c'.xid == c.xid && c'.serverId == m.serverId && c'.lease == c.lease
            else if m.kind == 6 then
              && st.None? && c'.state == Selecting && c'.xid == rnd && c'.tries == 0 && c'.nextTxUs == 0
              && c'.log[|c'.log| - 1] == Enter(rnd) && c'.lease == c.lease && c'.bound == c.bound
            else st.None? && c' == c.(serverId := m.serverId, log := c'.log)
                 && (c'.log == c.log || c'.log == c.log + [Named(p)])
  {
  }

  /** The same of a whole datagram made of well-formed options. */
  lemma ReplyIsTaken(c: Client, yiaddr: Ip, items: seq<Item>, tail: seq<byte>, rnd: uint32, later: int)
    requires ItemsOk(items) && Stops(tail) && LastValue(items, 53, 1).Some?
    ensures var kind, lease := LastValue(items, 53, 1).value[0], LeaseOf(yiaddr, items);
            var (c', st) := Receive(c, Header(OP_REPLY, c.xid, yiaddr, c.mac) + EncodeItems(items) + tail, rnd, later);
            if c.state == Requesting && kind == 5 then
              && st == Some(Leased(lease)) && c'.state == Bound && c'.bound && c'.lease == lease
              && c'.log[|c'.log| - 1] == Applied(lease) && c'.renewAtUs == later + HalfOf(lease) * 1000000
            else if c.state == Selecting && kind == 2 then
              st.None? && c'.state == Requesting && c'.offered == yiaddr && c'.tries == 0 && c'.nextTxUs == 0
            else if kind == 6 then
              st.None? && c'.state == Selecting && c'.xid == rnd && c'.lease == c.lease && c'.bound == c.bound
            else st.None? && c' == c.(serverId := c'.serverId, log := c'.log)
  {
    var p := Header(OP_REPLY, c.xid, yiaddr, c.mac) + EncodeItems(items) + tail;
    ParseOfReply(c, yiaddr, items, tail);
    TookIs(c, Parse(p, c.xid, c.mac, c.serverId), ForUs(p, c.xid, c.mac) && ServerIdIn(p).Some?, p, rnd, later);
  }

  /** A datagram of any bytes that is no reply to this client changes nothing. */
  lemma OthersAreIgnored(c: Client, p: seq<byte>, rnd: uint32, later: int)
    requires !Concerns(p, 2, c.xid, c.mac)
    ensures Receive(c, p, rnd, later) == (c, None)
  {
    ParseReads(p, c.xid, c.mac, c.serverId);
    assert c.(serverId := c.serverId) == c;
  }

  lemma {:induction false} StaysBound(cfg: Config, c: Client, idle: seq<Turn>)
    requires c.state == Bound && forall i :: 0 <= i < |idle| ==> idle[i].now < c.renewAtUs
    ensures After(cfg, c, seq(|idle|, i requires 0 <= i < |idle| => Take(idle[i]))) == c
  {
    if idle != [] {
      var n := |idle| - 1;
      StaysBound(cfg, c, idle[..n]);
      var acts := seq(|idle|, i requires 0 <= i < |idle| => Take(idle[i]));
      assert acts == seq(n, i requires 0 <= i < n => Take(idle[..n][i])) + [Take(idle[n])];
      AfterOne(cfg, c, seq(n, i requires 0 <= i < n => Take(idle[..n][i])), Take(idle[n]));
    }
  }

  lemma FreshLease(cfg: Config, c: Client, t: Turn)
    requires c.state != Bound && OneTurn(cfg, c, t).1.Some? && OneTurn(cfg, c, t).1.value.Leased?
    ensures var (c', st) := OneTurn(cfg, c, t);
            && c'.state == Bound && st == Some(Leased(c'.lease))
            && c'.renewAtUs == t.later + HalfOf(c'.lease) * 1000000
  {
    var (c1, st1) := BeforeReceive(cfg, c, t);
    if t.got.Some? && t.got.value != [] {
      var p := t.got.value;
      TookIs(c1, Parse(p, c1.xid, c1.mac, c1.serverId), ForUs(p, c1.xid, c1.mac) && ServerIdIn(p).Some?, p, t.rnd2, t.later);
    }
  }

  /** A lease is used for half its time, or half an hour if it has none: until then every turn
      reports it and changes nothing, and the first turn from then on enters a new round. */
  lemma LeaseIsUsedHalf(cfg: Config, c: Client, t: Turn, idle: seq<Turn>, next: Turn)
    requires cfg.xmitTries > 0 && c.state != Bound && OneTurn(cfg, c, t).1.Some? && OneTurn(cfg, c, t).1.value.Leased?
    requires var due := t.later + HalfOf(OneTurn(cfg, c, t).1.value.info) * 1000000;
             next.now >= due && next.now >= 0 && forall i :: 0 <= i < |idle| ==> idle[i].now < due
    ensures var (c', st) := OneTurn(cfg, c, t);
            && c'.state == Bound && st == Some(Leased(c'.lease))
            && After(cfg, c', seq(|idle|, i requires 0 <= i < |idle| => Take(idle[i]))) == c'
            && (forall i :: 0 <= i < |idle| ==> OneTurn(cfg, c', idle[i]) == (c', st))
            && var after := BeforeReceive(cfg, c', next).0;
               after.state == Selecting && after.xid == next.rnd && after.tries == 1
               && after.log[..|c'.log| + 1] == c'.log + [Enter(next.rnd)]
  {
    var (c', st) := OneTurn(cfg, c, t);
    FreshLease(cfg, c, t);
    StaysBound(cfg, c', idle);
  }

  // ------------------------------------------------------------------ which server a REQUEST names

  /** The server id of the last matching reply since the round began that carried one. */
  function LastNamed(log: seq<Event>): Option<Ip> {
    if log == [] then None
    else
      var before, last := LastNamed(log[..|log| - 1]), log[|log| - 1];
      match last
      case Enter(_) => None
      case OfferTaken(msg) => Later(ServerIdIn(msg), before)
      case Named(msg) => Later(ServerIdIn(msg), before)
      case _ => before
  }

  lemma {:induction false} TrackNamesLast(mac: Mac, log: seq<Event>)
    requires Track(mac, log).Some?
    ensures Track(mac, log).value.named == LastNamed(log)
  {
    var n := |log| - 1;
    if n > 0 {
      TrackNamesLast(mac, log[..n]);
    } else {
      assert log[..0] == [];
    }
  }

  predicate RequestAt(log: seq<Event>, i: nat) {
    i < |log| && log[i].Tx? && TypeOf(log[i].msg) == 3
  }

  /** o is the OFFER that the round at position i goes by. */
  predicate OfferOf(log: seq<Event>, i: nat, o: nat) {
    o < i < |log| && log[o].OfferTaken? && forall k :: o < k < i ==> !log[k].OfferTaken? && !log[k].Enter?
  }

  lemma JudgedRequest(mac: Mac, r: Round, n: nat, e: Event)
    requires Judge(mac, r, n, e).Some? && e.Tx? && TypeOf(e.msg) == 3
    ensures r.offer.Some? && RequestedIn(e.msg) == Some(r.yiaddr) && ServerIdIn(e.msg) == Some(OrElse(r.named, NO_IP))
  {
  }

  /** What a true round says about its OFFER. */
  lemma OfferOfRound(mac: Mac, log: seq<Event>, r: Round)
    requires RoundTrue(mac, log, r) && r.offer.Some?
    ensures var o := r.offer.value;
            && o < |log| && log[o].OfferTaken? && (forall k :: o < k < |log| ==> !log[k].OfferTaken? && !log[k].Enter?)
            && r.yiaddr == YiaddrIn(log[o].msg) && r.offerNamed == ServerIdIn(log[o].msg)
            && (r.offerNamed.Some? ==> r.named.Some?)
            && (r.offerNamed.Some? && (forall k :: o < k < |log| ==> !log[k].Tx?) ==> r.named == r.offerNamed)
  {
  }

  lemma RequestOfRound(mac: Mac, before: seq<Event>, e: Event) returns (o: nat)
    requires Track(mac, before).Some? && Judge(mac, Track(mac, before).value, |before|, e).Some?
    requires e.Tx? && TypeOf(e.msg) == 3
    ensures OfferOf(before + [e], |before|, o) && RequestedIn(e.msg) == Some(YiaddrIn(before[o].msg))
    ensures ServerIdIn(e.msg) == Some(OrElse(LastNamed(before), NO_IP))
    ensures ServerIdIn(before[o].msg).Some? ==> LastNamed(before).Some?
    ensures ServerIdIn(before[o].msg).Some? && (forall k :: o < k < |before| ==> !before[k].Tx?) ==>
              LastNamed(before) == ServerIdIn(before[o].msg)
  {
    TrackIsTrue(mac, before);
    TrackNamesLast(mac, before);
    var r := Track(mac, before).value;
    JudgedRequest(mac, r, |before|, e);
    OfferOfRound(mac, before, r);
    o := r.offer.value;
  }

  lemma TrackedRequest(mac: Mac, log: seq<Event>, i: nat) returns (o: nat)
    requires Track(mac, log).Some? && RequestAt(log, i)
    ensures OfferOf(log, i, o) && RequestedIn(log[i].msg) == Some(YiaddrIn(log[o].msg))
    ensures ServerIdIn(log[i].msg) == Some(OrElse(LastNamed(log[..i]), NO_IP))
    ensures ServerIdIn(log[o].msg).Some? ==> LastNamed(log[..i]).Some?
    ensures ServerIdIn(log[o].msg).Some? && (forall k :: o < k < i ==> !log[k].Tx?) ==>
              LastNamed(log[..i]) == ServerIdIn(log[o].msg)
  {
    TrackPrefix(mac, log, i + 1);
    assert log[..i + 1][..i] == log[..i];
    assert i > 0;
    o := RequestOfRound(mac, log[..i], log[i]);
    assert forall k :: 0 <= k < i ==> log[..i][k] == log[k] == (log[..i] + [log[i]])[k];
  }

  /** In every run, the bytes of each REQUEST ask for the address in the accepted OFFER, and name
      the server id stored last since the round began, or none; so they name the server of that
      OFFER if and only if the last matching reply of the round to carry a server id, the OFFER
      included, carried that one. The first REQUEST after an OFFER does so if and only if the
      OFFER carried a server id. */
  lemma RequestNamesServerIff(cfg: Config, mac: Mac, rnd: uint32, acts: seq<Act>, i: nat) returns (o: nat)
    requires cfg.xmitTries > 0 && forall k :: 0 <= k < |acts| ==> ActOk(acts[k])
    requires RequestAt(After(cfg, Started(mac, rnd), acts).log, i)
    ensures var log := After(cfg, Started(mac, rnd), acts).log;
            var last, asked := LastNamed(log[..i]), ServerIdIn(log[i].msg);
            && OfferOf(log, i, o) && Arrived(acts, log[o].msg)
            && RequestedIn(log[i].msg) == Some(YiaddrIn(log[o].msg))
            && asked == Some(OrElse(last, NO_IP))
            && (ServerIdIn(log[o].msg) == asked <==> ServerIdIn(log[o].msg).Some? && last == ServerIdIn(log[o].msg))
            && ((forall k :: o < k < i ==> !log[k].Tx?) ==>
                  (ServerIdIn(log[o].msg) == asked <==> ServerIdIn(log[o].msg).Some?))
  {
    RunFollows(cfg, mac, rnd, acts);
    o := TrackedRequest(mac, After(cfg, Started(mac, rnd), acts).log, i);
    EveryReplyArrived(cfg, mac, rnd, acts, o);
  }

  lemma NextRequestNames(cfg: Config, c: Client, m: Parsed, told: bool, p: seq<byte>, rnd: uint32, later: int, now: int)
    requires c.state == Requesting && m.kind != ACK && m.kind != NAK
    ensures var log := Transmit(cfg, Took(c, m, told, p, rnd, later).0, now).log;
            log[|log| - 1].Tx? && ServerIdIn(log[|log| - 1].msg) == Some(m.serverId)
  {
    BuildReads(REQUEST, c.xid, c.mac, c.offered, m.serverId);
  }

  /** One reply made of well-formed options, to a client with a REQUEST under way, and then the
      next REQUEST: the server id stays what it was if and only if the reply is for another
      client, carries no usable option 54, or carries that very id in it. */
  lemma ReplyKeepsServerIff(cfg: Config, c: Client, xid: uint32, yiaddr: Ip, mac: Mac, items: seq<Item>, tail: seq<byte>,
                            rnd: uint32, later: int, now: int)
    requires c.state == Requesting && ItemsOk(items) && Stops(tail)
    requires var kind := Meaning(items, Fields(0, NO_IP, NO_IP, NO_IP, 0, NO_IP)).kind; kind != ACK && kind != NAK
    ensures var p := Header(OP_REPLY, xid, yiaddr, mac) + EncodeItems(items) + tail;
            var c' := Transmit(cfg, Receive(c, p, rnd, later).0, now);
            var id := LastValue(items, 54, 4);
            && c'.log[|c'.log| - 1].Tx?
            && (ServerIdIn(c'.log[|c'.log| - 1].msg) == Some(c.serverId)
                <==> xid != c.xid || mac != c.mac || id.None? || id.value[..4] == c.serverId)
  {
    var p := Header(OP_REPLY, xid, yiaddr, mac) + EncodeItems(items) + tail;
    var m, id := Parse(p, c.xid, c.mac, c.serverId), LastValue(items, 54, 4);
    ParseReply(xid, yiaddr, mac, items, tail, c.xid, c.mac, c.serverId);
    assert m.serverId == if xid == c.xid && mac == c.mac && id.Some? then id.value[..4] else c.serverId;
    assert m.kind != ACK && m.kind != NAK;
    NextRequestNames(cfg, c, m, ForUs(p, c.xid, c.mac) && ServerIdIn(p).Some?, p, rnd, later, now);
  }

  /** A reply of the given kind for the given round, carrying a server id. */
  function ReplyFrom(kind: byte, xid: uint32, yiaddr: Ip, mac: Mac, server: Ip): seq<byte> {
    Header(OP_REPLY, xid, yiaddr, mac) + EncodeItems([Opt(OPT_MSG_TYPE, [kind]), Opt(OPT_SERVER_ID, server)]) + []
  }

  lemma ReplyFromReads(kind: byte, xid: uint32, yiaddr: Ip, mac: Mac, server: Ip, sid: Ip)
    ensures var p := ReplyFrom(kind, xid, yiaddr, mac, server);
            var m := Parse(p, xid, mac, sid);
            && p != [] && m.kind == kind && m.lease.ip == yiaddr && m.serverId == server
            && ForUs(p, xid, mac) && ServerIdIn(p).Some?
  {
    var items := [Opt(OPT_MSG_TYPE, [kind]), Opt(OPT_SERVER_ID, server)];
    var p := ReplyFrom(kind, xid, yiaddr, mac, server);
    assert items[..1] == [items[0]] && items[..1][..0] == [];
    assert server[..4] == server;
    ReplyReads(xid, yiaddr, mac, items, [], 53, 1);
    ReplyReads(xid, yiaddr, mac, items, [], 54, 4);
    ParseReads(p, xid, mac, sid);
  }

  /** Two datagrams arrive, and then nothing until the next transmission is due. */
  function TwoReplies(cfg: Config, first: seq<byte>, second: seq<byte>): (acts: seq<Act>)
    ensures forall i :: 0 <= i < |acts| ==> ActOk(acts[i])
  {
    [Take(Turn(0, 0, 0, Some(first), 0)), Take(Turn(0, 0, 0, Some(second), 0)), Take(Turn(Backoff(cfg, 1), 0, 0, None, 0))]
  }

  lemma AfterThree(cfg: Config, c0: Client, acts: seq<Act>, c1: Client, c2: Client)
    requires |acts| == 3 && acts[0].Take? && acts[1].Take? && acts[2].Take?
    requires c1 == OneTurn(cfg, c0, acts[0].t).0 && c2 == OneTurn(cfg, c1, acts[1].t).0
    ensures After(cfg, c0, acts) == OneTurn(cfg, c2, acts[2].t).0
  {
    var two, one := acts[..2], acts[..1];
    assert two[..1] == one && one[..0] == [];
    assert After(cfg, c0, one) == c1;
    assert After(cfg, c0, two) == c2;
  }

  // Its three turns.

  lemma OfferTurn(cfg: Config, c: Client, t: Turn, m: Parsed, p: seq<byte>)
    requires cfg.xmitTries >= 2 && c.state == Selecting && c.tries == 0 && c.nextTxUs == 0 == t.now && |c.log| == 1
    requires t.got == Some(p) && p != [] && m == Parse(p, c.xid, c.mac, c.serverId) && m.kind == OFFER
    ensures var c' := OneTurn(cfg, c, t).0;
            && c'.state == Requesting && c'.tries == 0 && c'.nextTxUs == 0 && c'.offered == m.lease.ip
            && c'.serverId == m.serverId && c'.xid == c.xid && c'.mac == c.mac
            && |c'.log| == 3 && c'.log[0] == c.log[0] && Sends(c'.log[1], 1, c.xid, c.mac) && c'.log[2] == OfferTaken(p)
  {
    BuildReads(DISCOVER, c.xid, c.mac, c.offered, c.serverId);
    var c1 := Transmit(cfg, c, t.now);
    assert BeforeReceive(cfg, c, t) == (c1, None);
    assert c1.log[1].Tx?;
  }

  lemma LateTurn(cfg: Config, c: Client, t: Turn, m: Parsed, p: seq<byte>)
    requires cfg.xmitTries >= 2 && c.state == Requesting && c.tries == 0 && c.nextTxUs == 0 == t.now
    requires t.got == Some(p) && p != [] && m == Parse(p, c.xid, c.mac, c.serverId) && m.kind == OFFER
    requires ForUs(p, c.xid, c.mac) && ServerIdIn(p).Some?
    ensures var c' := OneTurn(cfg, c, t).0;
            && c'.state == Requesting && c'.tries == 1 && c'.nextTxUs == Backoff(cfg, 1) && c'.offered == c.offered
            && c'.serverId == m.serverId && c'.xid == c.xid && c'.mac == c.mac
            && |c'.log| == |c.log| + 2 && c.log < c'.log && Sends(c'.log[|c.log|], 3, c.xid, c.mac)
            && ServerIdIn(c'.log[|c.log|].msg) == Some(c.serverId) && c'.log[|c.log| + 1] == Named(p)
  {
    BuildReads(REQUEST, c.xid, c.mac, c.offered, c.serverId);
    var c1 := Transmit(cfg, c, t.now);
    assert BeforeReceive(cfg, c, t) == (c1, None);
  }

  lemma SilentTurn(cfg: Config, c: Client, t: Turn)
    requires cfg.xmitTries > c.tries && c.state == Requesting && c.nextTxUs <= t.now && t.got.None?
    ensures var log := OneTurn(cfg, c, t).0.log;
            |log| == |c.log| + 1 && c.log < log && Sends(log[|c.log|], 3, c.xid, c.mac)
            && ServerIdIn(log[|c.log|].msg) == Some(c.serverId)
  {
    BuildReads(REQUEST, c.xid, c.mac, c.offered, c.serverId);
  }

  lemma TwoRepliesRun(cfg: Config, mac: Mac, rnd: uint32, first: seq<byte>, second: seq<byte>, a: Ip, b: Ip)
    requires cfg.xmitTries >= 2 && first != [] && second != []
    requires Parse(first, rnd, mac, NO_IP).kind == OFFER && Parse(first, rnd, mac, NO_IP).serverId == a
    requires Parse(second, rnd, mac, a).kind == OFFER && Parse(second, rnd, mac, a).serverId == b
    requires ForUs(second, rnd, mac) && ServerIdIn(second).Some?
    ensures var log := After(cfg, Started(mac, rnd), TwoReplies(cfg, first, second)).log;
            && |log| == 6 && log[0] == Enter(rnd) && Sends(log[1], 1, rnd, mac) && log[2] == OfferTaken(first)
            && Sends(log[3], 3, rnd, mac) && ServerIdIn(log[3].msg) == Some(a) && log[4] == Named(second)
            && Sends(log[5], 3, rnd, mac) && ServerIdIn(log[5].msg) == Some(b)
  {
    var acts, c0 := TwoReplies(cfg, first, second), Started(mac, rnd);
    OfferTurn(cfg, c0, acts[0].t, Parse(first, rnd, mac, NO_IP), first);
    var c1 := OneTurn(cfg, c0, acts[0].t).0;
    LateTurn(cfg, c1, acts[1].t, Parse(second, rnd, mac, a), second);
    var c2 := OneTurn(cfg, c1, acts[1].t).0;
    SilentTurn(cfg, c2, acts[2].t);
    AfterThree(cfg, c0, acts, c1, c2);
  }

  /** A server that was not asked takes the second REQUEST over: DISCOVER, an OFFER from server
      a, REQUEST, another OFFER from server b, REQUEST again. It is a run of every client that
      may transmit twice; for different servers its second REQUEST names one whose OFFER was
      not taken. */
  lemma LaterReplyRenamesServer(cfg: Config, mac: Mac, rnd: uint32, yiaddr: Ip, a: Ip, b: Ip)
    requires cfg.xmitTries >= 2
    ensures var first, second := ReplyFrom(OFFER, rnd, yiaddr, mac, a), ReplyFrom(OFFER, rnd, yiaddr, mac, b);
            var log := After(cfg, Started(mac, rnd), TwoReplies(cfg, first, second)).log;
            && |log| == 6 && log[0] == Enter(rnd) && Sends(log[1], 1, rnd, mac) && log[2] == OfferTaken(first)
            && Sends(log[3], 3, rnd, mac) && ServerIdIn(log[3].msg) == Some(a) && log[4] == Named(second)
            && Sends(log[5], 3, rnd, mac) && ServerIdIn(log[5].msg) == Some(b)
  {
    ReplyFromReads(OFFER, rnd, yiaddr, mac, a, NO_IP);
    ReplyFromReads(OFFER, rnd, yiaddr, mac, b, a);
    TwoRepliesRun(cfg, mac, rnd, ReplyFrom(OFFER, rnd, yiaddr, mac, a), ReplyFrom(OFFER, rnd, yiaddr, mac, b), a, b);
  }

  // ------------------------------------------------------------------ backoff

  /** The transmissions since the last reset: a new round or an accepted OFFER. */
  function Sent(log: seq<Event>): seq<Event> {
    if log == [] then []
    else
      var init, last := log[..|log| - 1], log[|log| - 1];
      match last
      case Enter(_) => []
      case OfferTaken(_) => []
      case Tx(_, _) => Sent(init) + [last]
      case _ => Sent(init)
  }

  predicate SameKind(sent: seq<Event>, kind: byte) {
    forall i :: 0 <= i < |sent| ==> sent[i].Tx? && TypeOf(sent[i].msg) == kind
  }

  /** The (i + 1)th transmission comes at least i intervals after the i-th. */
  predicate Spaced(cfg: Config, sent: seq<Event>) {
    && (forall i :: 0 <= i < |sent| ==> sent[i].Tx?)
    && forall i :: 0 < i < |sent| ==> sent[i].at >= sent[i - 1].at + Backoff(cfg, i)
  }

  predicate Paced(cfg: Config, c: Client) {
    c.state != Bound ==>
      var sent := Sent(c.log);
      && |sent| == c.tries <= cfg.xmitTries
      && Spaced(cfg, sent)
      && (c.tries > 0 ==> c.nextTxUs == sent[c.tries - 1].at + Backoff(cfg, c.tries))
  }

  lemma EnterPaced(cfg: Config, c: Client, xid: uint32)
    ensures Paced(cfg, EnterSelecting(c, xid))
  {
  }

  lemma SentNext(log: seq<Event>, e: Event)
    ensures Sent(log + [e]) == match e
                               case Enter(_) => []
                               case OfferTaken(_) => []
                               case Tx(_, _) => Sent(log) + [e]
                               case _ => Sent(log)
  {
  }

  lemma OneMoreSpaced(cfg: Config, sent: seq<Event>, e: Event)
    requires Spaced(cfg, sent) && e.Tx? && (sent != [] ==> e.at >= sent[|sent| - 1].at + Backoff(cfg, |sent|))
    ensures Spaced(cfg, sent + [e])
  {
  }

  lemma SendPaced(cfg: Config, c: Client, msg: seq<byte>, now: int)
    requires Paced(cfg, c) && c.state != Bound && now >= c.nextTxUs && c.tries < cfg.xmitTries
    ensures Paced(cfg, c.(tries := c.tries + 1, nextTxUs := now + Backoff(cfg, c.tries + 1), log := c.log + [Tx(msg, now)]))
  {
    SentNext(c.log, Tx(msg, now));
    OneMoreSpaced(cfg, Sent(c.log), Tx(msg, now));
  }

  lemma TransmitPaced(cfg: Config, c: Client, now: int)
    requires Paced(cfg, c) && c.state != Bound && now >= c.nextTxUs && c.tries < cfg.xmitTries
    ensures Paced(cfg, Transmit(cfg, c, now))
  {
    SendPaced(cfg, c, Build(if c.state == Selecting then DISCOVER else REQUEST, c.xid, c.mac, c.offered, c.serverId), now);
  }

  lemma BeforeReceivePaced(cfg: Config, c: Client, t: Turn)
    requires Paced(cfg, c)
    ensures Paced(cfg, BeforeReceive(cfg, c, t).0)
  {
    if c.state == Bound && t.now < c.renewAtUs {
    } else {
      EnterPaced(cfg, c, t.rnd);
      var c1 := if c.state == Bound then EnterSelecting(c, t.rnd) else c;
      if t.now < c1.nextTxUs {
      } else if c1.tries >= cfg.xmitTries {
        EnterPaced(cfg, c1.(log := c1.log + [GaveUp(t.now)]), t.rnd);
      } else {
        TransmitPaced(cfg, c1, t.now);
      }
    }
  }

  lemma NotePaced(cfg: Config, c: Client, id: Ip, told: bool, p: seq<byte>)
    requires Paced(cfg, c)
    ensures Paced(cfg, c.(serverId := id, log := if told then c.log + [Named(p)] else c.log))
  {
    SentNext(c.log, Named(p));
  }

  lemma TookPaced(cfg: Config, c: Client, m: Parsed, told: bool, p: seq<byte>, rnd: uint32, later: int)
    requires Paced(cfg, c)
    ensures Paced(cfg, Took(c, m, told, p, rnd, later).0)
  {
    var c1 := c.(serverId := m.serverId, log := if told then c.log + [Named(p)] else c.log);
    if c.state == Selecting && m.kind == OFFER {
      SentNext(c.log, OfferTaken(p));
    } else if m.kind == NAK {
      EnterPaced(cfg, c1, rnd);
    } else if c.state == Requesting && m.kind == ACK {
    } else {
      NotePaced(cfg, c, m.serverId, told, p);
      assert Took(c, m, told, p, rnd, later).0 == c1;
    }
  }

  /** The (k + 1)th wait of a round is at least k + 1 intervals, whatever the clock and the
      datagrams do. */
  lemma {:induction false} RunPaced(cfg: Config, mac: Mac, rnd: uint32, acts: seq<Act>)
    ensures Paced(cfg, After(cfg, Started(mac, rnd), acts))
  {
    if acts == [] {
      assert [Enter(rnd)][..0] == [];
    } else {
      var n := |acts| - 1;
      RunPaced(cfg, mac, rnd, acts[..n]);
      var m := After(cfg, Started(mac, rnd), acts[..n]);
      if acts[n].Take? {
        var t := acts[n].t;
        BeforeReceivePaced(cfg, m, t);
        var c1 := BeforeReceive(cfg, m, t).0;
        if t.got.Some? {
          var p := t.got.value;
          TookPaced(cfg, c1, Parse(p, c1.xid, c1.mac, c1.serverId), ForUs(p, c1.xid, c1.mac) && ServerIdIn(p).Some?,
                    p, t.rnd2, t.later);
        }
      } else {
        EnterPaced(cfg, m.(bound := false, lease := Lease(NO_IP, NO_IP, NO_IP, NO_IP, 0)), acts[n].rnd);
      }
    }
  }

  /** What has been sent since the last reset is all of one type. */
  predicate OneKind(c: Client) {
    c.state != Bound ==> SameKind(Sent(c.log), if c.state == Selecting then 1 else 3)
  }

  lemma OneMoreOfKind(sent: seq<Event>, e: Event, kind: byte)
    requires SameKind(sent, kind) && e.Tx? && TypeOf(e.msg) == kind
    ensures SameKind(sent + [e], kind)
  {
  }

  lemma TransmitKeepsKind(cfg: Config, c: Client, now: int)
    requires OneKind(c) && c.state != Bound
    ensures OneKind(Transmit(cfg, c, now))
  {
    var kind := if c.state == Selecting then DISCOVER else REQUEST;
    var e := Tx(Build(kind, c.xid, c.mac, c.offered, c.serverId), now);
    BuildReads(kind, c.xid, c.mac, c.offered, c.serverId);
    SentNext(c.log, e);
    OneMoreOfKind(Sent(c.log), e, kind);
  }

  lemma EnterKeepsKind(c: Client, xid: uint32)
    ensures OneKind(EnterSelecting(c, xid))
  {
    SentNext(c.log, Enter(xid));
  }

  lemma BeforeReceiveKeepsKind(cfg: Config, c: Client, t: Turn)
    requires OneKind(c)
    ensures OneKind(BeforeReceive(cfg, c, t).0)
  {
    if c.state == Bound && t.now < c.renewAtUs {
    } else {
      EnterKeepsKind(c, t.rnd);
      var c1 := if c.state == Bound then EnterSelecting(c, t.rnd) else c;
      if t.now < c1.nextTxUs {
      } else if c1.tries >= cfg.xmitTries {
        EnterKeepsKind(c1.(log := c1.log + [GaveUp(t.now)]), t.rnd);
      } else {
        TransmitKeepsKind(cfg, c1, t.now);
      }
    }
  }

  lemma TookKeepsKind(c: Client, m: Parsed, told: bool, p: seq<byte>, rnd: uint32, later: int)
    requires OneKind(c)
    ensures OneKind(Took(c, m, told, p, rnd, later).0)
  {
    SentNext(c.log, OfferTaken(p));
    SentNext(c.log, Named(p));
    SentNext(if told then c.log + [Named(p)] else c.log, Enter(rnd));
  }

  lemma {:induction false} RunKeepsKind(cfg: Config, mac: Mac, rnd: uint32, acts: seq<Act>)
    ensures OneKind(After(cfg, Started(mac, rnd), acts))
  {
    if acts == [] {
      assert [Enter(rnd)][..0] == [];
    } else {
      var n := |acts| - 1;
      RunKeepsKind(cfg, mac, rnd, acts[..n]);
      var m := After(cfg, Started(mac, rnd), acts[..n]);
      match acts[n] {
        case Take(t) =>
          BeforeReceiveKeepsKind(cfg, m, t);
          var c1 := BeforeReceive(cfg, m, t).0;
          if t.got.Some? {
            var p := t.got.value;
            TookKeepsKind(c1, Parse(p, c1.xid, c1.mac, c1.serverId), ForUs(p, c1.xid, c1.mac) && ServerIdIn(p).Some?,
                          p, t.rnd2, t.later);
          }
        case Restart(rnd) => SentNext(m.log, Enter(rnd));
      }
    }
  }

  /** The sum of the first k intervals. */
  function Waited(cfg: Config, k: nat): nat {
    if k == 0 then 0 else Waited(cfg, k - 1) + Backoff(cfg, k)
  }

  lemma Triangle(us: nat, k: nat)
    requires k > 0
    ensures us * ((k - 1) * k) + 2 * (us * k) == us * (k * (k + 1))
  {
  }

  lemma {:induction false} WaitedClosed(cfg: Config, k: nat)
    ensures 2 * Waited(cfg, k) == cfg.intervalMs * 1000 * (k * (k + 1))
  {
    if k > 0 {
      WaitedClosed(cfg, k - 1);
      Triangle(cfg.intervalMs * 1000, k);
    }
  }

  lemma {:induction false} SpacedAdds(cfg: Config, sent: seq<Event>, k: nat)
    requires Spaced(cfg, sent) && k < |sent|
    ensures sent[k].at >= sent[0].at + Waited(cfg, k)
  {
    if k > 0 {
      SpacedAdds(cfg, sent, k - 1);
    }
  }

  /** All k(k + 1)/2 intervals have passed between the first transmission and `at`. */
  predicate Rested(cfg: Config, sent: seq<Event>, at: int, k: nat) {
    |sent| > 0 && sent[0].Tx? && 2 * (at - sent[0].at) >= cfg.intervalMs * 1000 * (k * (k + 1))
  }

  lemma SpacedRests(cfg: Config, sent: seq<Event>, at: int)
    requires Spaced(cfg, sent) && |sent| > 0 && at >= sent[|sent| - 1].at + Backoff(cfg, |sent|)
    ensures forall k :: 0 <= k < |sent| ==> sent[k].Tx? && Rested(cfg, sent, sent[k].at, k)
    ensures Rested(cfg, sent, at, |sent|)
  {
    forall k | 0 <= k < |sent| ensures Rested(cfg, sent, sent[k].at, k) {
      SpacedAdds(cfg, sent, k);
      WaitedClosed(cfg, k);
    }
    SpacedAdds(cfg, sent, |sent| - 1);
    WaitedClosed(cfg, |sent|);
  }

  lemma FailedAfter(cfg: Config, c: Client, t: Turn)
    requires cfg.xmitTries > 0 && OneTurn(cfg, c, t).1 == Some(Failed)
    ensures c.state != Bound && c.tries >= cfg.xmitTries && t.now >= c.nextTxUs
    ensures var c' := OneTurn(cfg, c, t).0;
            c'.log == c.log + [GaveUp(t.now), Enter(t.rnd)] && c'.state == Selecting && c'.xid == t.rnd && c'.tries == 0
  {
    var (c1, st) := BeforeReceive(cfg, c, t);
    if st.None? && t.got.Some? {
      var p := t.got.value;
      TookIs(c1, Parse(p, c1.xid, c1.mac, c1.serverId), ForUs(p, c1.xid, c1.mac) && ServerIdIn(p).Some?, p, t.rnd2, t.later);
    }
    assert c.log + [GaveUp(t.now)] + [Enter(t.rnd)] == c.log + [GaveUp(t.now), Enter(t.rnd)];
  }

  /** The client then starts over. FAILED is reported only after exactly xmitTries transmissions of one message type since
      the last reset, the (k + 1)th at least interval * k(k + 1)/2 after the first, and itself
      at least interval * T(T + 1)/2 after it; whatever the clock and the datagrams did. */
  lemma FailureIsEarned(cfg: Config, mac: Mac, rnd: uint32, acts: seq<Act>, t: Turn)
    requires cfg.xmitTries > 0
    requires OneTurn(cfg, After(cfg, Started(mac, rnd), acts), t).1 == Some(Failed)
    ensures var sent := Sent(After(cfg, Started(mac, rnd), acts).log);
            && |sent| == cfg.xmitTries
            && (SameKind(sent, 1) || SameKind(sent, 3))
            && (forall k :: 0 <= k < |sent| ==> sent[k].Tx? && Rested(cfg, sent, sent[k].at, k))
            && Rested(cfg, sent, t.now, cfg.xmitTries)
    ensures var c, c' := After(cfg, Started(mac, rnd), acts), OneTurn(cfg, After(cfg, Started(mac, rnd), acts), t).0;
            c'.log == c.log + [GaveUp(t.now), Enter(t.rnd)] && c'.state == Selecting && c'.xid == t.rnd && c'.tries == 0
  {
    var c := After(cfg, Started(mac, rnd), acts);
    RunPaced(cfg, mac, rnd, acts);
    RunKeepsKind(cfg, mac, rnd, acts);
    FailedAfter(cfg, c, t);
    SpacedRests(cfg, Sent(c.log), t.now);
  }
}
