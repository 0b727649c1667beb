/** The DHCP client engine of port/backend/src/wsm_dhcp.c: one poll of dhcp_step as a function
    of the client, the clock, the random numbers and the datagrams that arrive. */
module Dhcp {
  import opened Bytes
  import opened DhcpWire

  const DEFAULT_RENEW_S := 1800
  const BUF_SIZE := 2048

  datatype State = Selecting | Requesting | Bound
  datatype Status = Pending | Leased(info: Lease) | Failed

  /** Fixed at creation: datagrams per poll, transmissions per round, their base spacing. */
  datatype Config = Config(stepPackets: byte, xmitTries: byte, intervalMs: uint32)

  /** What happened, in order: a new round, a message sent, the datagram of an accepted OFFER,
      any other matching reply that carried a server id, the datagram of a matching ACK, a lease
      handed to apply_lease, and a poll that gave up. Messages are logged as their bytes. */
  datatype Event =
    | Enter(xid: uint32)
    | Tx(msg: seq<byte>, at: int)
    | OfferTaken(msg: seq<byte>)
    | Named(msg: seq<byte>)
    | AckTaken(msg: seq<byte>)
    | Applied(lease: Lease)
    | GaveUp(at: int)

  datatype Client = Client(
    state: State, xid: uint32, mac: Mac, serverId: Ip, offered: Ip, tries: nat, nextTxUs: int,
    renewAtUs: int, lease: Lease, bound: bool, log: seq<Event>)

  /** What one turn of the poll loop reads: the clock, esp_random twice, at most one datagram,
      and the clock again when a lease is taken. */
  datatype Turn = Turn(now: int, rnd: uint32, rnd2: uint32, got: Option<seq<byte>>, later: int)

  function EnterSelecting(c: Client, xid: uint32): Client {
    c.(state := Selecting, tries := 0, nextTxUs := 0, xid := xid, serverId := NO_IP, offered := NO_IP,
       log := c.log + [Enter(xid)])
  }

  /** The wait after the k-th transmission of a round. */
  function Backoff(cfg: Config, k: nat): nat {
    cfg.intervalMs * 1000 * k
  }

  function Transmit(cfg: Config, c: Client, now: int): Client {
    var kind := if c.state == Selecting then DISCOVER else REQUEST;
    c.(tries := c.tries + 1, nextTxUs := now + Backoff(cfg, c.tries + 1),
       log := c.log + [Tx(Build(kind, c.xid, c.mac, c.offered, c.serverId), now)])
  }

  /** The part of a turn before the receive; Some(status) ends the poll there. */
  function BeforeReceive(cfg: Config, c: Client, t: Turn): (Client, Option<Status>) {
    if c.state == Bound && t.now < c.renewAtUs then (c, Some(Leased(c.lease)))
    else
      var c := if c.state == Bound then EnterSelecting(c, t.rnd) else c;
      if t.now < c.nextTxUs then (c, None)
      else if c.tries >= cfg.xmitTries then
        (EnterSelecting(c.(log := c.log + [GaveUp(t.now)]), t.rnd), Some(Failed))
      else (Transmit(cfg, c, t.now), None)
  }

  function RenewIn(lease: Lease): nat {
    if lease.leaseS != 0 then lease.leaseS / 2 else DEFAULT_RENEW_S
  }

  function TakeOffer(c: Client, yiaddr: Ip, p: seq<byte>): Client {
    c.(offered := yiaddr, state := Requesting, tries := 0, nextTxUs := 0, log := c.log + [OfferTaken(p)])
  }

  function TakeAck(c: Client, lease: Lease, p: seq<byte>, later: int): Client {
    c.(lease := lease, state := Bound, bound := true, renewAtUs := later + RenewIn(lease) * 1000000,
       log := c.log + [AckTaken(p), Applied(lease)])
  }

  /** What a datagram does that reads as m. One that is not an accepted OFFER leaves its server
      id behind when it has one (`told`). */
  function Took(c: Client, m: Parsed, told: bool, p: seq<byte>, rnd: uint32, later: int): (Client, Option<Status>) {
    var c := c.(serverId := m.serverId);
    if c.state == Selecting && m.kind == OFFER then (TakeOffer(c, m.lease.ip, p), None)
    else
      var c := if told then c.(log := c.log + [Named(p)]) else c;
      if m.kind == NAK then (EnterSelecting(c, rnd), None)
      else if c.state == Requesting && m.kind == ACK then (TakeAck(c, m.lease, p, later), Some(Leased(m.lease)))
      else (c, None)
  }

  function Receive(c: Client, p: seq<byte>, rnd: uint32, later: int): (Client, Option<Status>) {
    Took(c, Parse(p, c.xid, c.mac, c.serverId), ForUs(p, c.xid, c.mac) && ServerIdIn(p).Some?, p, rnd, later)
  }

  function OneTurn(cfg: Config, c: Client, t: Turn): (Client, Option<Status>) {
    var (c1, st) := BeforeReceive(cfg, c, t);
    if st.Some? then (c1, st)
    else if t.got.None? || t.got.value == [] then (c1, Some(Pending))
    else Receive(c1, t.got.value, t.rnd2, t.later)
  }

  /** dhcp_step over the turns it gets through. */
  function Step(cfg: Config, c: Client, turns: seq<Turn>): (Client, Status)
    decreases |turns|
  {
    if turns == [] then (c, Pending)
    else
      var (c1, st) := OneTurn(cfg, c, turns[0]);
      if st.Some? then (c1, st.value) else Step(cfg, c1, turns[1..])
  }

  /** A client after wsm_dhcp_client_create and wsm_dhcp_start. */
  function Started(mac: Mac, rnd: uint32): Client {
    Client(Selecting, rnd, mac, NO_IP, NO_IP, 0, 0, 0, Lease(NO_IP, NO_IP, NO_IP, NO_IP, 0), false, [Enter(rnd)])
  }
}
