/** The socket allocator of port/ioLibrary_Driver/src/wiznet_toe.c: descriptors on one side,
    hardware sockets on the other, and a chip underneath that answers as it likes. */
module Toe {
  import opened Bytes
  import Deadline

  const MAX_SOCK := 8
  const MAX_DESC := MAX_SOCK

  // Owners of a hardware socket that are not descriptors.
  const SN_FREE := -1
  const SN_RAW := -2

  const ERR := -1
  const ERR_TIMEOUT := -2
  const ERR_WOULDBLOCK := -3

  const SOCK_STREAM := 1
  const SOCK_DGRAM := 2

  datatype Opts = Opts(nodelay: bool, rcvTimeoutMs: uint32, sndTimeoutMs: uint32)
  datatype Peer = Peer(ip: uint32, port: uint16)

  datatype Desc = Desc(used: bool, sn: int, isUdp: bool, isOpen: bool, listening: bool, connected: bool,
                       nonblocking: bool, rdShutdown: bool, port: uint16, opts: Opts, dst: Peer)

  /** toe_desc_clear: all zero, except that socket 0 is a real one. */
  const CLEAR := Desc(false, -1, false, false, false, false, false, false, 0, Opts(false, 0, 0), Peer(0, 0))

  /** What the driver makes the chip do. */
  datatype Cmd =
    | OpenCmd(sn: int, port: uint16, tcp: bool)
    | ListenCmd(sn: int)
    | ConnectCmd(sn: int, peer: Peer)
    | DisconCmd(sn: int)
    | CloseCmd(sn: int)

  /** The three outcomes of re-opening a listener, the failure split in two: no source
      address yet (deferred), socket() fails, listen() fails, or the socket listens. */
  datatype OpenResult = NoAddress | OpenFails | ListenFails | Listens

  predicate Failed(a: OpenResult) {
    a.OpenFails? || a.ListenFails?
  }

  /** Sn_SR as accept() distinguishes it. */
  datatype Status = Established | CloseWait | Listening | SynRecv | InitState | OtherStatus(code: byte)

  /** What one turn of accept()'s loop reads: the socket status, the outcome of the one open
      or listen it may attempt, and the microsecond counter. */
  datatype Turn = Turn(sr: Status, open: OpenResult, listenOk: bool, now: uint32)

  datatype Tables = Tables(desc: seq<Desc>, owner: seq<int>, cmds: seq<Cmd>)

  datatype Outcome = Outcome(t: Tables, ret: int)

  predicate Shape(t: Tables) {
    && |t.desc| == MAX_DESC && |t.owner| == MAX_SOCK
    && forall fd :: 0 <= fd < MAX_DESC ==> -1 <= t.desc[fd].sn < MAX_SOCK
  }

  // ------------------------------------------------------------------ the two searches

  /** The lowest unused descriptor from i on, or -1. */
  function FirstUnused(desc: seq<Desc>, i: nat): (fd: int)
    requires i <= |desc|
    ensures fd == -1 || i <= fd < |desc|
    ensures fd == -1 ==> forall k :: i <= k < |desc| ==> desc[k].used
    ensures fd >= 0 ==> !desc[fd].used && forall k :: i <= k < fd ==> desc[k].used
    decreases |desc| - i
  {
    if i == |desc| then -1 else if !desc[i].used then i else FirstUnused(desc, i + 1)
  }

  /** The lowest free hardware socket from i on, or -1. */
  function FirstFree(owner: seq<int>, i: nat): (sn: int)
    requires i <= |owner|
    ensures sn == -1 || i <= sn < |owner|
    ensures sn == -1 ==> forall k :: i <= k < |owner| ==> owner[k] != SN_FREE
    ensures sn >= 0 ==> owner[sn] == SN_FREE && forall k :: i <= k < sn ==> owner[k] != SN_FREE
    decreases |owner| - i
  {
    if i == |owner| then -1 else if owner[i] == SN_FREE then i else FirstFree(owner, i + 1)
  }

  predicate FdValid(t: Tables, fd: int)
    requires Shape(t)
  {
    0 <= fd < MAX_DESC && t.desc[fd].used
  }

  predicate FdReady(t: Tables, fd: int)
    requires Shape(t)
  {
    FdValid(t, fd) && t.desc[fd].sn >= 0
  }

  // ------------------------------------------------------------------ listeners

  function ReopenCmds(d: Desc, a: OpenResult): seq<Cmd> {
    match a
    case NoAddress => []
    case OpenFails => [OpenCmd(d.sn, d.port, true)]
    case _ => [OpenCmd(d.sn, d.port, true), ListenCmd(d.sn)]
  }

  /** toe_listener_reopen on descriptor `d`. */
  function Reopened(d: Desc, a: OpenResult): Desc {
    match a
    case NoAddress => d.(isOpen := false)
    case OpenFails => d
    case _ => d.(isOpen := true)
  }

  function Disarmed(t: Tables, fd: int): (t': Tables)
    requires Shape(t) && 0 <= fd < MAX_DESC
    ensures Shape(t')
  {
    var d := t.desc[fd];
    t.(desc := t.desc[fd := d.(sn := -1, isOpen := false)],
       owner := if d.sn >= 0 then t.owner[d.sn := SN_FREE] else t.owner)
  }

  /** toe_listener_rearm: a failed attempt gives the claimed socket back. */
  function Rearmed(t: Tables, fd: int, a: OpenResult): (t': Tables)
    requires Shape(t) && 0 <= fd < MAX_DESC
    ensures Shape(t')
  {
    var d, sn := t.desc[fd], FirstFree(t.owner, 0);
    if d.sn >= 0 || sn < 0 then t
    else
      var claimed := d.(sn := sn);
      var cmds := t.cmds + ReopenCmds(claimed, a);
      if Failed(a) then t.(desc := t.desc[fd := d.(sn := -1, isOpen := false)], cmds := cmds)
      else t.(desc := t.desc[fd := Reopened(claimed, a)], owner := t.owner[sn := fd], cmds := cmds)
  }

  predicate Unarmed(d: Desc) {
    d.used && d.sn < 0
  }

  /** toe_rearm_pending_listeners from descriptor fd on; answers[k] is for descriptor k. */
  function RearmedFrom(t: Tables, fd: nat, answers: seq<OpenResult>): (t': Tables)
    requires Shape(t) && |answers| == MAX_DESC && fd <= MAX_DESC
    ensures Shape(t')
    decreases MAX_DESC - fd
  {
    if fd == MAX_DESC then t
    else
      var t1 := if Unarmed(t.desc[fd]) && t.desc[fd].listening then Rearmed(t, fd, answers[fd]) else t;
      RearmedFrom(t1, fd + 1, answers)
  }

  // ------------------------------------------------------------------ the API

  function Socket(t: Tables, ty: int): (o: Outcome)
    requires Shape(t)
    ensures Shape(o.t)
  {
    var fd, sn := FirstUnused(t.desc, 0), FirstFree(t.owner, 0);
    if (ty != SOCK_STREAM && ty != SOCK_DGRAM) || fd < 0 then Outcome(t, ERR)
    else if sn < 0 then Outcome(t.(desc := t.desc[fd := CLEAR]), ERR)
    else
      var d := CLEAR.(used := true, sn := sn, isUdp := ty == SOCK_DGRAM);
      Outcome(t.(desc := t.desc[fd := d], owner := t.owner[sn := fd]), fd)
  }

  function Bind(t: Tables, fd: int, port: uint16, opens: bool): (o: Outcome)
    requires Shape(t)
    ensures Shape(o.t)
  {
    if !FdReady(t, fd) then Outcome(t, ERR)
    else
      var d := t.desc[fd].(port := port);
      if !d.isUdp then Outcome(t.(desc := t.desc[fd := d]), 0)
      else Outcome(t.(desc := t.desc[fd := if opens then d.(isOpen := true) else d],
                      cmds := t.cmds + [OpenCmd(d.sn, port, false)]), if opens then 0 else ERR)
  }

  function Listen(t: Tables, fd: int, a: OpenResult): (o: Outcome)
    requires Shape(t)
    ensures Shape(o.t)
  {
    if !FdReady(t, fd) || t.desc[fd].isUdp then Outcome(t, ERR)
    else
      var d := t.desc[fd];
      Outcome(t.(desc := t.desc[fd := Reopened(d, a).(listening := !Failed(a))], cmds := t.cmds + ReopenCmds(d, a)),
              if Failed(a) then ERR else 0)
  }

  function Connect(t: Tables, fd: int, peer: Peer, ephemeral: uint16, opens: bool, connects: bool): (o: Outcome)
    requires Shape(t)
    ensures Shape(o.t)
  {
    if !FdReady(t, fd) then Outcome(t, ERR)
    else
      var d := t.desc[fd];
      if d.isUdp then Outcome(t.(desc := t.desc[fd := d.(dst := peer, connected := true)]), 0)
      else
        var d1 := if d.port == 0 then d.(port := ephemeral) else d;
        var open := OpenCmd(d.sn, d1.port, true);
        if !opens then Outcome(t.(desc := t.desc[fd := d1], cmds := t.cmds + [open]), ERR)
        else Outcome(t.(desc := t.desc[fd := d1.(isOpen := true)], cmds := t.cmds + [open, ConnectCmd(d.sn, peer)]),
                     if connects then 0 else ERR)
  }

  function Configure(t: Tables, fd: int, opts: Opts, nonblocking: bool, rdShutdown: bool): (o: Outcome)
    requires Shape(t)
    ensures Shape(o.t)
  {
    if !FdValid(t, fd) then Outcome(t, ERR)
    else
      var d := t.desc[fd].(opts := opts, nonblocking := nonblocking, rdShutdown := rdShutdown);
      Outcome(t.(desc := t.desc[fd := d]), 0)
  }

  /** `fin`: the connection was still up, so a DISCON went out first. */
  function CloseCmds(d: Desc, fin: bool): seq<Cmd> {
    (if !d.isUdp && fin then [DisconCmd(d.sn)] else []) + (if d.isOpen then [CloseCmd(d.sn)] else [])
  }

  function Closed(t: Tables, fd: int, fin: bool): (t': Tables)
    requires Shape(t) && FdValid(t, fd)
    ensures Shape(t')
  {
    var d := t.desc[fd];
    if d.sn < 0 then t.(desc := t.desc[fd := CLEAR])
    else Tables(t.desc[fd := CLEAR], t.owner[d.sn := SN_FREE], t.cmds + CloseCmds(d, fin))
  }

  function Close(t: Tables, fd: int, fin: bool, answers: seq<OpenResult>): (o: Outcome)
    requires Shape(t) && |answers| == MAX_DESC
    ensures Shape(o.t)
  {
    if !FdValid(t, fd) then Outcome(t, ERR) else Outcome(RearmedFrom(Closed(t, fd, fin), 0, answers), 0)
  }

  function Reserve(t: Tables): (o: Outcome)
    requires Shape(t)
    ensures Shape(o.t)
  {
    var sn := FirstFree(t.owner, 0);
    if sn < 0 then Outcome(t, ERR) else Outcome(t.(owner := t.owner[sn := SN_RAW]), sn)
  }

  function Release(t: Tables, sn: int, answers: seq<OpenResult>): (o: Outcome)
    requires Shape(t) && |answers| == MAX_DESC
    ensures Shape(o.t)
  {
    if !(0 <= sn < MAX_SOCK) then Outcome(t, 0)
    else Outcome(RearmedFrom(t.(owner := t.owner[sn := SN_FREE], cmds := t.cmds + [CloseCmd(sn)]), 0, answers), 0)
  }

  // ------------------------------------------------------------------ accept

  /** The descriptor a connection gets: the listener's endpoint, not its role. */
  function ConnectionDesc(l: Desc): Desc {
    CLEAR.(used := true, sn := l.sn, isOpen := true, connected := true, port := l.port, opts := l.opts)
  }

  function HandedOver(t: Tables, fd: int, cfd: int): (t': Tables)
    requires Shape(t) && FdReady(t, fd) && 0 <= cfd < MAX_DESC
    ensures Shape(t')
  {
    var l := t.desc[fd];
    t.(desc := t.desc[cfd := ConnectionDesc(l)][fd := l.(sn := -1, isOpen := false)], owner := t.owner[l.sn := cfd])
  }

  function AcceptEstablished(t: Tables, fd: int, a: OpenResult): (o: Outcome)
    requires Shape(t) && FdReady(t, fd)
    ensures Shape(o.t)
  {
    var cfd := FirstUnused(t.desc, 0);
    if cfd < 0 then Outcome(t, ERR_WOULDBLOCK) else Outcome(Rearmed(HandedOver(t, fd, cfd), fd, a), cfd)
  }

  predicate Listener(t: Tables, fd: int)
    requires Shape(t)
  {
    FdValid(t, fd) && t.desc[fd].listening
  }

  /** The part of one loop turn that looks at the socket; Some(r) leaves accept() with r. */
  function AcceptLook(t: Tables, fd: int, turn: Turn): (r: (Tables, Option<int>))
    requires Shape(t) && Listener(t, fd)
    ensures Shape(r.0) && (r.1.None? ==> Listener(r.0, fd))
  {
    var d := t.desc[fd];
    if d.sn < 0 then (Rearmed(t, fd, turn.open), None)
    else match turn.sr
      case Established => var o := AcceptEstablished(t, fd, turn.open); (o.t, Some(o.ret))
      case CloseWait => var o := AcceptEstablished(t, fd, turn.open); (o.t, Some(o.ret))
      case Listening => (t, None)
      case SynRecv => (t, None)
      case InitState =>
        var t1 := t.(cmds := t.cmds + [ListenCmd(d.sn)]);
        (if turn.listenOk then t1 else Disarmed(t1, fd), None)
      case OtherStatus(_) =>
        var t1 := t.(desc := t.desc[fd := Reopened(d, turn.open)], cmds := t.cmds + ReopenCmds(d, turn.open));
        (if Failed(turn.open) then Disarmed(t1, fd) else t1, None)
  }

  /** One turn: a pending connection first, then O_NONBLOCK, then SO_RCVTIMEO. */
  function AcceptTurn(t: Tables, fd: int, turn: Turn, started: uint32): (r: (Tables, Option<int>))
    requires Shape(t) && Listener(t, fd)
    ensures Shape(r.0) && (r.1.None? ==> Listener(r.0, fd))
  {
    var (t1, r) := AcceptLook(t, fd, turn);
    var d := t.desc[fd];
    if r.Some? then (t1, r)
    else if d.nonblocking then (t1, Some(ERR_WOULDBLOCK))
    else if Deadline.Passed(turn.now, started, d.opts.rcvTimeoutMs) then (t1, Some(ERR_TIMEOUT))
    else (t1, None)
  }

  /** The loop of accept() over the given turns; None: it is still waiting. */
  function AcceptWait(t: Tables, fd: int, turns: seq<Turn>, started: uint32): (r: (Tables, Option<int>))
    requires Shape(t) && Listener(t, fd)
    ensures Shape(r.0)
    decreases |turns|
  {
    if turns == [] then (t, None)
    else
      var (t1, r) := AcceptTurn(t, fd, turns[0], started);
      if r.Some? then (t1, r) else AcceptWait(t1, fd, turns[1..], started)
  }

  function Accept(t: Tables, fd: int, turns: seq<Turn>, started: uint32): (r: (Tables, Option<int>))
    requires Shape(t)
    ensures Shape(r.0)
  {
    if !Listener(t, fd) then (t, Some(ERR)) else AcceptWait(t, fd, turns, started)
  }
}
