/** What the driver's commands leave on the hardware sockets: listeners are on the air on their
    own port, and nobody's socket is disturbed by anybody else. */
module ToeChip {
  import opened Bytes
  import opened Toe
  import opened ToeInvariant
  import opened ToeBudget

  // ------------------------------------------------------------------ replaying the commands

  datatype Role = Idle | Listens | Connects(peer: Peer)

  datatype Sock = Shut | Open(tcp: bool, port: uint16, role: Role)

  /** OPEN configures the socket anew; LISTEN and CONNECT need a TCP socket that is idle. */
  function Obeyed(s: Sock, c: Cmd): Sock {
    match c
    case OpenCmd(_, port, tcp) => Open(tcp, port, Idle)
    case ListenCmd(_) => if s.Open? && s.tcp && s.role.Idle? then s.(role := Role.Listens) else s
    case ConnectCmd(_, peer) => if s.Open? && s.tcp && s.role.Idle? then s.(role := Connects(peer)) else s
    case DisconCmd(_) => if s.Open? then s.(role := Idle) else s
    case CloseCmd(_) => Shut
  }

  /** Hardware socket sn once it has obeyed the commands given to it. */
  function Chip(cmds: seq<Cmd>, sn: int): Sock {
    if cmds == [] then Shut
    else
      var before, last := Chip(cmds[..|cmds| - 1], sn), cmds[|cmds| - 1];
      if last.sn == sn then Obeyed(before, last) else before
  }

  lemma ChipNext(cmds: seq<Cmd>, c: Cmd, sn: int)
    ensures Chip(cmds + [c], sn) == if c.sn == sn then Obeyed(Chip(cmds, sn), c) else Chip(cmds, sn)
  {
    assert (cmds + [c])[..|cmds|] == cmds;
  }

  lemma ChipTwo(cmds: seq<Cmd>, c: Cmd, d: Cmd, sn: int)
    ensures Chip(cmds + [c, d], sn) == Chip(cmds + [c] + [d], sn)
    ensures Chip(cmds + [c, d], sn) ==
            if d.sn == sn then Obeyed(Chip(cmds + [c], sn), d) else Chip(cmds + [c], sn)
  {
    assert cmds + [c, d] == cmds + [c] + [d];
    ChipNext(cmds + [c], d, sn);
  }

  // ------------------------------------------------------------------ on the air

  predicate Armed(t: Tables, fd: int)
    requires Shape(t)
  {
    Listener(t, fd) && t.desc[fd].sn >= 0 && t.desc[fd].isOpen
  }

  /** The socket of fd is a TCP socket listening on the port that fd is bound to. */
  predicate OnAir(t: Tables, fd: int)
    requires Shape(t) && FdReady(t, fd)
  {
    Chip(t.cmds, t.desc[fd].sn) == Open(true, t.desc[fd].port, Role.Listens)
  }

  predicate AllOnAir(t: Tables)
    requires Shape(t)
  {
    forall fd :: 0 <= fd < MAX_DESC && Armed(t, fd) ==> OnAir(t, fd)
  }

  /** From t to t', descriptor fd and what its socket was told are as they were. */
  predicate Leaves(t: Tables, t': Tables, fd: int)
    requires Shape(t) && Shape(t') && FdReady(t, fd)
  {
    t'.desc[fd] == t.desc[fd] && Chip(t'.cmds, t.desc[fd].sn) == Chip(t.cmds, t.desc[fd].sn)
  }

  /** No listener is armed off the air that was not so before. */
  predicate Carried(t: Tables, t': Tables, fd: int)
    requires Shape(t) && Shape(t')
  {
    Armed(t', fd) && !OnAir(t', fd) ==> Armed(t, fd) && !OnAir(t, fd)
  }

  lemma CarriedOn(t: Tables, t1: Tables, t2: Tables, fd: int)
    requires Shape(t) && Shape(t1) && Shape(t2) && Carried(t, t1, fd) && Carried(t1, t2, fd)
    ensures Carried(t, t2, fd)
  {
  }

  // ------------------------------------------------------------------ opening a listener

  /** Re-opening says nothing to any other socket; answered well it puts the socket on the air. */
  lemma ReopenTells(cmds: seq<Cmd>, d: Desc, a: OpenResult, sn: int)
    ensures d.sn != sn ==> Chip(cmds + ReopenCmds(d, a), sn) == Chip(cmds, sn)
    ensures a.NoAddress? ==> ReopenCmds(d, a) == []
    ensures d.sn == sn && !a.NoAddress? && !a.OpenFails? ==>
              Chip(cmds + ReopenCmds(d, a), sn) == Open(true, d.port, Role.Listens)
  {
    var open, listen := OpenCmd(d.sn, d.port, true), ListenCmd(d.sn);
    ChipNext(cmds, open, sn);
    ChipTwo(cmds, open, listen, sn);
    assert cmds + [] == cmds;
  }

  lemma RearmedCarries(t: Tables, g: int, a: OpenResult, fd: int)
    requires Inverse(t) && Listener(t, g) && 0 <= fd < MAX_DESC
    ensures Carried(t, Rearmed(t, g, a), fd)
    ensures FdReady(t, fd) ==> Leaves(t, Rearmed(t, g, a), fd)
  {
    var sn := FirstFree(t.owner, 0);
    assert DescOk(t, fd);
    if t.desc[g].sn < 0 && sn >= 0 {
      if fd == g {
        ReopenTells(t.cmds, t.desc[g].(sn := sn), a, sn);
      } else {
        ReopenTells(t.cmds, t.desc[g].(sn := sn), a, t.desc[fd].sn);
        assert Rearmed(t, g, a).desc[fd] == t.desc[fd];
        assert FdReady(t, fd) ==> t.owner[t.desc[fd].sn] == fd && t.desc[fd].sn != sn;
      }
    }
  }

  lemma {:induction false} RearmedFromCarries(t: Tables, g: nat, answers: seq<OpenResult>, fd: int)
    requires Inverse(t) && |answers| == MAX_DESC && g <= MAX_DESC && 0 <= fd < MAX_DESC
    ensures Carried(t, RearmedFrom(t, g, answers), fd)
    ensures FdReady(t, fd) ==> Leaves(t, RearmedFrom(t, g, answers), fd)
    decreases MAX_DESC - g
  {
    if g < MAX_DESC {
      var t1 := if Unarmed(t.desc[g]) && t.desc[g].listening then Rearmed(t, g, answers[g]) else t;
      if Unarmed(t.desc[g]) && t.desc[g].listening {
        RearmedCarries(t, g, answers[g], fd);
        RearmedKeeps(t, g, answers[g]);
      }
      RearmedFromCarries(t1, g + 1, answers, fd);
      CarriedOn(t, t1, RearmedFrom(t, g, answers), fd);
    }
  }

  // ------------------------------------------------------------------ operations

  lemma HandedOverCarries(t: Tables, g: int, cfd: int, fd: int)
    requires Inverse(t) && Listener(t, g) && FdReady(t, g) && 0 <= cfd < MAX_DESC && !t.desc[cfd].used && 0 <= fd < MAX_DESC
    ensures Carried(t, HandedOver(t, g, cfd), fd)
    ensures fd != g && FdReady(t, fd) ==> FdReady(HandedOver(t, g, cfd), fd) && Leaves(t, HandedOver(t, g, cfd), fd)
    ensures FdReady(HandedOver(t, g, cfd), cfd) && HandedOver(t, g, cfd).desc[cfd].sn == t.desc[g].sn
  {
    assert g != cfd;
  }

  lemma AcceptEstablishedCarries(t: Tables, g: int, a: OpenResult, fd: int)
    requires Inverse(t) && Listener(t, g) && FdReady(t, g) && 0 <= fd < MAX_DESC
    ensures Carried(t, AcceptEstablished(t, g, a).t, fd)
    ensures fd != g && FdReady(t, fd) ==> Leaves(t, AcceptEstablished(t, g, a).t, fd)
  {
    var cfd := FirstUnused(t.desc, 0);
    if cfd >= 0 {
      var t1 := HandedOver(t, g, cfd);
      HandedOverKeeps(t, g, cfd);
      HandedOverCarries(t, g, cfd, fd);
      RearmedCarries(t1, g, a, fd);
      CarriedOn(t, t1, Rearmed(t1, g, a), fd);
    }
  }

  /** The socket that is handed over is told nothing. */
  lemma ConnectionUndisturbed(t: Tables, g: int, a: OpenResult)
    requires Inverse(t) && Listener(t, g) && FdReady(t, g)
    ensures Chip(AcceptEstablished(t, g, a).t.cmds, t.desc[g].sn) == Chip(t.cmds, t.desc[g].sn)
  {
    var cfd := FirstUnused(t.desc, 0);
    if cfd >= 0 {
      HandedOverKeeps(t, g, cfd);
      HandedOverCarries(t, g, cfd, cfd);
      RearmedCarries(HandedOver(t, g, cfd), g, a, cfd);
    }
  }

  lemma ListenAgainCarries(t: Tables, g: int, turn: Turn, fd: int)
    requires Inverse(t) && Listener(t, g) && FdReady(t, g) && turn.sr.InitState? && 0 <= fd < MAX_DESC
    ensures Carried(t, AcceptLook(t, g, turn).0, fd)
    ensures fd != g && FdReady(t, fd) ==> Leaves(t, AcceptLook(t, g, turn).0, fd)
  {
    assert DescOk(t, fd) && DescOk(t, g);
    ChipNext(t.cmds, ListenCmd(t.desc[g].sn), t.desc[fd].sn);
  }

  lemma ReopenCarries(t: Tables, g: int, turn: Turn, fd: int)
    requires Inverse(t) && Listener(t, g) && FdReady(t, g) && turn.sr.OtherStatus? && 0 <= fd < MAX_DESC
    ensures Carried(t, AcceptLook(t, g, turn).0, fd)
    ensures fd != g && FdReady(t, fd) ==> Leaves(t, AcceptLook(t, g, turn).0, fd)
  {
    assert DescOk(t, fd) && DescOk(t, g);
    ReopenTells(t.cmds, t.desc[g], turn.open, t.desc[fd].sn);
  }

  /** One turn of accept tells nobody else's socket anything. */
  lemma AcceptLookCarries(t: Tables, g: int, turn: Turn, fd: int)
    requires Inverse(t) && Listener(t, g) && 0 <= fd < MAX_DESC
    ensures Carried(t, AcceptLook(t, g, turn).0, fd)
    ensures fd != g && FdReady(t, fd) ==> Leaves(t, AcceptLook(t, g, turn).0, fd)
  {
    var d := t.desc[g];
    if d.sn < 0 {
      RearmedCarries(t, g, turn.open, fd);
    } else {
      match turn.sr
      case Established => AcceptEstablishedCarries(t, g, turn.open, fd);
      case CloseWait => AcceptEstablishedCarries(t, g, turn.open, fd);
      case InitState => ListenAgainCarries(t, g, turn, fd);
      case OtherStatus(_) => ReopenCarries(t, g, turn, fd);
      case _ =>
    }
  }

  lemma {:induction false} AcceptWaitCarries(t: Tables, g: int, turns: seq<Turn>, started: uint32, fd: int)
    requires Inverse(t) && Listener(t, g) && 0 <= fd < MAX_DESC
    ensures Carried(t, AcceptWait(t, g, turns, started).0, fd)
    ensures fd != g && FdReady(t, fd) ==> Leaves(t, AcceptWait(t, g, turns, started).0, fd)
    decreases |turns|
  {
    if turns != [] {
      AcceptLookCarries(t, g, turns[0], fd);
      AcceptLookKeeps(t, g, turns[0]);
      var (t1, r) := AcceptTurn(t, g, turns[0], started);
      if r.None? {
        AcceptWaitCarries(t1, g, turns[1..], started, fd);
      }
    }
  }

  function Target(op: Op): int {
    match op
    case BindOp(fd, _, _) => fd
    case ListenOp(fd, _) => fd
    case ConnectOp(fd, _, _, _, _) => fd
    case ConfigureOp(fd, _, _, _) => fd
    case AcceptOp(fd, _, _) => fd
    case CloseOp(fd, _, _) => fd
    case _ => -1
  }

  lemma ListenCarries(t: Tables, g: int, a: OpenResult, fd: int)
    requires Inverse(t) && 0 <= fd < MAX_DESC
    ensures Carried(t, Listen(t, g, a).t, fd)
    ensures fd != g && FdReady(t, fd) ==> Leaves(t, Listen(t, g, a).t, fd)
  {
    if FdReady(t, g) {
      assert DescOk(t, fd) && DescOk(t, g);
      ReopenTells(t.cmds, t.desc[g], a, t.desc[fd].sn);
    }
  }

  lemma ConnectCarries(t: Tables, g: int, peer: Peer, ephemeral: uint16, opens: bool, connects: bool, fd: int)
    requires Inverse(t) && 0 <= fd < MAX_DESC && fd != g
    ensures Carried(t, Connect(t, g, peer, ephemeral, opens, connects).t, fd)
    ensures FdReady(t, fd) ==> Leaves(t, Connect(t, g, peer, ephemeral, opens, connects).t, fd)
  {
    if FdReady(t, g) {
      assert DescOk(t, fd) && DescOk(t, g);
      var d := t.desc[g];
      var open := OpenCmd(d.sn, if d.port == 0 then ephemeral else d.port, true);
      ChipNext(t.cmds, open, t.desc[fd].sn);
      ChipTwo(t.cmds, open, ConnectCmd(d.sn, peer), t.desc[fd].sn);
    }
  }

  /** CLOSE and DISCON on one socket leave the others alone; the socket itself is shut when its
      descriptor was open, else only hung up. */
  lemma CloseTells(cmds: seq<Cmd>, d: Desc, fin: bool, sn: int)
    ensures d.sn != sn ==> Chip(cmds + CloseCmds(d, fin), sn) == Chip(cmds, sn)
    ensures d.sn == sn && d.isOpen ==> Chip(cmds + CloseCmds(d, fin), sn) == Shut
  {
    ChipNext(cmds, DisconCmd(d.sn), sn);
    ChipNext(cmds, CloseCmd(d.sn), sn);
    ChipTwo(cmds, DisconCmd(d.sn), CloseCmd(d.sn), sn);
    assert cmds + [] == cmds;
    assert [DisconCmd(d.sn)] + [CloseCmd(d.sn)] == [DisconCmd(d.sn), CloseCmd(d.sn)];
    assert [DisconCmd(d.sn)] + [] == [DisconCmd(d.sn)];
    assert [] + [CloseCmd(d.sn)] == [CloseCmd(d.sn)];
  }

  lemma CloseCarries(t: Tables, g: int, fin: bool, answers: seq<OpenResult>, fd: int)
    requires Inverse(t) && |answers| == MAX_DESC && 0 <= fd < MAX_DESC
    ensures Carried(t, Close(t, g, fin, answers).t, fd)
    ensures fd != g && FdReady(t, fd) ==> Leaves(t, Close(t, g, fin, answers).t, fd)
  {
    if FdValid(t, g) {
      assert DescOk(t, fd) && DescOk(t, g);
      var t1 := Closed(t, g, fin);
      CloseTells(t.cmds, t.desc[g], fin, t.desc[fd].sn);
      ClosedKeeps(t, g, fin);
      RearmedFromCarries(t1, 0, answers, fd);
      assert Carried(t, t1, fd);
    }
  }

  lemma ReleaseCarries(t: Tables, sn: int, answers: seq<OpenResult>, fd: int)
    requires Inverse(t) && Legal(t, ReleaseOp(sn, answers)) && 0 <= fd < MAX_DESC
    ensures Carried(t, Release(t, sn, answers).t, fd)
    ensures FdReady(t, fd) ==> Leaves(t, Release(t, sn, answers).t, fd)
  {
    if 0 <= sn < MAX_SOCK {
      assert DescOk(t, fd);
      var t1 := t.(owner := t.owner[sn := SN_FREE], cmds := t.cmds + [CloseCmd(sn)]);
      ChipNext(t.cmds, CloseCmd(sn), t.desc[fd].sn);
      ReleasedKeeps(t, sn);
      RearmedFromCarries(t1, 0, answers, fd);
      assert Carried(t, t1, fd);
    }
  }

  lemma BindCarries(t: Tables, g: int, port: uint16, opens: bool, fd: int)
    requires Inverse(t) && 0 <= fd < MAX_DESC && fd != g
    ensures Carried(t, Bind(t, g, port, opens).t, fd)
    ensures FdReady(t, fd) ==> Leaves(t, Bind(t, g, port, opens).t, fd)
  {
    if FdReady(t, g) {
      assert DescOk(t, fd) && DescOk(t, g);
      ChipNext(t.cmds, OpenCmd(t.desc[g].sn, port, false), t.desc[fd].sn);
    }
  }

  /** No operation on one descriptor touches another one that has a socket, or says anything to
      that socket: for every answer of the chip, re-arming sweeps and accept loops included. */
  lemma OthersUndisturbed(t: Tables, op: Op, fd: int)
    requires Inverse(t) && Legal(t, op) && FdReady(t, fd) && fd != Target(op)
    ensures Leaves(t, Apply(t, op), fd)
  {
    assert DescOk(t, fd);
    match op
    case SocketOp(ty) =>
    case BindOp(g, port, opens) => BindCarries(t, g, port, opens, fd);
    case ListenOp(g, a) => ListenCarries(t, g, a, fd);
    case ConnectOp(g, peer, ephemeral, opens, connects) => ConnectCarries(t, g, peer, ephemeral, opens, connects, fd);
    case ConfigureOp(_, _, _, _) =>
    case AcceptOp(g, turns, started) =>
      if Listener(t, g) {
        AcceptWaitCarries(t, g, turns, started, fd);
      }
    case CloseOp(g, fin, answers) => CloseCarries(t, g, fin, answers, fd);
    case ReserveOp =>
    case ReleaseOp(sn, answers) => ReleaseCarries(t, sn, answers, fd);
  }

  // ------------------------------------------------------------------ every listener is on the air

  /** The two calls that take a listener off the air: a bind to another port, which changes the
      table only, and a connect, which opens its socket for something else. */
  predicate Spares(t: Tables, op: Op)
    requires Shape(t)
  {
    match op
    case BindOp(fd, port, _) => 0 <= fd < MAX_DESC && Armed(t, fd) ==> port == t.desc[fd].port
    case ConnectOp(fd, _, _, opens, _) => !(Listener(t, fd) && t.desc[fd].sn >= 0 && (t.desc[fd].isOpen || opens))
    case _ => true
  }

  lemma OpCarries(t: Tables, op: Op, fd: int)
    requires Inverse(t) && Legal(t, op) && 0 <= fd < MAX_DESC && Spares(t, op)
    ensures Carried(t, Apply(t, op), fd)
  {
    assert DescOk(t, fd);
    match op
    case SocketOp(ty) =>
    case BindOp(g, port, opens) =>
      if g != fd {
        BindCarries(t, g, port, opens, fd);
      }
    case ListenOp(g, a) => ListenCarries(t, g, a, fd);
    case ConnectOp(g, peer, ephemeral, opens, connects) =>
      if g != fd {
        ConnectCarries(t, g, peer, ephemeral, opens, connects, fd);
      }
    case ConfigureOp(_, _, _, _) =>
    case AcceptOp(g, turns, started) =>
      if Listener(t, g) {
        AcceptWaitCarries(t, g, turns, started, fd);
      }
    case CloseOp(g, fin, answers) => CloseCarries(t, g, fin, answers, fd);
    case ReserveOp =>
    case ReleaseOp(sn, answers) => ReleaseCarries(t, sn, answers, fd);
  }

  lemma SparesOrNot(t: Tables, op: Op)
    requires Inverse(t) && Legal(t, op) && AllOnAir(t) && !Spares(t, op)
    ensures Target(op) >= 0 && Armed(Apply(t, op), Target(op)) && !OnAir(Apply(t, op), Target(op))
  {
    var fd := Target(op);
    assert DescOk(t, fd);
    match op
    case BindOp(_, port, opens) =>
    case ConnectOp(_, peer, ephemeral, opens, connects) =>
      var d := t.desc[fd];
      var open := OpenCmd(d.sn, if d.port == 0 then ephemeral else d.port, true);
      ChipNext(t.cmds, open, d.sn);
      ChipTwo(t.cmds, open, ConnectCmd(d.sn, peer), d.sn);
    case _ =>
  }

  /** Whatever the chip answers: after an operation every armed listener is on the air, if and
      only if the operation is neither of those two calls. */
  lemma StaysOnAirIff(t: Tables, op: Op)
    requires Inverse(t) && Legal(t, op) && AllOnAir(t)
    ensures AllOnAir(Apply(t, op)) <==> Spares(t, op)
  {
    if Spares(t, op) {
      forall fd | 0 <= fd < MAX_DESC && Armed(Apply(t, op), fd) ensures OnAir(Apply(t, op), fd) {
        OpCarries(t, op, fd);
      }
    } else {
      SparesOrNot(t, op);
    }
  }

  ghost predicate SparingRun(t: Tables, ops: seq<Op>)
    requires Shape(t) && LegalRun(t, ops)
    decreases |ops|
  {
    ops == [] || (Spares(t, ops[0]) && SparingRun(Apply(t, ops[0]), ops[1..]))
  }

  lemma {:induction false} RunStaysOnAir(t: Tables, ops: seq<Op>)
    requires Inverse(t) && LegalRun(t, ops) && SparingRun(t, ops) && AllOnAir(t)
    ensures AllOnAir(RunOps(t, ops))
    decreases |ops|
  {
    if ops != [] {
      ApplyKeeps(t, ops[0]);
      StaysOnAirIff(t, ops[0]);
      RunStaysOnAir(Apply(t, ops[0]), ops[1..]);
    }
  }

  /** In every run without those two calls, failing opens included: replaying all commands the
      driver has given leaves the socket of every armed listener a TCP socket that listens on
      the port of its last bind. */
  lemma EveryListenerIsOnAir(ops: seq<Op>)
    requires LegalRun(FRESH, ops) && SparingRun(FRESH, ops)
    ensures AllOnAir(RunOps(FRESH, ops))
  {
    RunStaysOnAir(FRESH, ops);
  }

  // ------------------------------------------------------------------ how a socket gets its role

  /** listen(): answered well the descriptor is a listener on the air on the port it was bound to;
      without an address it is one that waits, and the chip is told nothing; otherwise none. */
  lemma ListenGoesOnAir(t: Tables, fd: int, a: OpenResult)
    requires Inverse(t) && FdReady(t, fd) && !t.desc[fd].isUdp
    ensures var o := Listen(t, fd, a);
            && FdReady(o.t, fd) && o.t.desc[fd].sn == t.desc[fd].sn && o.t.desc[fd].port == t.desc[fd].port
            && match a
               case Listens => o.ret == 0 && Armed(o.t, fd) && OnAir(o.t, fd)
               case NoAddress => o.ret == 0 && Listener(o.t, fd) && !o.t.desc[fd].isOpen && o.t.cmds == t.cmds
               case _ => o.ret == -1 && !Listener(o.t, fd)
  {
    ReopenTells(t.cmds, t.desc[fd], a, t.desc[fd].sn);
  }

  /** An unarmed listener takes the lowest free socket, when there is one, and is on the air
      there at once; a failed attempt costs nothing but the commands. */
  lemma RearmGoesOnAir(t: Tables, fd: int, a: OpenResult)
    requires Inverse(t) && Listener(t, fd) && t.desc[fd].sn < 0
    ensures var t', sn := Rearmed(t, fd, a), FirstFree(t.owner, 0);
            && t'.desc[fd].port == t.desc[fd].port
            && if sn < 0 then t' == t
               else match a
                    case Listens => t'.desc[fd].sn == sn && t'.owner[sn] == fd && Armed(t', fd) && OnAir(t', fd)
                    case NoAddress => t'.desc[fd].sn == sn && t'.owner[sn] == fd && !Armed(t', fd) && t'.cmds == t.cmds
                    case _ => t'.desc[fd].sn == -1 && t'.owner == t.owner && Listener(t', fd)
  {
    ReopenTells(t.cmds, t.desc[fd].(sn := FirstFree(t.owner, 0)), a, FirstFree(t.owner, 0));
  }

  lemma {:induction false} SameFirstFree(owner: seq<int>, sn: nat, who: int, i: nat)
    requires sn < |owner| && owner[sn] != SN_FREE && who != SN_FREE && i <= |owner|
    ensures FirstFree(owner[sn := who], i) == FirstFree(owner, i)
    decreases |owner| - i
  {
    if i < |owner| {
      SameFirstFree(owner, sn, who, i + 1);
    }
  }

  /** accept() on an established connection, with a descriptor to spare: the connection is on the
      very socket, which is told nothing, with the listener's port; the listener goes on the air
      on another socket if there is a free one. */
  lemma HandOverGoesOnAir(t: Tables, fd: int)
    requires Inverse(t) && Armed(t, fd) && FirstUnused(t.desc, 0) >= 0
    ensures var l, o, sn := t.desc[fd], AcceptEstablished(t, fd, OpenResult.Listens), FirstFree(t.owner, 0);
            && FdReady(o.t, o.ret) && o.t.desc[o.ret].sn == l.sn && Chip(o.t.cmds, l.sn) == Chip(t.cmds, l.sn)
            && o.t.desc[o.ret].port == l.port && o.t.desc[o.ret].connected && !o.t.desc[o.ret].listening
            && o.t.desc[fd].port == l.port
            && (sn >= 0 ==> o.t.desc[fd].sn == sn && Armed(o.t, fd) && OnAir(o.t, fd))
  {
    var cfd := FirstUnused(t.desc, 0);
    assert DescOk(t, fd) && DescOk(t, cfd);
    var t1 := HandedOver(t, fd, cfd);
    HandedOverKeeps(t, fd, cfd);
    ConnectionUndisturbed(t, fd, OpenResult.Listens);
    SameFirstFree(t.owner, t.desc[fd].sn, cfd, 0);
    RearmGoesOnAir(t1, fd, OpenResult.Listens);
  }

  /** A listener whose socket was lost goes back on the air on it when it is re-opened. */
  lemma ReopenGoesOnAir(t: Tables, fd: int, turn: Turn)
    requires Inverse(t) && Listener(t, fd) && t.desc[fd].sn >= 0 && turn.sr.OtherStatus? && turn.open.Listens?
    ensures var (t', r) := AcceptLook(t, fd, turn);
            && r.None? && Armed(t', fd) && OnAir(t', fd)
            && t'.desc[fd].sn == t.desc[fd].sn && t'.desc[fd].port == t.desc[fd].port
  {
    ReopenTells(t.cmds, t.desc[fd], turn.open, t.desc[fd].sn);
  }

  /** A socket that has fallen back to idle is told to listen again, and to nothing else. */
  lemma IdleListensAgain(t: Tables, fd: int, turn: Turn)
    requires Inverse(t) && Armed(t, fd) && turn.sr.InitState?
    requires Chip(t.cmds, t.desc[fd].sn) == Open(true, t.desc[fd].port, Idle)
    ensures var (t', r) := AcceptLook(t, fd, turn);
            && r.None? && Listener(t', fd) && Chip(t'.cmds, t.desc[fd].sn) == Open(true, t.desc[fd].port, Role.Listens)
            && if turn.listenOk then Armed(t', fd) && OnAir(t', fd)
               else t'.desc[fd].sn == -1 && t'.owner[t.desc[fd].sn] == SN_FREE
  {
    ChipNext(t.cmds, ListenCmd(t.desc[fd].sn), t.desc[fd].sn);
  }

  /** connect() over TCP: the socket is opened on the bound port, or on the ephemeral one when
      none was bound, and connects to the peer. */
  lemma ConnectReachesPeer(t: Tables, fd: int, peer: Peer, ephemeral: uint16, connects: bool)
    requires Inverse(t) && FdReady(t, fd) && !t.desc[fd].isUdp
    ensures var o := Connect(t, fd, peer, ephemeral, true, connects);
            var port := if t.desc[fd].port != 0 then t.desc[fd].port else ephemeral;
            && (o.ret == 0 <==> connects) && o.t.desc[fd] == t.desc[fd].(port := port, isOpen := true)
            && Chip(o.t.cmds, t.desc[fd].sn) == Open(true, port, Connects(peer))
  {
    var d := t.desc[fd];
    var open := OpenCmd(d.sn, if d.port == 0 then ephemeral else d.port, true);
    ChipNext(t.cmds, open, d.sn);
    ChipTwo(t.cmds, open, ConnectCmd(d.sn, peer), d.sn);
  }

  /** bind() over UDP opens the socket on that port; over TCP it only notes the port. */
  lemma BindOpensUdp(t: Tables, fd: int, port: uint16)
    requires Inverse(t) && FdReady(t, fd)
    ensures var o := Bind(t, fd, port, true);
            && o.ret == 0 && o.t.desc[fd].port == port
            && if t.desc[fd].isUdp then o.t.desc[fd].isOpen && Chip(o.t.cmds, t.desc[fd].sn) == Open(false, port, Idle)
               else o.t == t.(desc := t.desc[fd := t.desc[fd].(port := port)])
  {
    ChipNext(t.cmds, OpenCmd(t.desc[fd].sn, port, false), t.desc[fd].sn);
  }

  predicate NoneFails(answers: seq<OpenResult>) {
    forall i :: 0 <= i < |answers| ==> !Failed(answers[i])
  }

  /** A free socket after one listener has been re-armed: free still, and told nothing unless the
      attempt failed, or now that listener's. */
  predicate GivenTo(t: Tables, t': Tables, sn: int, reliable: bool)
    requires Shape(t) && Shape(t') && 0 <= sn < MAX_SOCK
  {
    if t'.owner[sn] == SN_FREE then reliable ==> Chip(t'.cmds, sn) == Chip(t.cmds, sn)
    else && 0 <= t'.owner[sn] < MAX_DESC && Listener(t', t'.owner[sn]) && Unarmed(t.desc[t'.owner[sn]])
         && (Armed(t', t'.owner[sn]) ==> OnAir(t', t'.owner[sn]))
  }

  lemma RearmGivesSocket(t: Tables, g: int, a: OpenResult, sn: int)
    requires Inverse(t) && Listener(t, g) && Unarmed(t.desc[g]) && 0 <= sn < MAX_SOCK && t.owner[sn] == SN_FREE
    ensures GivenTo(t, Rearmed(t, g, a), sn, !Failed(a))
    ensures Rearmed(t, g, a).owner[sn] == SN_FREE || Rearmed(t, g, a).owner[sn] == g
    ensures forall fd :: 0 <= fd < MAX_DESC && fd != g ==> Rearmed(t, g, a).desc[fd] == t.desc[fd]
  {
    ReopenTells(t.cmds, t.desc[g].(sn := FirstFree(t.owner, 0)), a, sn);
  }

  lemma {:induction false} SweepKeepsOwner(t: Tables, g: nat, answers: seq<OpenResult>, sn: int)
    requires Shape(t) && |answers| == MAX_DESC && g <= MAX_DESC && 0 <= sn < MAX_SOCK && t.owner[sn] != SN_FREE
    ensures RearmedFrom(t, g, answers).owner[sn] == t.owner[sn]
    decreases MAX_DESC - g
  {
    if g < MAX_DESC {
      var t1 := if Unarmed(t.desc[g]) && t.desc[g].listening then Rearmed(t, g, answers[g]) else t;
      SweepKeepsOwner(t1, g + 1, answers, sn);
    }
  }

  lemma SweepKeepsGiven(t: Tables, t1: Tables, g: nat, answers: seq<OpenResult>, sn: int)
    requires Shape(t) && Inverse(t1) && |answers| == MAX_DESC && g <= MAX_DESC && 0 <= sn < MAX_SOCK
    requires t1.owner[sn] != SN_FREE && GivenTo(t, t1, sn, false)
    ensures GivenTo(t, RearmedFrom(t1, g, answers), sn, false) && RearmedFrom(t1, g, answers).owner[sn] != SN_FREE
  {
    assert OwnerOk(t1, sn);
    RearmedFromCarries(t1, g, answers, t1.owner[sn]);
    SweepKeepsOwner(t1, g, answers, sn);
  }

  lemma GivenLater(t: Tables, t1: Tables, t2: Tables, g: int, sn: int, reliable: bool)
    requires Shape(t) && Shape(t1) && Shape(t2) && 0 <= g < MAX_DESC && 0 <= sn < MAX_SOCK && t1.owner[sn] == SN_FREE
    requires Unarmed(t.desc[g]) && forall fd :: 0 <= fd < MAX_DESC && fd != g ==> t1.desc[fd] == t.desc[fd]
    requires GivenTo(t, t1, sn, reliable) && GivenTo(t1, t2, sn, reliable)
    ensures GivenTo(t, t2, sn, reliable)
  {
  }

  lemma {:induction false} SweepGivesSocket(t: Tables, g: nat, answers: seq<OpenResult>, sn: int, reliable: bool)
    requires Inverse(t) && |answers| == MAX_DESC && g <= MAX_DESC && 0 <= sn < MAX_SOCK && t.owner[sn] == SN_FREE
    requires reliable ==> NoneFails(answers)
    ensures GivenTo(t, RearmedFrom(t, g, answers), sn, reliable)
    decreases MAX_DESC - g
  {
    if g < MAX_DESC {
      if Unarmed(t.desc[g]) && t.desc[g].listening {
        var t1 := Rearmed(t, g, answers[g]);
        RearmedKeeps(t, g, answers[g]);
        RearmGivesSocket(t, g, answers[g], sn);
        if t1.owner[sn] == SN_FREE {
          SweepGivesSocket(t1, g + 1, answers, sn, reliable);
          GivenLater(t, t1, RearmedFrom(t1, g + 1, answers), g, sn, reliable);
        } else {
          SweepKeepsGiven(t, t1, g + 1, answers, sn);
        }
      } else {
        SweepGivesSocket(t, g + 1, answers, sn, reliable);
      }
    }
  }

  /** wiztoe_socket_release(): the raw socket is shut; free, or on the air for a listener. */
  lemma ReleaseShutsSocket(t: Tables, sn: int, answers: seq<OpenResult>)
    requires Inverse(t) && 0 <= sn < MAX_SOCK && t.owner[sn] == SN_RAW && |answers| == MAX_DESC
    ensures var o := Release(t, sn, answers);
            if o.t.owner[sn] == SN_FREE then NoneFails(answers) ==> Chip(o.t.cmds, sn) == Shut
            else && 0 <= o.t.owner[sn] < MAX_DESC && Listener(o.t, o.t.owner[sn])
                 && (Armed(o.t, o.t.owner[sn]) ==> OnAir(o.t, o.t.owner[sn]))
  {
    ReleasedKeeps(t, sn);
    ChipNext(t.cmds, CloseCmd(sn), sn);
    SweepGivesSocket(t.(owner := t.owner[sn := SN_FREE], cmds := t.cmds + [CloseCmd(sn)]), 0, answers, sn, NoneFails(answers));
  }

  lemma {:induction false} SweepAppends(t: Tables, g: nat, answers: seq<OpenResult>)
    requires Shape(t) && |answers| == MAX_DESC && g <= MAX_DESC
    ensures t.cmds <= RearmedFrom(t, g, answers).cmds
    decreases MAX_DESC - g
  {
    if g < MAX_DESC {
      var t1 := if Unarmed(t.desc[g]) && t.desc[g].listening then Rearmed(t, g, answers[g]) else t;
      SweepAppends(t1, g + 1, answers);
    }
  }

  lemma {:induction false} SweepKeepsUnused(t: Tables, g: nat, answers: seq<OpenResult>, fd: int)
    requires Shape(t) && |answers| == MAX_DESC && g <= MAX_DESC && 0 <= fd < MAX_DESC && !t.desc[fd].used
    ensures !RearmedFrom(t, g, answers).desc[fd].used
    decreases MAX_DESC - g
  {
    if g < MAX_DESC {
      var t1 := if Unarmed(t.desc[g]) && t.desc[g].listening then Rearmed(t, g, answers[g]) else t;
      SweepKeepsUnused(t1, g + 1, answers, fd);
    }
  }

  /** close(): the connection is hung up while it is up; then the descriptor is unused and its
      socket shut; free, or on the air for a listener
      that waited for one. */
  lemma CloseShutsSocket(t: Tables, fd: int, fin: bool, answers: seq<OpenResult>)
    requires Inverse(t) && FdReady(t, fd) && t.desc[fd].isOpen && |answers| == MAX_DESC
    ensures var o, sn := Close(t, fd, fin, answers), t.desc[fd].sn;
            && o.ret == 0 && !o.t.desc[fd].used
            && (fin && !t.desc[fd].isUdp ==> |o.t.cmds| > |t.cmds| && o.t.cmds[|t.cmds|] == DisconCmd(sn))
            && if o.t.owner[sn] == SN_FREE then NoneFails(answers) ==> Chip(o.t.cmds, sn) == Shut
               else && 0 <= o.t.owner[sn] < MAX_DESC && Listener(o.t, o.t.owner[sn])
                    && (Armed(o.t, o.t.owner[sn]) ==> OnAir(o.t, o.t.owner[sn]))
  {
    var t1, sn := Closed(t, fd, fin), t.desc[fd].sn;
    assert DescOk(t, fd) && OwnerOk(t, sn);
    ClosedKeeps(t, fd, fin);
    CloseTells(t.cmds, t.desc[fd], fin, sn);
    SweepGivesSocket(t1, 0, answers, sn, NoneFails(answers));
    SweepKeepsUnused(t1, 0, answers, fd);
    SweepAppends(t1, 0, answers);
  }

  /** From socket() to the air: a TCP descriptor, bound to a port, that listens. */
  lemma ServerIsHeard(t: Tables, port: uint16)
    requires Inverse(t) && FirstUnused(t.desc, 0) >= 0 && FirstFree(t.owner, 0) >= 0
    ensures var s := Socket(t, 1);
            var b := Bind(s.t, s.ret, port, true);
            var l := Listen(b.t, s.ret, OpenResult.Listens);
            && s.ret >= 0 && b.ret == 0 && l.ret == 0
            && Listener(l.t, s.ret) && t.owner[l.t.desc[s.ret].sn] == SN_FREE && !t.desc[s.ret].used
            && Chip(l.t.cmds, l.t.desc[s.ret].sn) == Open(true, port, Role.Listens)
  {
    var s := Socket(t, 1);
    SocketKeeps(t, 1);
    var b := Bind(s.t, s.ret, port, true);
    ApplyKeeps(s.t, BindOp(s.ret, port, true));
    assert Apply(s.t, BindOp(s.ret, port, true)) == b.t;
    ListenGoesOnAir(b.t, s.ret, OpenResult.Listens);
  }
}
