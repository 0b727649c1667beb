/** What every operation of the allocator keeps, and the budget that follows. */
module ToeInvariant {
  import opened Bytes
  import opened Toe

  // ------------------------------------------------------------------ the two tables

  predicate DescOk(t: Tables, fd: int)
    requires Shape(t) && 0 <= fd < MAX_DESC
  {
    var d := t.desc[fd];
    if !d.used then d == CLEAR
    else
      && (d.sn >= 0 ==> t.owner[d.sn] == fd)
      && (d.sn < 0 ==> d.listening)
      && (d.listening ==> !d.isUdp)
  }

  predicate OwnerOk(t: Tables, sn: int)
    requires Shape(t) && 0 <= sn < MAX_SOCK
  {
    var fd := t.owner[sn];
    fd == SN_FREE || fd == SN_RAW || (0 <= fd < MAX_DESC && t.desc[fd].used && t.desc[fd].sn == sn)
  }

  /** The tables are inverse to each other, and a descriptor without a socket is a listener. */
  predicate Inverse(t: Tables) {
    && Shape(t)
    && (forall fd :: 0 <= fd < MAX_DESC ==> DescOk(t, fd))
    && (forall sn :: 0 <= sn < MAX_SOCK ==> OwnerOk(t, sn))
  }

  lemma NoSharedSocket(t: Tables, a: int, b: int)
    requires Inverse(t) && FdReady(t, a) && FdReady(t, b) && t.desc[a].sn == t.desc[b].sn
    ensures a == b
  {
    assert DescOk(t, a) && DescOk(t, b);
  }

  /** Work conservation: no listener waits for a socket while one is free. */
  predicate Saturated(t: Tables)
    requires Shape(t)
  {
    forall fd, sn :: 0 <= fd < MAX_DESC && 0 <= sn < MAX_SOCK && Unarmed(t.desc[fd]) ==> t.owner[sn] != SN_FREE
  }

  // ------------------------------------------------------------------ operations

  datatype Op =
    | SocketOp(ty: int)
    | BindOp(fd: int, port: uint16, opens: bool)
    | ListenOp(fd: int, a: OpenResult)
    | ConnectOp(fd: int, peer: Peer, ephemeral: uint16, opens: bool, connects: bool)
    | ConfigureOp(fd: int, opts: Opts, nonblocking: bool, rdShutdown: bool)
    | AcceptOp(fd: int, turns: seq<Turn>, started: uint32)
    | CloseOp(fd: int, fin: bool, answers: seq<OpenResult>)
    | ReserveOp
    | ReleaseOp(sn: int, answers: seq<OpenResult>)

  /** A socket is released only by whoever reserved it. */
  predicate Legal(t: Tables, op: Op)
    requires Shape(t)
  {
    match op
    case CloseOp(_, _, answers) => |answers| == MAX_DESC
    case ReleaseOp(sn, answers) => |answers| == MAX_DESC && (0 <= sn < MAX_SOCK ==> t.owner[sn] == SN_RAW)
    case _ => true
  }

  predicate ReliableTurn(turn: Turn) {
    !Failed(turn.open) && turn.listenOk
  }

  /** Opens succeed or are deferred; they do not fail. */
  predicate Reliable(op: Op) {
    match op
    case ListenOp(_, a) => !Failed(a)
    case AcceptOp(_, turns, _) => forall i :: 0 <= i < |turns| ==> ReliableTurn(turns[i])
    case CloseOp(_, _, answers) => forall i :: 0 <= i < |answers| ==> !Failed(answers[i])
    case ReleaseOp(_, answers) => forall i :: 0 <= i < |answers| ==> !Failed(answers[i])
    case _ => true
  }

  function Apply(t: Tables, op: Op): (t': Tables)
    requires Shape(t) && Legal(t, op)
    ensures Shape(t')
  {
    match op
    case SocketOp(ty) => Socket(t, ty).t
    case BindOp(fd, port, opens) => Bind(t, fd, port, opens).t
    case ListenOp(fd, a) => Listen(t, fd, a).t
    case ConnectOp(fd, peer, ephemeral, opens, connects) => Connect(t, fd, peer, ephemeral, opens, connects).t
    case ConfigureOp(fd, opts, nonblocking, rdShutdown) => Configure(t, fd, opts, nonblocking, rdShutdown).t
    case AcceptOp(fd, turns, started) => Accept(t, fd, turns, started).0
    case CloseOp(fd, fin, answers) => Close(t, fd, fin, answers).t
    case ReserveOp => Reserve(t).t
    case ReleaseOp(sn, answers) => Release(t, sn, answers).t
  }

  // ------------------------------------------------------------------ listeners

  lemma RearmedKeeps(t: Tables, fd: int, a: OpenResult)
    requires Inverse(t) && FdValid(t, fd) && t.desc[fd].listening
    ensures Inverse(Rearmed(t, fd, a))
    ensures !Failed(a) && Saturated(t) ==> Saturated(Rearmed(t, fd, a))
  {
    var t', sn := Rearmed(t, fd, a), FirstFree(t.owner, 0);
    assert DescOk(t, fd);
    forall k | 0 <= k < MAX_SOCK ensures DescOk(t', k) && OwnerOk(t', k) {
      assert DescOk(t, k) && OwnerOk(t, k);
    }
  }

  lemma DisarmedKeeps(t: Tables, fd: int)
    requires Inverse(t) && FdValid(t, fd) && t.desc[fd].listening
    ensures Inverse(Disarmed(t, fd))
  {
    var t' := Disarmed(t, fd);
    assert DescOk(t, fd);
    forall k | 0 <= k < MAX_SOCK ensures DescOk(t', k) && OwnerOk(t', k) {
      assert DescOk(t, k) && OwnerOk(t, k);
    }
  }

  /** Every listener below fd has a socket, or no socket is left. */
  predicate SaturatedBelow(t: Tables, fd: nat)
    requires Shape(t) && fd <= MAX_DESC
  {
    forall k, sn :: 0 <= k < fd && 0 <= sn < MAX_SOCK && Unarmed(t.desc[k]) ==> t.owner[sn] != SN_FREE
  }

  lemma {:induction false} RearmedFromKeeps(t: Tables, fd: nat, answers: seq<OpenResult>)
    requires Inverse(t) && |answers| == MAX_DESC && fd <= MAX_DESC
    ensures Inverse(RearmedFrom(t, fd, answers))
    ensures (forall i :: 0 <= i < MAX_DESC ==> !Failed(answers[i])) && SaturatedBelow(t, fd)
            ==> Saturated(RearmedFrom(t, fd, answers))
    decreases MAX_DESC - fd
  {
    if fd < MAX_DESC {
      assert DescOk(t, fd);
      var t1 := if Unarmed(t.desc[fd]) && t.desc[fd].listening then Rearmed(t, fd, answers[fd]) else t;
      if Unarmed(t.desc[fd]) {
        RearmedKeeps(t, fd, answers[fd]);
      }
      RearmedFromKeeps(t1, fd + 1, answers);
    }
  }

  // ------------------------------------------------------------------ each operation

  /** Descriptor fd changes, its socket and roles do not. */
  lemma SameSocketKeeps(t: Tables, fd: int, d: Desc, cmds: seq<Cmd>)
    requires Inverse(t) && FdValid(t, fd) && d.used && d.sn == t.desc[fd].sn && d.isUdp == t.desc[fd].isUdp
    requires d.sn < 0 ==> d.listening
    requires d.listening ==> !d.isUdp
    ensures var t' := t.(desc := t.desc[fd := d], cmds := cmds);
            Inverse(t') && (Saturated(t) ==> Saturated(t'))
  {
    var t' := t.(desc := t.desc[fd := d], cmds := cmds);
    assert DescOk(t, fd);
    forall k | 0 <= k < MAX_SOCK ensures DescOk(t', k) && OwnerOk(t', k) {
      assert DescOk(t, k) && OwnerOk(t, k);
    }
  }

  lemma SocketKeeps(t: Tables, ty: int)
    requires Inverse(t)
    ensures var t' := Socket(t, ty).t; Inverse(t') && (Saturated(t) ==> Saturated(t'))
  {
    var t', fd := Socket(t, ty).t, FirstUnused(t.desc, 0);
    if fd >= 0 {
      assert DescOk(t, fd);
    }
    forall k | 0 <= k < MAX_SOCK ensures DescOk(t', k) && OwnerOk(t', k) {
      assert DescOk(t, k) && OwnerOk(t, k);
    }
  }

  lemma ReserveKeeps(t: Tables)
    requires Inverse(t)
    ensures var t' := Reserve(t).t; Inverse(t') && (Saturated(t) ==> Saturated(t'))
  {
    var t' := Reserve(t).t;
    forall k | 0 <= k < MAX_SOCK ensures DescOk(t', k) && OwnerOk(t', k) {
      assert DescOk(t, k) && OwnerOk(t, k);
    }
  }

  lemma ClosedKeeps(t: Tables, fd: int, fin: bool)
    requires Inverse(t) && FdValid(t, fd)
    ensures Inverse(Closed(t, fd, fin))
  {
    var t' := Closed(t, fd, fin);
    assert DescOk(t, fd);
    forall k | 0 <= k < MAX_SOCK ensures DescOk(t', k) && OwnerOk(t', k) {
      assert DescOk(t, k) && OwnerOk(t, k);
    }
  }

  lemma ReleasedKeeps(t: Tables, sn: int)
    requires Inverse(t) && 0 <= sn < MAX_SOCK && t.owner[sn] == SN_RAW
    ensures Inverse(t.(owner := t.owner[sn := SN_FREE], cmds := t.cmds + [CloseCmd(sn)]))
  {
    var t' := t.(owner := t.owner[sn := SN_FREE], cmds := t.cmds + [CloseCmd(sn)]);
    forall k | 0 <= k < MAX_SOCK ensures DescOk(t', k) && OwnerOk(t', k) {
      assert DescOk(t, k) && OwnerOk(t, k);
    }
  }

  lemma HandedOverKeeps(t: Tables, fd: int, cfd: int)
    requires Inverse(t) && Listener(t, fd) && FdReady(t, fd) && 0 <= cfd < MAX_DESC && !t.desc[cfd].used
    ensures Inverse(HandedOver(t, fd, cfd))
  {
    var t' := HandedOver(t, fd, cfd);
    assert DescOk(t, fd);
    forall k | 0 <= k < MAX_SOCK ensures DescOk(t', k) && OwnerOk(t', k) {
      assert DescOk(t, k) && OwnerOk(t, k);
    }
  }

  lemma AcceptEstablishedKeeps(t: Tables, fd: int, a: OpenResult)
    requires Inverse(t) && Listener(t, fd) && FdReady(t, fd)
    ensures var t' := AcceptEstablished(t, fd, a).t;
            Inverse(t') && (Saturated(t) && !Failed(a) ==> Saturated(t'))
  {
    var cfd := FirstUnused(t.desc, 0);
    if cfd >= 0 {
      HandedOverKeeps(t, fd, cfd);
      RearmedKeeps(HandedOver(t, fd, cfd), fd, a);
    }
  }

  lemma AcceptLookKeeps(t: Tables, fd: int, turn: Turn)
    requires Inverse(t) && Listener(t, fd)
    ensures var t' := AcceptLook(t, fd, turn).0;
            Inverse(t') && (Saturated(t) && ReliableTurn(turn) ==> Saturated(t'))
  {
    var d := t.desc[fd];
    assert DescOk(t, fd);
    if d.sn < 0 {
      RearmedKeeps(t, fd, turn.open);
    } else {
      match turn.sr
      case Established => AcceptEstablishedKeeps(t, fd, turn.open);
      case CloseWait => AcceptEstablishedKeeps(t, fd, turn.open);
      case Listening =>
      case SynRecv =>
      case InitState =>
        SameSocketKeeps(t, fd, d, t.cmds + [ListenCmd(d.sn)]);
        var t1 := t.(cmds := t.cmds + [ListenCmd(d.sn)]);
        assert t1 == t.(desc := t.desc[fd := d], cmds := t.cmds + [ListenCmd(d.sn)]);
        DisarmedKeeps(t1, fd);
      case OtherStatus(_) =>
        var d1, cmds := Reopened(d, turn.open), t.cmds + ReopenCmds(d, turn.open);
        SameSocketKeeps(t, fd, d1, cmds);
        DisarmedKeeps(t.(desc := t.desc[fd := d1], cmds := cmds), fd);
    }
  }

  lemma {:induction false} AcceptWaitKeeps(t: Tables, fd: int, turns: seq<Turn>, started: uint32)
    requires Inverse(t) && Listener(t, fd)
    ensures var t' := AcceptWait(t, fd, turns, started).0;
            && Inverse(t')
            && (Saturated(t) && (forall i :: 0 <= i < |turns| ==> ReliableTurn(turns[i])) ==> Saturated(t'))
    decreases |turns|
  {
    if turns != [] {
      AcceptLookKeeps(t, fd, turns[0]);
      var (t1, r) := AcceptTurn(t, fd, turns[0], started);
      if r.None? {
        AcceptWaitKeeps(t1, fd, turns[1..], started);
      }
    }
  }

  lemma ConnectKeeps(t: Tables, op: Op)
    requires Inverse(t) && op.ConnectOp?
    ensures Inverse(Apply(t, op)) && (Saturated(t) ==> Saturated(Apply(t, op)))
  {
    if FdReady(t, op.fd) {
      assert DescOk(t, op.fd);
      var d := t.desc[op.fd];
      var d1 := if d.port == 0 then d.(port := op.ephemeral) else d;
      var open := OpenCmd(d.sn, d1.port, true);
      SameSocketKeeps(t, op.fd, d.(dst := op.peer, connected := true), t.cmds);
      SameSocketKeeps(t, op.fd, d1, t.cmds + [open]);
      SameSocketKeeps(t, op.fd, d1.(isOpen := true), t.cmds + [open, ConnectCmd(d.sn, op.peer)]);
    }
  }

  /** Whatever the chip answers, every operation keeps the tables inverse; and while opens
      only succeed or are deferred, no listener waits while a socket is free. */
  lemma ApplyKeeps(t: Tables, op: Op)
    requires Inverse(t) && Legal(t, op)
    ensures Inverse(Apply(t, op))
    ensures Saturated(t) && Reliable(op) ==> Saturated(Apply(t, op))
  {
    match op
    case SocketOp(ty) => SocketKeeps(t, ty);
    case BindOp(fd, port, opens) =>
      assert FdValid(t, fd) ==> DescOk(t, fd);
      if FdReady(t, fd) {
        var d := t.desc[fd].(port := port);
        SameSocketKeeps(t, fd, d, t.cmds);
        SameSocketKeeps(t, fd, if opens then d.(isOpen := true) else d, t.cmds + [OpenCmd(d.sn, port, false)]);
      }
    case ListenOp(fd, a) =>
      if FdReady(t, fd) && !t.desc[fd].isUdp {
        var d := t.desc[fd];
        SameSocketKeeps(t, fd, Reopened(d, a).(listening := !Failed(a)), t.cmds + ReopenCmds(d, a));
      }
    case ConnectOp(fd, peer, ephemeral, opens, connects) => ConnectKeeps(t, op);
    case ConfigureOp(fd, opts, nonblocking, rdShutdown) =>
      if FdValid(t, fd) {
        assert DescOk(t, fd);
        SameSocketKeeps(t, fd, t.desc[fd].(opts := opts, nonblocking := nonblocking, rdShutdown := rdShutdown), t.cmds);
      }
    case AcceptOp(fd, turns, started) =>
      if Listener(t, fd) {
        AcceptWaitKeeps(t, fd, turns, started);
      }
    case CloseOp(fd, fin, answers) =>
      if FdValid(t, fd) {
        ClosedKeeps(t, fd, fin);
        RearmedFromKeeps(Closed(t, fd, fin), 0, answers);
      }
    case ReserveOp => ReserveKeeps(t);
    case ReleaseOp(sn, answers) =>
      if 0 <= sn < MAX_SOCK {
        ReleasedKeeps(t, sn);
        RearmedFromKeeps(t.(owner := t.owner[sn := SN_FREE], cmds := t.cmds + [CloseCmd(sn)]), 0, answers);
      }
  }
}
