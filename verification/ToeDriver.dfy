/** wiznet_toe.c itself: the two global tables as arrays, changed in place. Answers of the
    chip are arguments; the commands it is given are recorded in `cmds`. */
module ToeDriver {
  import opened Bytes
  import opened Toe
  import Deadline

  class Driver {
    const desc: array<Desc>
    const owner: array<int>
    var cmds: seq<Cmd>

    function View(): Tables
      reads this, desc, owner
    {
      Tables(desc[..], owner[..], cmds)
    }

    ghost predicate Valid()
      reads this, desc, owner
    {
      Shape(View())
    }

    /** toe_tables_init: nothing is owned, nothing is bound. */
    constructor ()
      ensures Valid() && fresh(desc) && fresh(owner)
      ensures View() == Tables(seq(MAX_DESC, i => CLEAR), seq(MAX_SOCK, i => SN_FREE), [])
    {
      desc := new Desc[MAX_DESC](i => CLEAR);
      owner := new int[MAX_SOCK](i => SN_FREE);
      cmds := [];
    }

    /** One descriptor changes; the rest of the tables stays. */
    method SetDesc(fd: int, d: Desc)
      requires Valid() && 0 <= fd < MAX_DESC && -1 <= d.sn < MAX_SOCK
      modifies desc
      ensures Valid() && View() == old(View()).(desc := old(desc[..])[fd := d])
    {
      desc[fd] := d;
      assert desc[..] == old(desc[..])[fd := d];
    }

    method SetOwner(sn: int, who: int)
      requires Valid() && 0 <= sn < MAX_SOCK
      modifies owner
      ensures Valid() && View() == old(View()).(owner := old(owner[..])[sn := who])
    {
      owner[sn] := who;
      assert owner[..] == old(owner[..])[sn := who];
    }

    method DescAlloc() returns (fd: int)
      requires Valid()
      modifies desc
      ensures Valid() && fd == FirstUnused(old(desc[..]), 0)
      ensures View() == if fd < 0 then old(View())
                        else old(View()).(desc := old(desc[..])[fd := CLEAR.(used := true)])
    {
      fd := 0;
      while fd < MAX_DESC
        invariant 0 <= fd <= MAX_DESC
        invariant FirstUnused(desc[..], 0) == FirstUnused(desc[..], fd)
      {
        if !desc[fd].used {
          SetDesc(fd, CLEAR.(used := true));
          return;
        }
        fd := fd + 1;
      }
      fd := -1;
    }

    method FindFree() returns (sn: int)
      requires Valid()
      ensures sn == FirstFree(owner[..], 0)
    {
      sn := 0;
      while sn < MAX_SOCK
        invariant 0 <= sn <= MAX_SOCK
        invariant FirstFree(owner[..], 0) == FirstFree(owner[..], sn)
      {
        if owner[sn] == SN_FREE {
          return;
        }
        sn := sn + 1;
      }
      sn := -1;
    }

    method SnAlloc(fd: int) returns (sn: int)
      requires Valid()
      modifies owner
      ensures Valid() && sn == FirstFree(old(owner[..]), 0)
      ensures View() == if sn < 0 then old(View()) else old(View()).(owner := old(owner[..])[sn := fd])
    {
      sn := FindFree();
      if sn >= 0 {
        SetOwner(sn, fd);
      }
    }

    method ListenerReopen(fd: int, a: OpenResult) returns (ok: bool)
      requires Valid() && 0 <= fd < MAX_DESC
      modifies this`cmds, desc
      ensures Valid() && ok == !Failed(a)
      ensures var d := old(desc[fd]);
              View() == old(View()).(desc := old(desc[..])[fd := Reopened(d, a)], cmds := old(cmds) + ReopenCmds(d, a))
    {
      var d := desc[fd];
      if a.NoAddress? {
        SetDesc(fd, d.(isOpen := false));
        return true;
      }
      cmds := cmds + [OpenCmd(d.sn, d.port, true)];
      if a.OpenFails? {
        assert desc[..] == old(desc[..])[fd := d];
        return false;
      }
      SetDesc(fd, d.(isOpen := true));
      cmds := cmds + [ListenCmd(d.sn)];
      assert cmds == old(cmds) + ReopenCmds(d, a);
      return a.Listens?;
    }

    method ListenerDisarm(fd: int)
      requires Valid() && 0 <= fd < MAX_DESC
      modifies desc, owner
      ensures Valid() && View() == Disarmed(old(View()), fd)
    {
      var d := desc[fd];
      if d.sn >= 0 {
        SetOwner(d.sn, SN_FREE);
      }
      SetDesc(fd, d.(sn := -1, isOpen := false));
    }

    method ListenerRearm(fd: int, a: OpenResult)
      requires Valid() && 0 <= fd < MAX_DESC
      modifies this`cmds, desc, owner
      ensures Valid() && View() == Rearmed(old(View()), fd, a)
    {
      if desc[fd].sn >= 0 {
        return;
      }
      var sn := SnAlloc(fd);
      if sn < 0 {
        return;
      }
      SetDesc(fd, desc[fd].(sn := sn));
      var ok := ListenerReopen(fd, a);
      if !ok {
        ListenerDisarm(fd);
        assert owner[..] == old(owner[..]);
      }
    }

    method RearmPendingListeners(answers: seq<OpenResult>)
      requires Valid() && |answers| == MAX_DESC
      modifies this`cmds, desc, owner
      ensures Valid() && View() == RearmedFrom(old(View()), 0, answers)
    {
      for fd := 0 to MAX_DESC
        invariant Valid() && RearmedFrom(View(), fd, answers) == RearmedFrom(old(View()), 0, answers)
      {
        if Unarmed(desc[fd]) && desc[fd].listening {
          ListenerRearm(fd, answers[fd]);
        }
      }
    }

    method Socket(ty: int) returns (ret: int)
      requires Valid()
      modifies desc, owner
      ensures Valid() && Outcome(View(), ret) == Toe.Socket(old(View()), ty)
    {
      if ty != SOCK_STREAM && ty != SOCK_DGRAM {
        return ERR;
      }
      var fd := DescAlloc();
      if fd < 0 {
        return ERR;
      }
      var sn := SnAlloc(fd);
      if sn < 0 {
        SetDesc(fd, CLEAR);
        return ERR;
      }
      SetDesc(fd, desc[fd].(sn := sn, isUdp := ty == SOCK_DGRAM));
      return fd;
    }

    method Bind(fd: int, port: uint16, opens: bool) returns (ret: int)
      requires Valid()
      modifies this`cmds, desc
      ensures Valid() && Outcome(View(), ret) == Toe.Bind(old(View()), fd, port, opens)
    {
      if !FdReady(View(), fd) {
        return ERR;
      }
      SetDesc(fd, desc[fd].(port := port));
      if desc[fd].isUdp {
        cmds := cmds + [OpenCmd(desc[fd].sn, port, false)];
        if !opens {
          return ERR;
        }
        SetDesc(fd, desc[fd].(isOpen := true));
      }
      return 0;
    }

    method Listen(fd: int, a: OpenResult) returns (ret: int)
      requires Valid()
      modifies this`cmds, desc
      ensures Valid() && Outcome(View(), ret) == Toe.Listen(old(View()), fd, a)
    {
      if !FdReady(View(), fd) || desc[fd].isUdp {
        return ERR;
      }
      SetDesc(fd, desc[fd].(listening := true));
      var ok := ListenerReopen(fd, a);
      if !ok {
        SetDesc(fd, desc[fd].(listening := false));
        return ERR;
      }
      return 0;
    }

    method Connect(fd: int, peer: Peer, ephemeral: uint16, opens: bool, connects: bool) returns (ret: int)
      requires Valid()
      modifies this`cmds, desc
      ensures Valid() && Outcome(View(), ret) == Toe.Connect(old(View()), fd, peer, ephemeral, opens, connects)
    {
      if !FdReady(View(), fd) {
        return ERR;
      }
      if desc[fd].isUdp {
        SetDesc(fd, desc[fd].(dst := peer, connected := true));
        return 0;
      }
      SetDesc(fd, if desc[fd].port == 0 then desc[fd].(port := ephemeral) else desc[fd]);
      var sn := desc[fd].sn;
      cmds := cmds + [OpenCmd(sn, desc[fd].port, true)];
      if !opens {
        return ERR;
      }
      SetDesc(fd, desc[fd].(isOpen := true));
      cmds := cmds + [ConnectCmd(sn, peer)];
      return if connects then 0 else ERR;
    }

    method Close(fd: int, fin: bool, answers: seq<OpenResult>) returns (ret: int)
      requires Valid() && |answers| == MAX_DESC
      modifies this`cmds, desc, owner
      ensures Valid() && Outcome(View(), ret) == Toe.Close(old(View()), fd, fin, answers)
    {
      if !FdValid(View(), fd) {
        return ERR;
      }
      var d := desc[fd];
      if d.sn >= 0 {
        if !d.isUdp && fin {
          cmds := cmds + [DisconCmd(d.sn)];
        }
        if d.isOpen {
          cmds := cmds + [CloseCmd(d.sn)];
        }
        SetOwner(d.sn, SN_FREE);
        assert cmds == old(cmds) + CloseCmds(d, fin);
      }
      SetDesc(fd, CLEAR);
      assert View() == Closed(old(View()), fd, fin);
      RearmPendingListeners(answers);
      return 0;
    }

    method SocketReserve() returns (ret: int)
      requires Valid()
      modifies owner
      ensures Valid() && Outcome(View(), ret) == Toe.Reserve(old(View()))
    {
      ret := FindFree();
      if ret >= 0 {
        SetOwner(ret, SN_RAW);
      }
    }

    method SocketRelease(sn: int, answers: seq<OpenResult>)
      requires Valid() && |answers| == MAX_DESC
      modifies this`cmds, desc, owner
      ensures Valid() && View() == Toe.Release(old(View()), sn, answers).t
    {
      if 0 <= sn < MAX_SOCK {
        cmds := cmds + [CloseCmd(sn)];
        SetOwner(sn, SN_FREE);
        RearmPendingListeners(answers);
      }
    }

    method AcceptEstablished(fd: int, a: OpenResult) returns (ret: int)
      requires Valid() && FdReady(View(), fd)
      modifies this`cmds, desc, owner
      ensures Valid() && Outcome(View(), ret) == Toe.AcceptEstablished(old(View()), fd, a)
    {
      var l := desc[fd];
      var cfd := DescAlloc();
      if cfd < 0 {
        return ERR_WOULDBLOCK;
      }
      SetDesc(cfd, desc[cfd].(sn := l.sn, isOpen := true, connected := true, port := l.port, opts := l.opts));
      SetOwner(l.sn, cfd);
      SetDesc(fd, l.(sn := -1, isOpen := false));
      assert desc[..] == old(desc[..])[cfd := ConnectionDesc(l)][fd := l.(sn := -1, isOpen := false)];
      ListenerRearm(fd, a);
      return cfd;
    }

    method AcceptOnce(fd: int, turn: Turn) returns (done: Option<int>)
      requires Valid() && Listener(View(), fd)
      modifies this`cmds, desc, owner
      ensures Valid() && (View(), done) == AcceptLook(old(View()), fd, turn)
      ensures done.None? ==> desc[fd].nonblocking == old(desc[fd].nonblocking) && desc[fd].opts == old(desc[fd].opts)
    {
      done := None;
      var sn := desc[fd].sn;
      if sn < 0 {
        ListenerRearm(fd, turn.open);
        return;
      }
      match turn.sr {
        case Listening =>
        case SynRecv =>
        case InitState =>
          cmds := cmds + [ListenCmd(sn)];
          if !turn.listenOk {
            ListenerDisarm(fd);
          }
        case OtherStatus(_) =>
          var ok := ListenerReopen(fd, turn.open);
          if !ok {
            ListenerDisarm(fd);
          }
        case _ =>
          var ret := AcceptEstablished(fd, turn.open);
          done := Some(ret);
      }
    }

    /** None: accept() has not returned within these turns. */
    method Accept(fd: int, turns: seq<Turn>, started: uint32) returns (ret: Option<int>)
      requires Valid()
      modifies this`cmds, desc, owner
      ensures Valid() && (View(), ret) == Toe.Accept(old(View()), fd, turns, started)
    {
      if !Listener(View(), fd) {
        return Some(ERR);
      }
      for i := 0 to |turns|
        invariant Valid() && Listener(View(), fd)
        invariant AcceptWait(View(), fd, turns[i..], started) == AcceptWait(old(View()), fd, turns, started)
      {
        var turn := turns[i];
        assert turns[i..][0] == turn && turns[i..][1..] == turns[i + 1..];
        var done := AcceptOnce(fd, turn);
        if done.Some? {
          return done;
        }
        if desc[fd].nonblocking {
          return Some(ERR_WOULDBLOCK);
        }
        if Deadline.Passed(turn.now, started, desc[fd].opts.rcvTimeoutMs) {
          return Some(ERR_TIMEOUT);
        }
      }
      return None;
    }
  }
}
