/** The allocator over whole runs: the socket budget in closed form, and what accept() does
    with a connection. */
module ToeBudget {
  import opened Bytes
  import opened Toe
  import opened ToeInvariant
  import Deadline

  // ------------------------------------------------------------------ runs

  const FRESH := Tables(seq(MAX_DESC, i => CLEAR), seq(MAX_SOCK, i => SN_FREE), [])

  ghost predicate LegalRun(t: Tables, ops: seq<Op>)
    requires Shape(t)
    decreases |ops|
  {
    ops == [] || (Legal(t, ops[0]) && LegalRun(Apply(t, ops[0]), ops[1..]))
  }

  function RunOps(t: Tables, ops: seq<Op>): (t': Tables)
    requires Shape(t) && LegalRun(t, ops)
    ensures Shape(t')
    decreases |ops|
  {
    if ops == [] then t else RunOps(Apply(t, ops[0]), ops[1..])
  }

  lemma {:induction false} RunKeeps(t: Tables, ops: seq<Op>)
    requires Inverse(t) && LegalRun(t, ops)
    ensures Inverse(RunOps(t, ops))
    ensures Saturated(t) && (forall i :: 0 <= i < |ops| ==> Reliable(ops[i])) ==> Saturated(RunOps(t, ops))
    decreases |ops|
  {
    if ops != [] {
      ApplyKeeps(t, ops[0]);
      RunKeeps(Apply(t, ops[0]), ops[1..]);
    }
  }

  /** For every chip behaviour, failing opens included, every run keeps the tables inverse. */
  lemma EveryRunIsInverse(ops: seq<Op>)
    requires LegalRun(FRESH, ops)
    ensures Inverse(RunOps(FRESH, ops))
  {
    RunKeeps(FRESH, ops);
  }

  // ------------------------------------------------------------------ counting

  function UsedDescs(t: Tables): set<nat>
    requires Shape(t)
  {
    set fd: nat | fd < MAX_DESC && t.desc[fd].used
  }

  function UnarmedDescs(t: Tables): set<nat>
    requires Shape(t)
  {
    set fd: nat | fd < MAX_DESC && Unarmed(t.desc[fd])
  }

  function ArmedDescs(t: Tables): set<nat>
    requires Shape(t)
  {
    set fd: nat | fd < MAX_DESC && t.desc[fd].used && t.desc[fd].sn >= 0
  }

  function SocksOwnedBy(t: Tables, who: int): set<nat>
    requires Shape(t)
  {
    set sn: nat | sn < MAX_SOCK && t.owner[sn] == who
  }

  function OwnedSocks(t: Tables): set<nat>
    requires Shape(t)
  {
    set sn: nat | sn < MAX_SOCK && t.owner[sn] >= 0
  }

  function Upto(n: nat): set<nat> {
    if n == 0 then {} else Upto(n - 1) + {n - 1}
  }

  lemma {:induction false} UptoSize(n: nat)
    ensures |Upto(n)| == n && forall k: nat :: k in Upto(n) <==> k < n
  {
    if n > 0 {
      UptoSize(n - 1);
    }
  }

  /** Sets paired off by two mutually inverse tables have the same size. */
  lemma {:induction false} PairedOff(descs: set<nat>, socks: set<nat>, toSock: map<nat, nat>, toDesc: map<nat, nat>)
    requires forall d :: d in descs ==> d in toSock && toSock[d] in socks && toSock[d] in toDesc && toDesc[toSock[d]] == d
    requires forall s :: s in socks ==> s in toDesc && toDesc[s] in descs && toDesc[s] in toSock && toSock[toDesc[s]] == s
    ensures |descs| == |socks|
    decreases |descs|
  {
    if descs != {} {
      var d :| d in descs;
      PairedOff(descs - {d}, socks - {toSock[d]}, toSock, toDesc);
    } else {
      assert socks == {};
    }
  }

  lemma ArmedAsManyAsOwned(t: Tables)
    requires Inverse(t)
    ensures |ArmedDescs(t)| == |OwnedSocks(t)|
  {
    var toSock := map fd | fd in ArmedDescs(t) :: t.desc[fd].sn;
    var toDesc := map sn | sn in OwnedSocks(t) :: t.owner[sn];
    assert forall fd :: fd in ArmedDescs(t) ==> DescOk(t, fd);
    assert forall sn :: sn in OwnedSocks(t) ==> OwnerOk(t, sn);
    PairedOff(ArmedDescs(t), OwnedSocks(t), toSock, toDesc);
  }

  lemma DisjointUnionSize(a: set<nat>, b: set<nat>)
    requires a !! b
    ensures |a + b| == |a| + |b|
  {
  }

  lemma ThreeParts(a: set<nat>, b: set<nat>, c: set<nat>, n: nat)
    requires a !! b && a + b !! c
    requires forall k: nat :: k in a || k in b || k in c <==> k < n
    ensures |a| + |b| + |c| == n
  {
    UptoSize(n);
    assert a + b + c == Upto(n);
    DisjointUnionSize(a, b);
    DisjointUnionSize(a + b, c);
  }

  lemma SocketsPartition(t: Tables)
    requires Inverse(t)
    ensures |SocksOwnedBy(t, SN_FREE)| + |SocksOwnedBy(t, SN_RAW)| + |OwnedSocks(t)| == MAX_SOCK
  {
    var free, raw, owned := SocksOwnedBy(t, SN_FREE), SocksOwnedBy(t, SN_RAW), OwnedSocks(t);
    forall sn: nat ensures sn in free || sn in raw || sn in owned <==> sn < MAX_SOCK {
      if sn < MAX_SOCK {
        assert OwnerOk(t, sn);
      }
    }
    ThreeParts(free, raw, owned, MAX_SOCK);
  }

  /** Every socket is free, raw or held by an armed descriptor. */
  lemma SocketsAddUp(t: Tables)
    requires Inverse(t)
    ensures |SocksOwnedBy(t, SN_FREE)| + |SocksOwnedBy(t, SN_RAW)| + |UsedDescs(t)| == MAX_SOCK + |UnarmedDescs(t)|
  {
    SocketsPartition(t);
    ArmedAsManyAsOwned(t);
    assert UsedDescs(t) == ArmedDescs(t) + UnarmedDescs(t);
    DisjointUnionSize(ArmedDescs(t), UnarmedDescs(t));
  }

  function Max(a: int, b: int): int {
    if a > b then a else b
  }

  /** The socket budget: how many sockets are free and how many listeners wait for one
      depends only on the number of descriptors in use and of raw sockets. */
  predicate ClosedForm(t: Tables)
    requires Shape(t)
  {
    var busy := |UsedDescs(t)| + |SocksOwnedBy(t, SN_RAW)|;
    && |SocksOwnedBy(t, SN_FREE)| == Max(0, MAX_SOCK - busy)
    && |UnarmedDescs(t)| == Max(0, busy - MAX_SOCK)
  }

  lemma ClosedFormIff(t: Tables)
    requires Inverse(t)
    ensures Saturated(t) <==> ClosedForm(t)
  {
    SocketsAddUp(t);
    if Saturated(t) {
      if fd :| fd in UnarmedDescs(t) {
        assert SocksOwnedBy(t, SN_FREE) == {};
      } else {
        assert UnarmedDescs(t) == {};
      }
    } else {
      var fd, sn :| 0 <= fd < MAX_DESC && 0 <= sn < MAX_SOCK && Unarmed(t.desc[fd]) && t.owner[sn] == SN_FREE;
      assert fd in UnarmedDescs(t) && sn in SocksOwnedBy(t, SN_FREE);
    }
  }

  /** In every state reached while opens only succeed or are deferred. */
  lemma EveryReliableRunIsClosedForm(ops: seq<Op>)
    requires LegalRun(FRESH, ops) && forall i :: 0 <= i < |ops| ==> Reliable(ops[i])
    ensures Inverse(RunOps(FRESH, ops)) && ClosedForm(RunOps(FRESH, ops))
  {
    RunKeeps(FRESH, ops);
    ClosedFormIff(RunOps(FRESH, ops));
  }

  // ------------------------------------------------------------------ what the budget buys

  lemma {:induction false} SubsetSize(a: set<nat>, b: set<nat>)
    requires a <= b
    ensures |a| <= |b|
    ensures |a| == |b| ==> a == b
    decreases |a|
  {
    if a != {} {
      var x :| x in a;
      SubsetSize(a - {x}, b - {x});
      assert |a| == |b| ==> a == (a - {x}) + {x} == (b - {x}) + {x} == b;
    } else if b != {} {
      var y :| y in b;
      assert |b - {y}| < |b|;
    }
  }

  lemma AllUsedIff(t: Tables)
    requires Shape(t)
    ensures FirstUnused(t.desc, 0) < 0 <==> |UsedDescs(t)| == MAX_DESC
    ensures |UsedDescs(t)| <= MAX_DESC
  {
    UptoSize(MAX_DESC);
    SubsetSize(UsedDescs(t), Upto(MAX_DESC));
    var fd := FirstUnused(t.desc, 0);
    if fd < 0 {
      assert UsedDescs(t) == Upto(MAX_DESC);
    } else {
      assert fd in Upto(MAX_DESC) && fd !in UsedDescs(t);
    }
  }

  /** socket() succeeds exactly while the budget of eight is not spent. */
  lemma SocketSucceedsIff(t: Tables, ty: int)
    requires Inverse(t) && ClosedForm(t)
    ensures Socket(t, ty).ret >= 0 <==>
            (ty == SOCK_STREAM || ty == SOCK_DGRAM) && |UsedDescs(t)| + |SocksOwnedBy(t, SN_RAW)| < MAX_SOCK
  {
    AllUsedIff(t);
    var sn := FirstFree(t.owner, 0);
    if sn < 0 {
      assert SocksOwnedBy(t, SN_FREE) == {};
    } else {
      assert sn in SocksOwnedBy(t, SN_FREE);
    }
  }

  /** accept() on an established (or half-closed) listener: the connection is either returned
      under a new descriptor on that very socket, with the listener keeping its port and its
      role and every other descriptor untouched, or nothing at all has changed. */
  lemma AcceptNeverLoses(t: Tables, fd: int, turn: Turn)
    requires Inverse(t) && Listener(t, fd) && FdReady(t, fd) && (turn.sr.Established? || turn.sr.CloseWait?)
    ensures var l := t.desc[fd];
            var (t', r) := AcceptLook(t, fd, turn);
            if |UsedDescs(t)| < MAX_DESC then
              && r.Some? && FdReady(t', r.value) && !t.desc[r.value].used && r.value != fd
              && t'.owner[l.sn] == r.value
              && t'.desc[r.value] == Desc(true, l.sn, false, true, false, true, false, false, l.port, l.opts, Peer(0, 0))
              && t'.desc[fd].used && t'.desc[fd].listening && t'.desc[fd].port == l.port && t'.desc[fd].opts == l.opts
              && (t'.desc[fd].sn >= 0 ==> t.owner[t'.desc[fd].sn] == SN_FREE)
              && forall k :: 0 <= k < MAX_DESC && k != fd && k != r.value ==> t'.desc[k] == t.desc[k]
            else t' == t && r == Some(ERR_WOULDBLOCK)
  {
    AllUsedIff(t);
    assert DescOk(t, fd);
    var cfd := FirstUnused(t.desc, 0);
    if cfd >= 0 {
      assert FirstFree(HandedOver(t, fd, cfd).owner, 0) >= 0 ==>
          t.owner[FirstFree(HandedOver(t, fd, cfd).owner, 0)] == SN_FREE;
    }
  }

  predicate Quiet(turn: Turn) {
    turn.sr.Listening? || turn.sr.SynRecv?
  }

  /** A listener whose socket listens, or is in a handshake, is left alone for as long as it is
      polled: no command, no change in the tables, and no connection. Non-blocking it is looked
      at once; otherwise the call goes on until the receive timeout has passed. */
  lemma {:induction false} QuietListenerUntouched(t: Tables, fd: int, turns: seq<Turn>, started: uint32)
    requires Shape(t) && Listener(t, fd) && FdReady(t, fd)
    requires forall i :: 0 <= i < |turns| ==> Quiet(turns[i])
    ensures var d := t.desc[fd];
            var over := exists i :: 0 <= i < |turns| && Deadline.Passed(turns[i].now, started, d.opts.rcvTimeoutMs);
            AcceptWait(t, fd, turns, started) ==
            (t, if turns == [] then None else if d.nonblocking then Some(-3) else if over then Some(-2) else None)
    decreases |turns|
  {
    if turns != [] {
      assert AcceptTurn(t, fd, turns[0], started).0 == t;
      QuietListenerUntouched(t, fd, turns[1..], started);
    }
  }

  /** A connection that is established while accept() waits is taken, at the first look at it. */
  lemma {:induction false} PendingIsTaken(t: Tables, fd: int, turns: seq<Turn>, k: nat, started: uint32)
    requires Inverse(t) && Listener(t, fd) && FdReady(t, fd) && |UsedDescs(t)| < MAX_DESC && k < |turns|
    requires forall i :: 0 <= i < k ==> Quiet(turns[i]) && !t.desc[fd].nonblocking
                                        && !Deadline.Passed(turns[i].now, started, t.desc[fd].opts.rcvTimeoutMs)
    requires turns[k].sr.Established? || turns[k].sr.CloseWait?
    ensures var (t', r) := AcceptWait(t, fd, turns, started);
            r.Some? && r.value != fd && FdReady(t', r.value) && !t.desc[r.value].used && t'.desc[r.value].sn == t.desc[fd].sn
    decreases k
  {
    AcceptNeverLoses(t, fd, turns[k]);
    if k > 0 {
      assert AcceptTurn(t, fd, turns[0], started) == (t, None);
      PendingIsTaken(t, fd, turns[1..], k - 1, started);
    }
  }

  /** accept() commands no socket that belongs to anyone else. */
  lemma AcceptCommandsOwnSocket(t: Tables, fd: int, turn: Turn, i: nat)
    requires Inverse(t) && Listener(t, fd)
    requires |t.cmds| <= i < |AcceptLook(t, fd, turn).0.cmds|
    ensures t.cmds <= AcceptLook(t, fd, turn).0.cmds
    ensures var sn := AcceptLook(t, fd, turn).0.cmds[i].sn;
            && 0 <= sn < MAX_SOCK && (t.owner[sn] == fd || t.owner[sn] == SN_FREE)
            && !((turn.sr.Established? || turn.sr.CloseWait?) && sn == t.desc[fd].sn)
  {
    assert DescOk(t, fd);
    if FdReady(t, fd) {
      assert OwnerOk(t, t.desc[fd].sn);
    }
  }

  lemma UnionSize(a: set<nat>, b: set<nat>)
    ensures |a + b| <= |a| + |b|
  {
  }

  /** With no raw socket, four listeners and at most one connection each, every listener has
      a socket and a pending connection can always be taken. */
  lemma FourListenersNeverStarve(t: Tables, listeners: set<nat>, connections: set<nat>)
    requires Inverse(t) && ClosedForm(t) && SocksOwnedBy(t, SN_RAW) == {}
    requires UsedDescs(t) == listeners + connections && |listeners| == 4 && |connections| <= 4
    ensures UnarmedDescs(t) == {}
    ensures forall fd, turn: Turn :: Listener(t, fd) && (turn.sr.Established? || turn.sr.CloseWait?) && |connections| < 4
              ==> FdReady(t, fd) && AcceptLook(t, fd, turn).1.Some? && AcceptLook(t, fd, turn).1.value >= 0
  {
    UnionSize(listeners, connections);
    forall fd, turn: Turn | Listener(t, fd) && (turn.sr.Established? || turn.sr.CloseWait?) && |connections| < 4
      ensures FdReady(t, fd) && AcceptLook(t, fd, turn).1.Some? && AcceptLook(t, fd, turn).1.value >= 0
    {
      assert fd !in UnarmedDescs(t);
      AcceptNeverLoses(t, fd, turn);
    }
  }

  /** Eight listeners use up every descriptor: accept() hands out nothing, on any of them,
      for as long as it is polled. */
  lemma {:induction false} EightListenersAcceptNobody(t: Tables, fd: int, turns: seq<Turn>, started: uint32)
    requires Inverse(t) && Listener(t, fd) && |UsedDescs(t)| == MAX_DESC
    ensures var (t', r) := AcceptWait(t, fd, turns, started);
            UsedDescs(t') == UsedDescs(t) && (r.Some? ==> r.value < 0)
    decreases |turns|
  {
    if turns != [] {
      AllUsedIff(t);
      AcceptLookKeeps(t, fd, turns[0]);
      var (t1, r) := AcceptTurn(t, fd, turns[0], started);
      assert UsedDescs(t1) == UsedDescs(t);
      if r.None? {
        EightListenersAcceptNobody(t1, fd, turns[1..], started);
      }
    }
  }
}
