/** readv() and writev() of port/ioLibrary_Driver/src/wiztoe_wrap.c on top of wiztoe_recv and
    wiztoe_send. */
module Gather {
  import opened Bytes
  import Deadline
  import Toe

  const MAX_TRANSFER := 0xFFFF

  datatype Errno = Ok | EInval | EWouldBlock | EIo

  /** How ioLibrary's recv() or send() answers: it moves some bytes, is busy with an earlier
      transfer, finds the socket closed, or fails. */
  datatype Answer = Moves(n: nat) | IsBusy | IsClosed | Fails

  /** What the driver finds when it looks at the chip: bytes that arrived since the last look,
      the socket status, the free space in the transmit buffer, and the answer to a transfer
      it starts now. */
  datatype Look = Look(arrived: seq<byte>, sr: Toe.Status, room: uint16, answer: Answer)

  /** A look when the script has run out: the connection is gone. */
  const GONE := Look([], Toe.OtherStatus(0), 0, IsClosed)

  datatype Event = Yielded | Checked(available: int) | Transfer(asked: nat, ret: int)

  /** The connection can still send. */
  predicate Up(l: Look) {
    l.sr.Established? || l.sr.CloseWait?
  }

  function Arrivals(script: seq<Look>): seq<byte> {
    if script == [] then [] else script[0].arrived + Arrivals(script[1..])
  }

  /** What a transfer of at most `most` bytes moves when ioLibrary would move n. */
  function Clamp(n: nat, most: nat): nat {
    Min(if n == 0 then 1 else n, most)
  }

  predicate IsWouldBlock(rc: int) {
    rc == Toe.ERR_TIMEOUT || rc == Toe.ERR_WOULDBLOCK
  }

  /** The last event is a failed transfer, and `e` the errno it stands for. */
  predicate FailsFor(last: Event, e: Errno) {
    last.Transfer? && last.ret < 0 && e == if IsWouldBlock(last.ret) then EWouldBlock else EIo
  }

  /** The bytes a return value stands for. */
  function Count(ret: int): nat {
    if ret < 0 then 0 else ret
  }

  /** Before event m nothing moves, and from there on the caller is never put to sleep. */
  predicate Turnover(log: seq<Event>, from: nat, m: nat) {
    && from <= m <= |log|
    && (forall k :: from <= k < m && log[k].Transfer? ==> log[k].ret <= 0)
    && (forall k :: m <= k < |log| ==> !log[k].Yielded?)
  }

  /** Once bytes have moved, the caller is never put to sleep. */
  ghost predicate NeverWaitsHolding(log: seq<Event>, from: nat) {
    exists m :: Turnover(log, from, m)
  }

  lemma HoldingMeansNoSleep(log: seq<Event>, from: nat, i: nat, j: nat)
    requires NeverWaitsHolding(log, from) && from <= i < j < |log|
    requires log[i].Transfer? && log[i].ret > 0
    ensures !log[j].Yielded?
  {
  }

  /** A count short of what was asked is explained by the last thing that happened: nothing was
      waiting in the chip, or the last transfer did not fill its buffer. */
  function Last(log: seq<Event>): Event
    requires |log| > 0
  {
    log[|log| - 1]
  }

  /** What one turn of readv with `total` bytes in hand adds to the log when it moves `n`. */
  predicate TurnLog(log: seq<Event>, log': seq<Event>, total: nat, n: nat) {
    && log <= log'
    && (forall k :: |log| <= k < |log'| && log'[k].Yielded? ==> total == 0)
    && (forall k :: |log| <= k < |log'| && log'[k].Transfer? && log'[k].ret > 0 ==> n > 0 && k == |log'| - 1)
    && (n > 0 ==> |log'| > |log| && Last(log').Transfer?)
  }

  /** The turnover point after such a turn, if it was m before. */
  function NextTurnover(log': seq<Event>, m: nat, total: nat, n: nat): nat
    requires |log'| > 0 || n == 0
  {
    if total > 0 then m else if n > 0 then |log'| - 1 else |log'|
  }

  lemma OrderlyTurn(log: seq<Event>, log': seq<Event>, from: nat, m: nat, total: nat, n: nat)
    requires from <= |log| && Turnover(log, from, m) && TurnLog(log, log', total, n)
    requires total == 0 ==> m == |log|
    ensures Turnover(log', from, NextTurnover(log', m, total, n))
  {
  }

  /** Everything from `from` up to the last event is a 1 ms sleep. */
  predicate OnlySleeps(log: seq<Event>, from: nat) {
    forall i :: from <= i < |log| - 1 ==> log[i].Yielded?
  }

  predicate StopsFor(e: Event) {
    match e
    case Yielded => false
    case Checked(n) => n <= 0
    case Transfer(asked, ret) => ret < asked
  }

  // ------------------------------------------------------------------ buffers

  ghost function Snap(bufs: seq<array<byte>>): (ss: seq<seq<byte>>)
    reads bufs
    ensures |ss| == |bufs| && forall i :: 0 <= i < |bufs| ==> ss[i] == bufs[i][..]
  {
    seq(|bufs|, i requires 0 <= i < |bufs| reads bufs => bufs[i][..])
  }

  ghost predicate Distinct(bufs: seq<array<byte>>) {
    forall i, j :: 0 <= i < j < |bufs| ==> bufs[i] != bufs[j]
  }

  /** The buffers `was` have become `now`: `data` has filled the first i of them. */
  predicate Progress(apart: bool, was: seq<seq<byte>>, now: seq<seq<byte>>, i: nat, data: seq<byte>) {
    && |now| == |was| && i <= |was| && |data| == |Flatten(was[..i])|
    && (apart ==> Flatten(now[..i]) == data && now[i..] == was[i..])
  }

  /** n bytes went from the front of `stream`, at most as many as the buffers hold. When no two
      buffers share memory they are the front of the concatenated buffers, and the rest of
      these is untouched. */
  ghost predicate Moved(apart: bool, was: seq<seq<byte>>, now: seq<seq<byte>>, stream: seq<byte>, rest: seq<byte>, n: nat) {
    && n <= |Flatten(was)| && n <= |stream|
    && rest == stream[n..]
    && (apart ==> Flatten(now) == stream[..n] + Flatten(was)[n..])
  }

  predicate Holds(apart: bool, was: seq<seq<byte>>, now: seq<seq<byte>>, data: seq<byte>) {
    |data| <= |Flatten(was)| && (apart ==> Flatten(now) == data + Flatten(was)[|data|..])
  }

  lemma MovedIs(apart: bool, was: seq<seq<byte>>, now: seq<seq<byte>>, data: seq<byte>, rest: seq<byte>)
    requires Holds(apart, was, now, data)
    ensures Moved(apart, was, now, data + rest, rest, |data|)
  {
  }

  lemma HeadAndTail(data: seq<byte>, a: seq<byte>, b: seq<byte>, d: seq<byte>, c: seq<byte>)
    requires |data| == |a| && |d| <= |b|
    ensures data + ((d + b[|d|..]) + c) == (data + d) + (a + (b + c))[|data + d|..]
  {
  }

  lemma One(s: seq<byte>, rest: seq<seq<byte>>)
    ensures Flatten([s] + rest) == s + Flatten(rest)
  {
  }

  lemma Around(a: seq<seq<byte>>, b: seq<byte>, c: seq<seq<byte>>)
    ensures Flatten(a + ([b] + c)) == Flatten(a) + (b + Flatten(c))
  {
    FlattenAppend(a, [b] + c);
    One(b, c);
  }

  lemma Cut<T>(ss: seq<T>, i: nat)
    requires i < |ss|
    ensures ss == ss[..i] + ([ss[i]] + ss[i + 1..]) && ss[..i + 1] == ss[..i] + [ss[i]]
  {
  }

  lemma Grown(got: seq<seq<byte>>, d: seq<byte>)
    ensures Flatten(got + [d]) == Flatten(got) + d
  {
    FlattenAppend(got, [d]);
    One(d, []);
    assert [d] + [] == [d];
    assert Flatten<byte>([]) == [];
  }

  lemma Split(ss: seq<seq<byte>>, i: nat)
    requires i < |ss|
    ensures Flatten(ss) == Flatten(ss[..i]) + (ss[i] + Flatten(ss[i + 1..]))
    ensures Flatten(ss[..i + 1]) == Flatten(ss[..i]) + ss[i]
  {
    Cut(ss, i);
    Around(ss[..i], ss[i], ss[i + 1..]);
    Grown(ss[..i], ss[i]);
  }

  lemma ProgressTurn(apart: bool, was: seq<seq<byte>>, now: seq<seq<byte>>, now': seq<seq<byte>>, i: nat,
                     data: seq<byte>, d: seq<byte>, stream: seq<byte>, rest: seq<byte>, rest': seq<byte>)
    requires Progress(apart, was, now, i, data) && i < |was| && |d| <= |was[i]| && |now'| == |was|
    requires apart ==> now' == now[i := d + was[i][|d|..]]
    requires stream == data + rest && rest == d + rest'
    ensures Holds(apart, was, now', data + d) && stream == (data + d) + rest'
    ensures |d| == |was[i]| ==> Progress(apart, was, now', i + 1, data + d)
  {
    Split(was, i);
    if apart {
      Split(now', i);
      assert now'[..i] == now[..i];
      assert now'[i + 1..] == now[i..][1..] == was[i..][1..] == was[i + 1..];
      HeadAndTail(data, Flatten(was[..i]), was[i], d, Flatten(was[i + 1..]));
      if |d| == |was[i]| {
        assert d + was[i][|d|..] == d;
      }
    }
  }

  lemma Complete(apart: bool, was: seq<seq<byte>>, now: seq<seq<byte>>, data: seq<byte>)
    requires Progress(apart, was, now, |was|, data)
    ensures Holds(apart, was, now, data) && |data| == |Flatten(was)|
  {
    assert was[..|was|] == was && now[..|was|] == now;
    assert data + [] == data && Flatten(was)[|data|..] == [];
  }

  lemma Tail(a: seq<byte>, b: seq<byte>, c: seq<byte>, n: nat)
    requires n <= |b|
    ensures (a + (b + c))[|a| + n..] == b[n..] + c
    ensures (a + (b + c))[..|a| + n] == a + b[..n]
  {
  }

  /** A write of n bytes of buffer i, once all before it are written. */
  lemma WriteTurn(ss: seq<seq<byte>>, i: nat, written: seq<byte>, n: nat)
    requires i < |ss| && written == Flatten(ss[..i]) && n <= |ss[i]|
    ensures written + ss[i][..n] <= Flatten(ss)
    ensures n == |ss[i]| ==> Flatten(ss[..i + 1]) == written + ss[i][..n]
  {
    Split(ss, i);
    assert written + ss[i][..n] == Flatten(ss)[..|written| + n];
    Tail(written, ss[i], Flatten(ss[i + 1..]), n);
    assert n == |ss[i]| ==> ss[i][..n] == ss[i];
  }

  /** How one turn of readv ends. */
  datatype Fill = Full(n: nat) | Stopped(n: nat) | Failed(errno: Errno) {
    function Bytes(): nat {
      if Failed? then 0 else n
    }
  }

  class Connection {
    // The descriptor and the chip underneath it.
    const desc: Toe.Desc
    const clock: nat -> uint32
    var script: seq<Look>
    var rx: seq<byte>      // the chip's receive buffer
    var wire: seq<byte>    // what the transmit buffer took
    var lastLook: Look     // what the last look at the chip found
    var readings: nat
    var log: seq<Event>

    constructor (desc: Toe.Desc, clock: nat -> uint32, script: seq<Look>)
      ensures this.desc == desc && this.script == script && rx == [] && wire == [] && log == []
    {
      this.desc, this.clock, this.script := desc, clock, script;
      lastLook, rx, wire, readings, log := GONE, [], [], 0, [];
    }

    /** All the bytes this connection still delivers, now and later. */
    ghost function Incoming(): seq<byte>
      reads this
    {
      rx + Arrivals(script)
    }

    predicate Ready() {
      desc.used && desc.sn >= 0
    }

    /** The last reading of the clock is past the deadline of a wait that began with reading
        number `from`. */
    predicate TimedOut(from: nat, timeoutMs: uint32)
      reads this
    {
      readings > 0 && Deadline.Passed(clock(readings - 1), clock(from), timeoutMs)
    }

    method NowUs() returns (t: uint32)
      modifies this`readings
      ensures t == clock(old(readings)) && readings == old(readings) + 1
    {
      t := clock(readings);
      readings := readings + 1;
    }

    method LookAtChip() returns (l: Look)
      modifies this`script, this`lastLook, this`rx
      ensures Incoming() == old(Incoming()) && |rx| >= |old(rx)|
      ensures old(script) == [] ==> script == [] && l == GONE
      ensures old(script) != [] ==> script == old(script)[1..] && l == old(script)[0] && rx == old(rx) + l.arrived
      ensures lastLook == l
    {
      lastLook := GONE;
      if script == [] {
        return GONE;
      }
      l := script[0];
      lastLook := l;
      rx := rx + l.arrived;
      script := script[1..];
    }

    method Yield1ms()
      modifies this`log
      ensures log == old(log) + [Yielded]
    {
      log := log + [Yielded];
    }

    /** A read finds bytes to take, and ioLibrary will move some. */
    predicate Receivable(len: nat)
      reads this
    {
      && Ready() && !desc.isUdp && !desc.rdShutdown && len > 0
      && |script| >= 2 && rx + script[0].arrived != [] && script[1].answer.Moves?
    }

    /** The last look found nothing to read on a connection that is not established, or
        ioLibrary moved nothing because the socket was closed or busy. */
    predicate SeenOver()
      reads this
    {
      (rx == [] && !lastLook.sr.Established?) || lastLook.answer.IsClosed? || lastLook.answer.IsBusy?
    }

    /** A write finds the connection up and room in the chip, and ioLibrary will move some. */
    predicate Sendable(len: nat)
      reads this
    {
      && Ready() && !desc.isUdp && len > 0 && |script| >= 2
      && Up(script[0]) && script[0].room > 0 && script[1].answer.Moves?
    }

    // ---------------------------------------------------------------- wiznet_toe.c

    /** wiztoe_available. */
    method Available() returns (n: int)
      modifies this`script, this`lastLook, this`rx, this`log
      ensures Incoming() == old(Incoming()) && |rx| >= |old(rx)|
      ensures n == if !desc.used then -1 else if !Ready() || !desc.isOpen then 0 else |rx|
      ensures log == old(log) + [Checked(n)]
    {
      if !desc.used {
        n := -1;
      } else if !Ready() || !desc.isOpen {
        n := 0;
      } else {
        var _ := LookAtChip();
        n := |rx|;
      }
      log := log + [Checked(n)];
    }

    /** The wait of wiztoe_recv: 1 when bytes are there, else what it returns. */
    method AwaitBytes() returns (r: int)
      modifies this`script, this`lastLook, this`rx, this`readings, this`log
      ensures Incoming() == old(Incoming()) && |rx| >= |old(rx)|
      ensures r == 1 || r == 0 || r == Toe.ERR_WOULDBLOCK || r == Toe.ERR_TIMEOUT
      ensures r == 1 <==> rx != []
      ensures r == 0 ==> !lastLook.sr.Established?
      ensures r == Toe.ERR_WOULDBLOCK ==> desc.nonblocking
      ensures r == Toe.ERR_TIMEOUT ==> !desc.nonblocking && TimedOut(old(readings), desc.opts.rcvTimeoutMs)
      ensures old(rx) != [] ==> r == 1
      ensures old(script) != [] && old(rx) + old(script)[0].arrived != [] ==>
                r == 1 && script == old(script)[1..] && rx == old(rx) + old(script)[0].arrived
      ensures old(log) <= log && (old(rx) != [] || desc.nonblocking ==> log == old(log))
      ensures forall i :: |old(log)| <= i < |log| ==> log[i].Yielded?
    {
      var started := NowUs();
      while true
        invariant Incoming() == old(Incoming()) && |rx| >= |old(rx)|
        invariant old(log) <= log && (old(rx) != [] || desc.nonblocking ==> log == old(log))
        invariant forall i :: |old(log)| <= i < |log| ==> log[i].Yielded?
        invariant (script == old(script) && rx == old(rx))
                  || (rx == [] && old(script) != [] && old(rx) + old(script)[0].arrived == [])
        decreases |script|
      {
        var l := LookAtChip();
        if |rx| > 0 {
          return 1;
        }
        if !l.sr.Established? {
          return 0;
        }
        if desc.nonblocking {
          return Toe.ERR_WOULDBLOCK;
        }
        var now := NowUs();
        if Deadline.Passed(now, started, desc.opts.rcvTimeoutMs) {
          return Toe.ERR_TIMEOUT;
        }
        Yield1ms();
      }
    }

    static method Put(buf: array<byte>, data: seq<byte>)
      requires |data| <= buf.Length
      modifies buf
      ensures buf[..] == data + old(buf[|data|..])
    {
      CopyTo(buf, 0, data);
    }

    method TakeFrom(buf: array<byte>, n: nat)
      requires n <= |rx| && n <= buf.Length
      modifies this`rx, buf
      ensures n <= |old(Incoming())| && Incoming() == old(Incoming())[n..]
      ensures buf[..] == old(Incoming())[..n] + old(buf[n..])
    {
      Put(buf, rx[..n]);
      assert old(Incoming())[..n] == rx[..n];
      rx := rx[n..];
    }

    /** ioLibrary's recv() once bytes are waiting. */
    method ChipRecv(buf: array<byte>, len: nat) returns (n: int)
      requires len <= buf.Length && len <= MAX_TRANSFER && rx != []
      modifies this`script, this`lastLook, this`rx, buf
      ensures n == Toe.ERR || 0 <= n <= len
      ensures n == 0 ==> SeenOver()
      ensures len > 0 && old(script) != [] && old(script)[0].answer.Moves? ==>
                n == Clamp(old(script)[0].answer.n, Min(len, |old(rx) + old(script)[0].arrived|))
      ensures n > 0 ==> n <= |old(Incoming())| && buf[..] == old(Incoming())[..n] + old(buf[n..])
                        && Incoming() == old(Incoming())[n..]
      ensures n <= 0 ==> Incoming() == old(Incoming()) && buf[..] == old(buf[..])
    {
      var l := LookAtChip();
      match l.answer {
        case IsClosed => return 0;
        case IsBusy => return 0;
        case Fails => return Toe.ERR;
        case Moves(k) =>
          if len == 0 {
            return Toe.ERR;
          }
          n := Clamp(k, Min(len, |rx|));
          TakeFrom(buf, n);
      }
    }

    method RecvUnlogged(buf: array<byte>) returns (n: int)
      modifies this`script, this`lastLook, this`rx, this`readings, this`log, buf
      ensures n > 0 ==> n <= buf.Length && n <= MAX_TRANSFER && n <= |old(Incoming())|
                        && buf[..] == old(Incoming())[..n] + old(buf[n..]) && Incoming() == old(Incoming())[n..]
      ensures n <= 0 ==> Incoming() == old(Incoming()) && buf[..] == old(buf[..])
      ensures n < 0 ==> n == Toe.ERR || IsWouldBlock(n)
      ensures n == Toe.ERR_WOULDBLOCK ==> desc.nonblocking
      ensures n == Toe.ERR_TIMEOUT ==> !desc.nonblocking && TimedOut(old(readings), desc.opts.rcvTimeoutMs)
      ensures !Ready() || desc.isUdp ==> n == Toe.ERR
      ensures Ready() && !desc.isUdp && desc.rdShutdown ==> n == 0
      ensures n == 0 ==> desc.rdShutdown || SeenOver()
      ensures old(Receivable(buf.Length)) ==>
                n == old(Clamp(script[1].answer.n,
                               Min(Min(buf.Length, MAX_TRANSFER), |rx + script[0].arrived + script[1].arrived|)))
      ensures old(log) <= log && (old(rx) != [] || desc.nonblocking ==> log == old(log))
      ensures forall i :: |old(log)| <= i < |log| ==> log[i].Yielded?
    {
      if !Ready() || desc.isUdp {
        return Toe.ERR;
      }
      var len := Min(buf.Length, MAX_TRANSFER);
      if desc.rdShutdown {
        return 0;
      }
      n := AwaitBytes();
      if n == 1 {
        n := ChipRecv(buf, len);
      }
    }

    /** wiztoe_recv into buf[..]. */
    method Recv(buf: array<byte>) returns (n: int)
      modifies this`script, this`lastLook, this`rx, this`readings, this`log, buf
      ensures n > 0 ==> n <= buf.Length && n <= MAX_TRANSFER && n <= |old(Incoming())|
                        && buf[..] == old(Incoming())[..n] + old(buf[n..]) && Incoming() == old(Incoming())[n..]
      ensures n <= 0 ==> Incoming() == old(Incoming()) && buf[..] == old(buf[..])
      ensures n < 0 ==> n == Toe.ERR || IsWouldBlock(n)
      ensures n == Toe.ERR_WOULDBLOCK ==> desc.nonblocking
      ensures n == Toe.ERR_TIMEOUT ==> !desc.nonblocking && TimedOut(old(readings), desc.opts.rcvTimeoutMs)
      ensures !Ready() || desc.isUdp ==> n == Toe.ERR
      ensures Ready() && !desc.isUdp && desc.rdShutdown ==> n == 0
      ensures n == 0 ==> desc.rdShutdown || SeenOver()
      ensures old(Receivable(buf.Length)) ==>
                n == old(Clamp(script[1].answer.n,
                               Min(Min(buf.Length, MAX_TRANSFER), |rx + script[0].arrived + script[1].arrived|)))
      ensures old(log) < log && OnlySleeps(log, |old(log)|) && Last(log) == Transfer(buf.Length, n)
      ensures old(rx) != [] || desc.nonblocking ==> |log| == |old(log)| + 1
    {
      n := RecvUnlogged(buf);
      log := log + [Transfer(buf.Length, n)];
    }

    /** The wait of wiztoe_send: the free space found, else what it returns. */
    method AwaitRoom() returns (r: int)
      modifies this`script, this`lastLook, this`rx, this`readings, this`log
      ensures 0 < r < TWO_16 || r == Toe.ERR || IsWouldBlock(r)
      ensures IsWouldBlock(r) && !desc.nonblocking ==> TimedOut(old(readings), desc.opts.sndTimeoutMs)
      ensures r == Toe.ERR ==> !Up(lastLook)
      ensures r > 0 ==> Up(lastLook) && lastLook.room == r
      ensures old(script) != [] && Up(old(script)[0]) && old(script)[0].room > 0 ==>
                r == old(script)[0].room && script == old(script)[1..]
      ensures old(log) <= log && (desc.nonblocking ==> log == old(log))
      ensures forall i :: |old(log)| <= i < |log| ==> log[i].Yielded?
    {
      var started := NowUs();
      while true
        invariant old(log) <= log && (desc.nonblocking ==> log == old(log))
        invariant forall i :: |old(log)| <= i < |log| ==> log[i].Yielded?
        invariant script == old(script) || (old(script) != [] && old(script)[0].room == 0)
        decreases |script|
      {
        var l := LookAtChip();
        if !l.sr.Established? && !l.sr.CloseWait? {
          return Toe.ERR;
        }
        if l.room > 0 {
          return l.room;
        }
        if desc.nonblocking {
          return Toe.ERR_WOULDBLOCK;
        }
        var now := NowUs();
        if Deadline.Passed(now, started, desc.opts.sndTimeoutMs) {
          return Toe.ERR_WOULDBLOCK;
        }
        Yield1ms();
      }
    }

    /** ioLibrary's send() of what fits the transmit buffer. */
    method ChipSend(data: seq<byte>) returns (n: int)
      modifies this`script, this`lastLook, this`rx, this`wire
      ensures 0 < n <= |data| || n == Toe.ERR || n == Toe.ERR_WOULDBLOCK
      ensures n == Toe.ERR && data != [] ==> lastLook.answer.IsClosed? || lastLook.answer.Fails?
      ensures data != [] && old(script) != [] && old(script)[0].answer.Moves? ==> n == Clamp(old(script)[0].answer.n, |data|)
      ensures n > 0 ==> wire == old(wire) + data[..n]
      ensures n < 0 ==> wire == old(wire)
    {
      var l := LookAtChip();
      match l.answer {
        case IsBusy => return Toe.ERR_WOULDBLOCK;
        case IsClosed => return Toe.ERR;
        case Fails => return Toe.ERR;
        case Moves(k) =>
          if data == [] {
            return Toe.ERR;
          }
          n := Clamp(k, |data|);
          wire := wire + data[..n];
      }
    }

    /** wiztoe_send: a non-empty prefix of `data`, or nothing; never 0 bytes. */
    method Send(data: seq<byte>) returns (n: int)
      modifies this`script, this`lastLook, this`rx, this`readings, this`log, this`wire
      ensures (0 < n <= |data| && n <= MAX_TRANSFER) || n == Toe.ERR || IsWouldBlock(n)
      ensures n > 0 ==> wire == old(wire) + data[..n]
      ensures n < 0 ==> wire == old(wire)
      ensures !Ready() || desc.isUdp ==> n == Toe.ERR
      ensures n == Toe.ERR && Ready() && !desc.isUdp && data != [] ==>
                !Up(lastLook) || lastLook.answer.IsClosed? || lastLook.answer.Fails?
      ensures old(Sendable(|data|)) ==> n == old(Clamp(script[1].answer.n, Min(Min(|data|, MAX_TRANSFER), script[0].room)))
      ensures old(log) < log && OnlySleeps(log, |old(log)|) && Last(log) == Transfer(|data|, n)
      ensures desc.nonblocking ==> |log| == |old(log)| + 1
    {
      n := Toe.ERR;
      if Ready() && !desc.isUdp {
        var len := Min(|data|, MAX_TRANSFER);
        var room := AwaitRoom();
        n := room;
        if room > 0 {
          n := ChipSend(data[..Min(len, room)]);
        }
      }
      log := log + [Transfer(|data|, n)];
    }

    // ---------------------------------------------------------------- wiztoe_wrap.c

    /** One turn of readv with `total` bytes in hand. Stopped: this buffer got its first
        `n` bytes, perhaps none, and the call is over. */
    method ReadTurn(buf: array<byte>, total: nat) returns (f: Fill, ghost d: seq<byte>)
      modifies this`script, this`lastLook, this`rx, this`readings, this`log, buf
      ensures f.Bytes() == |d| <= buf.Length && (f.Full? ==> |d| == buf.Length)
      ensures old(Incoming()) == d + Incoming() && buf[..] == d + old(buf[..])[|d|..]
      ensures f.Failed? ==> total == 0
      ensures f.Failed? ==> |log| > |old(log)| && FailsFor(Last(log), f.errno)
      ensures f.Stopped? ==> f.n < buf.Length && |log| > |old(log)| && StopsFor(Last(log))
      ensures TurnLog(old(log), log, total, f.Bytes())
    {
      d := [];
      if buf.Length == 0 {
        f := Full(0);
        return;
      }
      if total > 0 {
        var waiting := Available();
        if waiting <= 0 {
          f := Stopped(0);
          return;
        }
      }
      ghost var stream := Incoming();
      var n := Recv(buf);
      if IsWouldBlock(n) {
        f := if total > 0 then Stopped(0) else Failed(EWouldBlock);
      } else if n < 0 {
        f := if total > 0 then Stopped(0) else Failed(EIo);
      } else {
        d := stream[..n];
        f := if n < buf.Length then Stopped(n) else Full(n);
      }
    }

    method ReadLoop(iov: seq<array<byte>>) returns (ret: int, errno: Errno, ghost data: seq<byte>)
      requires iov != []
      modifies this`script, this`lastLook, this`rx, this`readings, this`log, iov
      ensures Holds(Distinct(iov), old(Snap(iov)), Snap(iov), data)
      ensures old(Incoming()) == data + Incoming() && |data| == Count(ret)
      ensures old(log) <= log && NeverWaitsHolding(log, |old(log)|)
      ensures if ret < 0 then ret == -1 && |log| > |old(log)| && FailsFor(Last(log), errno) else errno == Ok
      ensures 0 <= ret < |Flatten(old(Snap(iov)))| ==> |log| > |old(log)| && StopsFor(Last(log))
    {
      var total, i := 0, 0;
      ret, errno := 0, Ok;
      ghost var was, stream := Snap(iov), Incoming();
      ghost var m: nat, apart := |log|, Distinct(iov);
      data := [];
      while i < |iov|
        invariant 0 <= i <= |iov| && total == |data| && stream == data + Incoming()
        invariant ret == total && errno == Ok
        invariant Progress(apart, was, Snap(iov), i, data)
        invariant old(log) <= log && Turnover(log, |old(log)|, m) && (total == 0 ==> m == |log|)
      {
        ghost var before, bufs, rest := log, Snap(iov), Incoming();
        assert |was[i]| == iov[i].Length;
        var f, d := ReadTurn(iov[i], total);
        OrderlyTurn(before, log, |old(log)|, m, total, f.Bytes());
        m := NextTurnover(log, m, total, f.Bytes());
        ProgressTurn(apart, was, bufs, Snap(iov), i, data, d, stream, rest, Incoming());
        data := data + d;
        total := total + f.Bytes();
        ret, errno := if f.Failed? then -1 else total, if f.Failed? then f.errno else Ok;
        if !f.Full? {
          break;
        }
        i := i + 1;
      }
      if i == |iov| {
        Complete(apart, was, Snap(iov), data);
      }
    }

    /** readv: the bytes taken from the stream are exactly the ones in the first `ret` places
        of the concatenated buffers; -1 means that nothing moved. */
    method ReadV(iov: seq<array<byte>>) returns (ret: int, errno: Errno)
      modifies this`script, this`lastLook, this`rx, this`readings, this`log, iov
      ensures ret >= -1 && Moved(Distinct(iov), old(Snap(iov)), Snap(iov), old(Incoming()), Incoming(), Count(ret))
      ensures ret >= 0 ==> errno == Ok
      ensures iov == [] <==> errno == EInval
      ensures iov == [] ==> ret == -1 && log == old(log)
      ensures iov != [] && ret == -1 ==> |log| > |old(log)| && FailsFor(Last(log), errno)
      ensures old(log) <= log && NeverWaitsHolding(log, |old(log)|)
      ensures 0 <= ret < |Flatten(old(Snap(iov)))| ==> |log| > |old(log)| && StopsFor(Last(log))
    {
      assert Turnover(log, |log|, |log|);
      ret, errno := -1, EInval;
      ghost var data: seq<byte>, was := [], Snap(iov);
      if |iov| > 0 {
        ret, errno, data := ReadLoop(iov);
      }
      MovedIs(Distinct(iov), was, Snap(iov), data, Incoming());
    }

    method WriteLoop(iov: seq<seq<byte>>) returns (ret: int, errno: Errno, ghost written: seq<byte>)
      modifies this`script, this`lastLook, this`rx, this`readings, this`log, this`wire
      ensures written <= Flatten(iov) && |written| == Count(ret) && wire == old(wire) + written
      ensures old(log) <= log
      ensures if ret < 0 then ret == -1 && |log| > |old(log)| && FailsFor(Last(log), errno) else errno == Ok
      ensures 0 <= ret < |Flatten(iov)| ==> |log| > |old(log)| && StopsFor(Last(log))
    {
      var total := 0;
      written := [];
      for i := 0 to |iov|
        invariant total == |written| && written == Flatten(iov[..i]) && written <= Flatten(iov)
        invariant wire == old(wire) + written && old(log) <= log
      {
        if |iov[i]| > 0 {
          var n := Send(iov[i]);
          if IsWouldBlock(n) {
            ret, errno := if total > 0 then total else -1, if total > 0 then Ok else EWouldBlock;
            return;
          }
          if n < 0 {
            ret, errno := if total > 0 then total else -1, if total > 0 then Ok else EIo;
            return;
          }
          WriteTurn(iov, i, written, n);
          Associative(old(wire), written, iov[i][..n]);
          written := written + iov[i][..n];
          total := total + n;
          if n < |iov[i]| {
            ret, errno := total, Ok;
            return;
          }
        } else {
          WriteTurn(iov, i, written, 0);
        }
      }
      assert iov[..|iov|] == iov;
      ret, errno := total, Ok;
    }

    /** writev: the stream gets exactly the first `ret` bytes of the concatenated buffers; -1
        means that it got none. */
    method WriteV(iov: seq<seq<byte>>) returns (ret: int, errno: Errno)
      modifies this`script, this`lastLook, this`rx, this`readings, this`log, this`wire
      ensures -1 <= ret <= |Flatten(iov)| && wire == old(wire) + Flatten(iov)[..Count(ret)]
      ensures ret >= 0 ==> errno == Ok
      ensures iov == [] <==> errno == EInval
      ensures iov == [] ==> ret == -1 && log == old(log)
      ensures iov != [] && ret == -1 ==> |log| > |old(log)| && FailsFor(Last(log), errno)
      ensures old(log) <= log
      ensures 0 <= ret < |Flatten(iov)| ==> |log| > |old(log)| && StopsFor(Last(log))
    {
      ret, errno := -1, EInval;
      assert wire == wire + [];
      if |iov| > 0 {
        ghost var written;
        ret, errno, written := WriteLoop(iov);
        assert written == Flatten(iov)[..Count(ret)];
      }
    }
  }
}
