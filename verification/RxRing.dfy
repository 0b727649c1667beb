/** The receive side of port/ioLibrary_Driver/src/esp_eth_mac_w6300.c: a ring of frames with
    length headers, read through 16-bit pointers that wrap. */
module RxRing {
  import opened Bytes

  const RING := 0x4000          // 16 KB of RX memory for socket 0
  const HEADER := 2
  const ETH_MAX := 1522         // ETH_MAX_PACKET_SIZE: header, VLAN tag, payload, CRC
  const ETH_MIN := 60           // ETH_MIN_PACKET_SIZE - ETH_CRC_LEN
  const MAX_TOTAL := 0x7FF      // the length field has 11 bits

  datatype AnyFrame = AnyFrame(flags: nat, payload: seq<byte>)

  /** What the chip can store as one frame. */
  type Frame = f: AnyFrame | f.flags < 32 && |f.payload| + HEADER <= MAX_TOTAL witness AnyFrame(0, [])

  /** PACKET-INFO (5 flag bits, 11-bit length counting itself), then the payload. */
  function Encode(f: Frame): seq<byte> {
    [f.flags * 8 + (|f.payload| + HEADER) / 0x100, (|f.payload| + HEADER) % 0x100] + f.payload
  }

  function EncodeAll(fs: seq<Frame>): seq<byte> {
    if fs == [] then [] else Encode(fs[0]) + EncodeAll(fs[1..])
  }

  /** The length field of a header. */
  function Total(h0: byte, h1: byte): (t: nat)
    ensures t <= MAX_TOTAL
  {
    h0 % 8 * 0x100 + h1
  }

  // ------------------------------------------------------------------ the ring

  /** `len` bytes of the RX memory from a 16-bit pointer on. */
  function Peek(mem: seq<byte>, at: nat, len: nat): seq<byte>
    requires |mem| == RING
  {
    seq(len, i requires 0 <= i < len => mem[(at + i) % RING])
  }

  /** The 16-bit pointer `n` bytes on. */
  function Behind(p: uint16, n: nat): uint16
    requires n <= MAX_TOTAL
  {
    if p + n >= TWO_16 then p + n - TWO_16 else p + n
  }

  /** Following a pointer through its wrap at 2^16 reads on where it left off. */
  lemma PeekOn(mem: seq<byte>, at: uint16, len: nat, skip: nat)
    requires |mem| == RING && skip <= len && skip <= MAX_TOTAL
    ensures Peek(mem, Behind(at, skip), len - skip) == Peek(mem, at, len)[skip..]
  {
  }

  /** What a header says about the frame behind it. */
  lemma HeaderOf(f: Frame, rest: seq<byte>)
    ensures var s := Encode(f) + rest;
            && Total(s[0], s[1]) == |f.payload| + HEADER == |Encode(f)|
            && s[HEADER..HEADER + |f.payload|] == f.payload && s[HEADER + |f.payload|..] == rest
  {
  }

  /** A 16-bit byte count less `n`; it wraps when the ring lies about what it holds. */
  function Left(remain: uint16, n: nat): uint16
    requires n <= MAX_TOTAL
  {
    if remain >= n then remain - n else remain + TWO_16 - n
  }

  /** A header that claims more than the ring holds makes the count wrap: the drain loop goes on. */
  lemma LyingHeaderGoesOn(remain: uint16, n: nat)
    requires n <= MAX_TOTAL
    ensures (Left(remain, n) + n) % TWO_16 == remain && (n > remain ==> Left(remain, n) > 0)
  {
  }

  /** From one 16-bit pointer forward to another. */
  function Distance(from: uint16, to: uint16): uint16 {
    if to >= from then to - from else to + TWO_16 - from
  }

  lemma DistanceBehind(from: uint16, to: uint16, n: nat)
    requires n <= Distance(from, to) && n <= MAX_TOTAL
    ensures Distance(Behind(from, n), to) == Distance(from, to) - n == Left(Distance(from, to), n)
  {
  }

  // ------------------------------------------------------------------ the chip's side

  /** The RX memory once the chip has stored `b` from its 16-bit write pointer on. */
  function Stored(mem: seq<byte>, wr: uint16, b: seq<byte>): (m: seq<byte>)
    requires |mem| == RING
    ensures |m| == RING
  {
    seq(RING, a requires 0 <= a < RING => var k := (a - wr) % RING; if k < |b| then b[k] else mem[a])
  }

  lemma SameRemainder(x: int, r: nat, q: int)
    requires x == q * RING + r && r < RING
    ensures x % RING == r
  {
  }

  /** The i-th byte from rd on, as seen from a write pointer n bytes further. */
  lemma FromWritePointer(rd: uint16, n: nat, wr: uint16, i: nat)
    requires wr == (rd + n) % TWO_16 && n <= RING && i < RING
    ensures ((rd + i) % RING - wr) % RING == if i < n then RING + i - n else i - n
  {
    var q, r := (rd + i) / RING, (rd + i) % RING;
    var w := (rd + n) / TWO_16;
    var d := if i < n then RING + i - n else i - n;
    assert r - wr == (i - n) - q * RING + w * 4 * RING;
    SameRemainder(r - wr, d, (if i < n then -1 else 0) - q + w * 4);
  }

  /** What is stored behind the waiting bytes waits behind them. */
  lemma StoredWaits(mem: seq<byte>, rd: uint16, n: nat, wr: uint16, b: seq<byte>)
    requires |mem| == RING && wr == (rd + n) % TWO_16 && n + |b| <= RING
    ensures Peek(Stored(mem, wr, b), rd, n + |b|) == Peek(mem, rd, n) + b
  {
    var now := Peek(Stored(mem, wr, b), rd, n + |b|);
    forall i | 0 <= i < n + |b| ensures now[i] == (Peek(mem, rd, n) + b)[i] {
      FromWritePointer(rd, n, wr, i);
    }
  }

  // ------------------------------------------------------------------ what comes out

  /** The payload lengths of frames that are passed up. */
  predicate Acceptable(len: nat) {
    60 <= len <= 1522
  }

  /** The payloads passed up, when the i-th malloc answers ok(i). Only frames of at least
      ETH_MIN bytes get as far as a malloc. */
  function PassedUp(fs: seq<Frame>, ok: nat -> bool, i: nat): seq<seq<byte>> {
    if fs == [] then []
    else
      var len := |fs[0].payload|;
      (if Acceptable(len) && ok(i) then [fs[0].payload] else [])
      + PassedUp(fs[1..], ok, if len >= ETH_MIN then i + 1 else i)
  }

  /** The number of mallocs after them. */
  function AskedAfter(fs: seq<Frame>, i: nat): nat {
    if fs == [] then i else AskedAfter(fs[1..], if |fs[0].payload| >= ETH_MIN then i + 1 else i)
  }

  lemma {:induction false} PassedUpMore(fs: seq<Frame>, f: Frame, ok: nat -> bool, i: nat)
    ensures PassedUp(fs + [f], ok, i) == PassedUp(fs, ok, i) + PassedUp([f], ok, AskedAfter(fs, i))
    ensures AskedAfter(fs + [f], i) == AskedAfter([f], AskedAfter(fs, i))
    decreases |fs|
  {
    if fs == [] {
      assert fs + [f] == [f];
    } else {
      assert (fs + [f])[1..] == fs[1..] + [f];
      PassedUpMore(fs[1..], f, ok, if |fs[0].payload| >= ETH_MIN then i + 1 else i);
    }
  }

  lemma {:induction false} EncodeAllMore(fs: seq<Frame>, f: Frame)
    ensures EncodeAll(fs + [f]) == EncodeAll(fs) + Encode(f)
  {
    if fs == [] {
      assert fs + [f] == [f];
      assert EncodeAll([f]) == Encode(f) + [];
    } else {
      EncodeAllMore(fs[1..], f);
      assert (fs + [f])[1..] == fs[1..] + [f];
      Associative(Encode(fs[0]), EncodeAll(fs[1..]), Encode(f));
    }
  }

  /** One more frame to come is one more to come out. */
  lemma MoreToCome(up: seq<seq<byte>>, left: seq<Frame>, f: Frame, ok: nat -> bool, asked: nat,
                   up0: seq<seq<byte>>, all: seq<Frame>, asked0: nat)
    requires up + PassedUp(left, ok, asked) == up0 + PassedUp(all, ok, asked0)
    requires AskedAfter(left, asked) == AskedAfter(all, asked0)
    ensures up + PassedUp(left + [f], ok, asked) == up0 + PassedUp(all + [f], ok, asked0)
    ensures AskedAfter(left + [f], asked) == AskedAfter(all + [f], asked0)
  {
    PassedUpMore(left, f, ok, asked);
    PassedUpMore(all, f, ok, asked0);
    var more := PassedUp([f], ok, AskedAfter(left, asked));
    assert up + (PassedUp(left, ok, asked) + more) == (up + PassedUp(left, ok, asked)) + more;
    assert up0 + (PassedUp(all, ok, asked0) + more) == (up0 + PassedUp(all, ok, asked0)) + more;
  }

  /** Some of these, in their order. */
  predicate Among(some: seq<Frame>, all: seq<Frame>) {
    || some == []
    || (all != [] && (Among(some, all[..|all| - 1])
                      || (some[|some| - 1] == all[|all| - 1] && Among(some[..|some| - 1], all[..|all| - 1]))))
  }

  lemma AmongMore(some: seq<Frame>, all: seq<Frame>, f: Frame)
    requires Among(some, all)
    ensures Among(some, all + [f]) && Among(some + [f], all + [f])
  {
    assert (all + [f])[..|all|] == all && (some + [f])[..|some|] == some;
  }

  lemma CameOrNot(frames: seq<Frame>, came: seq<Frame>, coming: seq<Frame>, i: nat)
    requires i < |coming| && Among(came, coming[..i])
    ensures Among(came, coming[..i + 1]) && Among(came + [coming[i]], coming[..i + 1])
    ensures frames + came + [coming[i]] == frames + (came + [coming[i]])
  {
    AmongMore(came, coming[..i], coming[i]);
    assert coming[..i + 1] == coming[..i] + [coming[i]];
  }

  lemma {:induction false} AmongAll(some: seq<Frame>, all: seq<Frame>, i: nat)
    requires i <= |all| && Among(some, all[..i])
    ensures Among(some, all)
    decreases |all| - i
  {
    if i < |all| {
      AmongMore(some, all[..i], all[i]);
      assert all[..i + 1] == all[..i] + [all[i]];
      AmongAll(some, all, i + 1);
    } else {
      assert all[..i] == all;
    }
  }

  lemma PassedUpNext(up: seq<seq<byte>>, fs: seq<Frame>, ok: nat -> bool, i: nat)
    requires fs != []
    ensures var len := |fs[0].payload|;
            var now := up + if Acceptable(len) && ok(i) then [fs[0].payload] else [];
            up + PassedUp(fs, ok, i) == now + PassedUp(fs[1..], ok, if len >= ETH_MIN then i + 1 else i)
  {
  }

  /** Where the read pointer stands behind them. */
  function RdAfter(p: uint16, fs: seq<Frame>): uint16
    decreases |fs|
  {
    if fs == [] then p else RdAfter(Behind(p, |fs[0].payload| + HEADER), fs[1..])
  }

  lemma RdNext(p: uint16, fs: seq<Frame>)
    requires fs != []
    ensures RdAfter(p, fs) == RdAfter(Behind(p, |fs[0].payload| + HEADER), fs[1..])
  {
  }

  function RingBytes(fs: seq<Frame>): nat {
    if fs == [] then 0 else |fs[0].payload| + HEADER + RingBytes(fs[1..])
  }

  lemma RingStep(p: uint16, total: nat, behind: nat)
    requires total <= MAX_TOTAL
    ensures (Behind(p, total) + behind) % TWO_16 == (p + (total + behind)) % TWO_16
  {
  }

  /** ... which is the sum of (length + 2) further, mod 2^16. */
  lemma {:induction false} RdAfterIsSum(p: uint16, fs: seq<Frame>)
    ensures RdAfter(p, fs) == (p + RingBytes(fs)) % TWO_16
    decreases |fs|
  {
    if fs != [] {
      var total := |fs[0].payload| + HEADER;
      RdAfterIsSum(Behind(p, total), fs[1..]);
      RingStep(p, total, RingBytes(fs[1..]));
    }
  }

  lemma {:induction false} RingBytesMore(fs: seq<Frame>, f: Frame)
    ensures RingBytes(fs + [f]) == RingBytes(fs) + |f.payload| + HEADER
  {
    if fs == [] {
      assert fs + [f] == [f];
    } else {
      RingBytesMore(fs[1..], f);
      assert (fs + [f])[1..] == fs[1..] + [f];
    }
  }

  lemma {:induction false} RingBytesFront(fs: seq<Frame>, i: nat)
    requires i <= |fs|
    ensures RingBytes(fs[..i]) <= RingBytes(fs)
    decreases |fs| - i
  {
    if i < |fs| {
      RingBytesFront(fs, i + 1);
      RingBytesMore(fs[..i], fs[i]);
      assert fs[..i + 1] == fs[..i] + [fs[i]];
    } else {
      assert fs[..i] == fs;
    }
  }

  lemma {:induction false} EncodeAllSize(fs: seq<Frame>)
    ensures |EncodeAll(fs)| == RingBytes(fs)
  {
    if fs != [] {
      EncodeAllSize(fs[1..]);
    }
  }

  lemma SameSum(x: nat, y: nat, n: nat)
    requires x % TWO_16 == y % TWO_16
    ensures (x + n) % TWO_16 == (y + n) % TWO_16
  {
  }

  lemma RdAfterMore(rd: uint16, left: seq<Frame>, f: Frame, rd0: uint16, all: seq<Frame>)
    requires RdAfter(rd, left) == RdAfter(rd0, all)
    ensures RdAfter(rd, left + [f]) == RdAfter(rd0, all + [f])
  {
    RdAfterIsSum(rd, left);
    RdAfterIsSum(rd0, all);
    RdAfterIsSum(rd, left + [f]);
    RdAfterIsSum(rd0, all + [f]);
    RingBytesMore(left, f);
    RingBytesMore(all, f);
    SameSum(rd + RingBytes(left), rd0 + RingBytes(all), |f.payload| + HEADER);
  }

  // ------------------------------------------------------------------ the driver

  datatype Info = Info(offset: uint16, copyLen: nat, rxLen: nat, remain: uint16)

  /** What receive() is called with: a prepared buffer, or room for so many bytes. */
  datatype Ask = Auto(info: Info) | AtMost(length: nat)

  datatype Err = Ok | NoMem | InvalidSize

  predicate Unreadable(s: seq<byte>) {
    |s| >= HEADER && Total(s[0], s[1]) < HEADER
  }

  /** The ring holds a frame and something behind it: what the pointer sees, and what is left. */
  lemma Step(mem: seq<byte>, at: uint16, n: nat, f: Frame, rest: seq<byte>)
    requires |mem| == RING && Peek(mem, at, n) == Encode(f) + rest
    ensures var h, total := Peek(mem, at, HEADER), |f.payload| + HEADER;
            && Total(h[0], h[1]) == total <= n
            && Peek(mem, Behind(at, HEADER), |f.payload|) == f.payload
            && Peek(mem, Behind(at, total), n - total) == rest
  {
    var w, total := Peek(mem, at, n), |f.payload| + HEADER;
    HeaderOf(f, rest);
    assert Peek(mem, at, HEADER) == w[..HEADER];
    PeekOn(mem, at, n, HEADER);
    PeekOn(mem, at, n, total);
    assert Peek(mem, Behind(at, HEADER), |f.payload|) == Peek(mem, Behind(at, HEADER), n - HEADER)[..|f.payload|];
  }

  /** What a pass finds, given what the ring holds. */
  lemma Facing(mem: seq<byte>, rd: uint16, wr: uint16, left: seq<Frame>, rest: seq<byte>)
    requires |mem| == RING && Peek(mem, rd, Distance(rd, wr)) == EncodeAll(left) + rest
    requires rest == [] || Unreadable(rest)
    ensures left == [] ==> Distance(rd, wr) == |rest|
    ensures left == [] && rest != [] ==> var h := Peek(mem, rd, HEADER); Total(h[0], h[1]) < HEADER
    ensures left != [] ==>
              var h, len := Peek(mem, rd, HEADER), |left[0].payload|;
              var to := Behind(rd, len + HEADER);
              && Total(h[0], h[1]) == len + HEADER <= Distance(rd, wr)
              && Peek(mem, Behind(rd, HEADER), len) == left[0].payload
              && Left(Distance(rd, wr), len + HEADER) == Distance(to, wr)
              && Peek(mem, to, Distance(to, wr)) == EncodeAll(left[1..]) + rest
  {
    var w := Peek(mem, rd, Distance(rd, wr));
    if left != [] {
      var behind := EncodeAll(left[1..]) + rest;
      assert w == Encode(left[0]) + behind;
      Step(mem, rd, Distance(rd, wr), left[0], behind);
      DistanceBehind(rd, wr, |left[0].payload| + HEADER);
    } else {
      assert w == rest;
      if rest != [] {
        assert Peek(mem, rd, HEADER) == rest[..HEADER];
      }
    }
  }

  class Emac {
    const mem: array<byte>
    var rdReg: uint16     // Sn_RX_RD as last written
    var rd: uint16        // ... as last committed by a RECV command
    var wr: uint16        // the chip's write pointer
    var packetsRemain: bool
    const mallocs: nat -> bool
    var asked: nat        // mallocs so far
    var passedUp: seq<seq<byte>>   // frames given to stack_input

    /** Sn_RX_RSR. */
    function Rsr(): uint16
      reads this
    {
      Distance(rd, wr)
    }

    ghost predicate Valid()
      reads this, mem
    {
      mem.Length == RING && rdReg == rd && Rsr() <= RING
    }

    /** Everything received and not yet read. */
    function Waiting(): seq<byte>
      requires mem.Length == RING
      reads this, mem
    {
      Peek(mem[..], rd, Rsr())
    }

    /** The length field the pointer stands at. */
    ghost function HeaderTotal(): (t: nat)
      requires mem.Length == RING
      reads this, mem
      ensures t <= MAX_TOTAL
    {
      var h := Peek(mem[..], rd, HEADER);
      Total(h[0], h[1])
    }

    /** Write RX_RD, then issue RECV. */
    method Commit(offset: uint16)
      modifies this`rdReg, this`rd
      ensures rdReg == rd == offset
    {
      rdReg := offset;
      rd := rdReg;
    }

    /** w6300_read_frame_header: the payload length, or an error for an impossible header. */
    method ReadFrameHeader(offset: uint16) returns (err: Err, payloadLen: nat)
      requires mem.Length == RING
      ensures var h := Peek(mem[..], offset, HEADER);
              if Total(h[0], h[1]) >= HEADER then err == Ok && payloadLen == Total(h[0], h[1]) - HEADER
              else err == InvalidSize
    {
      var h := Peek(mem[..], offset, HEADER);
      var total := Total(h[0], h[1]);
      if total < HEADER {
        return InvalidSize, 0;
      }
      return Ok, total - HEADER;
    }

    method AllocRecvBuf(maxLen: nat) returns (err: Err, info: Option<Info>, frameLen: nat)
      requires Valid()
      modifies this`asked
      ensures Rsr() == 0 ==> err == Ok && info == None && frameLen == 0 && asked == old(asked)
      ensures Rsr() > 0 ==>
                var h := Peek(mem[..], rd, HEADER);
                var t := Total(h[0], h[1]);
                var copyLen := if t >= HEADER + maxLen then maxLen else t - HEADER;
                if t < HEADER || copyLen < ETH_MIN then err == InvalidSize && info == None && asked == old(asked)
                else && asked == old(asked) + 1 && frameLen == t - HEADER
                     && if mallocs(old(asked)) then err == Ok && info == Some(Info(rd, copyLen, t - HEADER, Rsr()))
                        else err == NoMem && info == None
    {
      info, frameLen := None, 0;
      var remain := Rsr();
      if remain == 0 {
        return Ok, None, 0;
      }
      var offset := rdReg;
      var rxLen: nat;
      err, rxLen := ReadFrameHeader(offset);
      if err != Ok {
        return;
      }
      frameLen := rxLen;
      var copyLen := if rxLen > maxLen then maxLen else rxLen;
      if copyLen < ETH_MIN {
        return InvalidSize, None, rxLen;
      }
      asked := asked + 1;
      if mallocs(asked - 1) {
        info := Some(Info(offset, copyLen, rxLen, remain));
      } else {
        err := NoMem;
      }
    }

    /** The part of emac_w6300_receive behind the header: copy, advance, commit. */
    method TakePayload(info: Info) returns (buf: seq<byte>)
      requires mem.Length == RING && info.rxLen + HEADER <= MAX_TOTAL
      modifies this`rdReg, this`rd, this`packetsRemain
      ensures rdReg == rd == Behind(info.offset, info.rxLen + HEADER)
      ensures packetsRemain <==> Left(info.remain, info.rxLen + HEADER) > 0
      ensures buf == Peek(mem[..], Behind(info.offset, HEADER), info.copyLen)
    {
      var offset := Behind(info.offset, HEADER);
      buf := Peek(mem[..], offset, info.copyLen);
      offset := Behind(offset, info.rxLen);
      Commit(offset);
      var remain := Left(info.remain, info.rxLen + HEADER);
      packetsRemain := remain > 0;
    }

    /** emac_w6300_receive. With a prepared buffer the header is not read again; with a plain
        length the frame at the pointer is cut to it, and nothing is a silent success. */
    method Receive(ask: Ask) returns (err: Err, buf: seq<byte>)
      requires Valid() && (ask.Auto? ==> ask.info.rxLen + HEADER <= MAX_TOTAL)
      modifies this`rdReg, this`rd, this`packetsRemain
      ensures ask.Auto? ==>
                var i := ask.info;
                && err == Ok && rdReg == rd == Behind(i.offset, i.rxLen + HEADER)
                && (packetsRemain <==> Left(i.remain, i.rxLen + HEADER) > 0)
                && buf == Peek(mem[..], Behind(i.offset, HEADER), i.copyLen)
      ensures ask.AtMost? && old(Rsr()) == 0 ==> err == Ok && buf == [] && rdReg == rd == old(rd) && !packetsRemain
      ensures ask.AtMost? && old(Rsr()) > 0 ==>
                var t := old(HeaderTotal());
                if t < HEADER then err == InvalidSize && buf == [] && rdReg == rd == old(rd) && !packetsRemain
                else && err == Ok && rdReg == rd == Behind(old(rd), t) && (packetsRemain <==> Left(old(Rsr()), t) > 0)
                     && buf == Peek(mem[..], Behind(old(rd), HEADER), Min(ask.length, t - HEADER))
    {
      packetsRemain := false;
      match ask {
        case Auto(info) =>
          err := Ok;
          buf := TakePayload(info);
        case AtMost(length) =>
          var remain := Rsr();
          if remain == 0 {
            return Ok, [];
          }
          var offset := rdReg;
          var rxLen: nat;
          err, rxLen := ReadFrameHeader(offset);
          if err != Ok {
            return err, [];
          }
          buf := TakePayload(Info(offset, Min(length, rxLen), rxLen, remain));
      }
    }

    /** emac_w6300_flush_recv_frame. A header it cannot read leaves the pointer where it is. */
    method FlushRecvFrame()
      requires Valid() && Rsr() > 0
      modifies this`rdReg, this`rd, this`packetsRemain
      ensures var h := Peek(mem[..], old(rd), HEADER);
              var t := Total(h[0], h[1]);
              if t < HEADER then rdReg == rd == old(rd) && !packetsRemain
              else rdReg == rd == Behind(old(rd), t) && (packetsRemain <==> Left(old(Rsr()), t) > 0)
    {
      packetsRemain := false;
      var remain := Rsr();
      var offset := rdReg;
      var err, rxLen := ReadFrameHeader(offset);
      if err != Ok {
        return;
      }
      Commit(Behind(offset, rxLen + HEADER));
      remain := Left(remain, rxLen + HEADER);
      packetsRemain := remain > 0;
    }

    /** One pass of the drain loop in emac_w6300_task. */
    method Pass()
      requires Valid()
      modifies this`rdReg, this`rd, this`packetsRemain, this`asked, this`passedUp
      ensures old(Rsr()) == 0 ==> rdReg == rd == old(rd) && asked == old(asked) && passedUp == old(passedUp)
                                  && packetsRemain == old(packetsRemain)
      ensures old(Rsr()) > 0 && old(HeaderTotal()) < HEADER ==>
                rdReg == rd == old(rd) && !packetsRemain && asked == old(asked) && passedUp == old(passedUp)
      ensures old(Rsr()) > 0 && old(HeaderTotal()) >= HEADER ==>
                var len := old(HeaderTotal()) - HEADER;
                && rdReg == rd == Behind(old(rd), old(HeaderTotal()))
                && (packetsRemain <==> Left(old(Rsr()), old(HeaderTotal())) > 0)
                && asked == (if len >= ETH_MIN then old(asked) + 1 else old(asked))
                && passedUp == old(passedUp) + if Acceptable(len) && mallocs(old(asked))
                                               then [Peek(mem[..], Behind(old(rd), HEADER), len)] else []
    {
      var err, info, frameLen := AllocRecvBuf(ETH_MAX);
      if err == Ok {
        if info.Some? {
          var e, buf := Receive(Auto(info.value));
          if e == Ok && |buf| != 0 && frameLen <= |buf| {
            passedUp := passedUp + [buf];
          }
        }
      } else {
        FlushRecvFrame();
      }
    }

    ghost predicate Holds(frames: seq<Frame>, rest: seq<byte>)
      reads this, mem
    {
      && Valid()
      && Waiting() == EncodeAll(frames) + rest
      && (rest == [] || Unreadable(rest))
    }

    /** A pass, when the frames in the ring are known. */
    method PassOver(ghost left: seq<Frame>, ghost rest: seq<byte>)
      requires Holds(left, rest) && (packetsRemain ==> Rsr() > 0)
      modifies this`rdReg, this`rd, this`packetsRemain, this`asked, this`passedUp
      ensures Holds(if left == [] then [] else left[1..], rest)
      ensures packetsRemain <==> left != [] && Rsr() > 0
      ensures left == [] ==> rd == old(rd) && asked == old(asked) && passedUp == old(passedUp)
      ensures left != [] ==>
                var len := |left[0].payload|;
                && rd == Behind(old(rd), len + HEADER) && asked == (if len >= ETH_MIN then old(asked) + 1 else old(asked))
                && passedUp == old(passedUp) + if Acceptable(len) && mallocs(old(asked)) then [left[0].payload] else []
    {
      Facing(mem[..], rd, wr, left, rest);
      Pass();
    }

    /** The chip receives a frame: it is stored behind the others and the write pointer moves on,
        or it is lost because there is no room. */
    method Arrive(f: Frame) returns (kept: bool)
      requires Valid()
      modifies mem, this`wr
      ensures Valid() && kept == (old(Rsr()) + |Encode(f)| <= RING)
      ensures kept ==> Waiting() == old(Waiting()) + Encode(f)
      ensures !kept ==> Waiting() == old(Waiting()) && wr == old(wr)
    {
      var b := Encode(f);
      kept := Rsr() + |b| <= RING;
      if kept {
        StoredWaits(mem[..], rd, Rsr(), wr, b);
        var now := Stored(mem[..], wr, b);
        forall a | 0 <= a < RING {
          mem[a] := now[a];
        }
        assert mem[..] == now;
        wr := (wr + |b|) % TWO_16;
      }
    }

    /** The chip may receive a frame between two turns: one more to come, or more bytes behind a
        header that cannot be read. */
    method ArriveBehind(f: Frame, ghost left: seq<Frame>, ghost rest: seq<byte>)
      returns (ghost left': seq<Frame>, ghost rest': seq<byte>, ghost came: bool)
      requires Holds(left, rest)
      modifies mem, this`wr
      ensures Holds(left', rest') && (rest == [] <==> rest' == []) && rd == old(rd) && Rsr() >= old(Rsr())
      ensures left' == if came then left + [f] else left
      ensures (came ==> rest == []) && (!came && rest == [] ==> wr == old(wr))
      ensures old(Rsr()) + |f.payload| + HEADER <= RING && rest == [] ==> came
    {
      var kept := Arrive(f);
      came := kept && rest == [];
      left' := if came then left + [f] else left;
      rest' := if kept && rest != [] then rest + Encode(f) else rest;
      EncodeAllMore(left, f);
      Associative(EncodeAll(left), rest, Encode(f));
      assert rest == [] ==> EncodeAll(left) + rest == EncodeAll(left) && EncodeAll(left') + rest == EncodeAll(left');
    }

    /** What has come out, with what is still to come from `left`, is what comes out of `all` when
        the drain began with these values. */
    ghost predicate Account(left: seq<Frame>, all: seq<Frame>, up0: seq<seq<byte>>, asked0: nat, rd0: uint16)
      reads this
    {
      && passedUp + PassedUp(left, mallocs, asked) == up0 + PassedUp(all, mallocs, asked0)
      && AskedAfter(left, asked) == AskedAfter(all, asked0)
      && RdAfter(rd, left) == RdAfter(rd0, all)
    }

    /** One turn of the loop, against what the drain as a whole is to do. */
    method DrainOne(ghost left: seq<Frame>, ghost rest: seq<byte>, ghost all: seq<Frame>,
                    ghost up0: seq<seq<byte>>, ghost asked0: nat, ghost rd0: uint16)
      returns (ghost left': seq<Frame>)
      requires Holds(left, rest) && (packetsRemain ==> Rsr() > 0) && Account(left, all, up0, asked0, rd0)
      modifies this`rdReg, this`rd, this`packetsRemain, this`asked, this`passedUp
      ensures left' == (if left == [] then [] else left[1..]) && Holds(left', rest)
      ensures packetsRemain <==> left != [] && Rsr() > 0
      ensures Account(left', all, up0, asked0, rd0)
    {
      ghost var up, used, at := passedUp, asked, rd;
      PassOver(left, rest);
      left' := [];
      if left != [] {
        PassedUpNext(up, left, mallocs, used);
        RdNext(at, left);
        left' := left[1..];
      }
    }

    method ArriveAmid(f: Frame, ghost left: seq<Frame>, ghost rest: seq<byte>, ghost all: seq<Frame>,
                      ghost up0: seq<seq<byte>>, ghost asked0: nat, ghost rd0: uint16)
      returns (ghost left': seq<Frame>, ghost rest': seq<byte>, ghost came: bool)
      requires Holds(left, rest) && Account(left, all, up0, asked0, rd0)
      modifies mem, this`wr
      ensures Holds(left', rest') && (rest == [] <==> rest' == []) && Rsr() >= old(Rsr()) && (came ==> rest == [])
      ensures left' == if came then left + [f] else left
      ensures Account(left', if came then all + [f] else all, up0, asked0, rd0)
    {
      left', rest', came := ArriveBehind(f, left, rest);
      if came {
        MoreToCome(passedUp, left, f, mallocs, asked, up0, all, asked0);
        RdAfterMore(rd, left, f, rd0, all);
      }
    }

    /** Where the drain loop stands: what of `coming` the chip has received, what is left. */
    ghost predicate Going(frames: seq<Frame>, rest: seq<byte>, coming: seq<Frame>, i: nat, came: seq<Frame>,
                          left: seq<Frame>, rest': seq<byte>, up0: seq<seq<byte>>, asked0: nat, rd0: uint16)
      reads this, mem
    {
      && Holds(left, rest') && i <= |coming| && (rest == [] <==> rest' == [])
      && Among(came, coming[..i]) && (rest != [] ==> came == []) && (coming == [] ==> rest' == rest)
      && Account(left, frames + came, up0, asked0, rd0)
    }

    method DrainTurn(ghost frames: seq<Frame>, ghost rest: seq<byte>, coming: seq<Frame>, i: nat, ghost came: seq<Frame>,
                     ghost left: seq<Frame>, ghost rest': seq<byte>, ghost up0: seq<seq<byte>>, ghost asked0: nat,
                     ghost rd0: uint16)
      returns (i': nat, ghost came': seq<Frame>, ghost left': seq<Frame>, ghost rest'': seq<byte>)
      requires Going(frames, rest, coming, i, came, left, rest', up0, asked0, rd0) && (packetsRemain ==> Rsr() > 0)
      modifies mem, this`wr, this`rdReg, this`rd, this`packetsRemain, this`asked, this`passedUp
      ensures Going(frames, rest, coming, i', came', left', rest'', up0, asked0, rd0)
      ensures packetsRemain ==> Rsr() > 0 && left != []
      ensures !packetsRemain ==> |left'| <= 1 && (coming == [] ==> left' == [])
      ensures i' == (if i < |coming| then i + 1 else i) && |left'| - i' <= |left| - i - if left == [] then 0 else 1
    {
      left' := DrainOne(left, rest', frames + came, up0, asked0, rd0);
      i', came', rest'' := i, came, rest';
      if i < |coming| {
        ghost var c;
        left', rest'', c := ArriveAmid(coming[i], left', rest', frames + came, up0, asked0, rd0);
        CameOrNot(frames, came, coming, i);
        came' := if c then came + [coming[i]] else came;
        i' := i + 1;
      }
    }

    /** The drain loop. The ring holds `frames`, then nothing or a header that cannot be read,
        and while the loop runs the chip receives some of `coming`. What has come out at the end
        and what still waits is what was there and what came, each acceptable frame once and in
        order, the others dropped whole. The pointer stops behind the last readable frame: in
        particular a corrupt header is not skipped, and nothing behind it is ever read. */
    method Drain(ghost frames: seq<Frame>, ghost rest: seq<byte>, coming: seq<Frame>)
      returns (ghost came: seq<Frame>, ghost left: seq<Frame>, ghost rest': seq<byte>)
      requires Holds(frames, rest) && !packetsRemain
      modifies mem, this`wr, this`rdReg, this`rd, this`packetsRemain, this`asked, this`passedUp
      ensures Valid() && !packetsRemain && Holds(left, rest') && |left| <= 1
      ensures Among(came, coming) && (rest != [] ==> came == [])
      ensures passedUp + PassedUp(left, mallocs, asked) == old(passedUp) + PassedUp(frames + came, mallocs, old(asked))
      ensures RdAfter(rd, left) == RdAfter(old(rd), frames + came)
      ensures coming == [] ==> left == [] && Waiting() == rest
    {
      var i := 0;
      left, rest', came := frames, rest, [];
      ghost var up0, asked0, rd0 := passedUp, asked, rd;
      assert frames + [] == frames;
      var more := true;
      while more
        invariant Going(frames, rest, coming, i, came, left, rest', up0, asked0, rd0)
        invariant !more ==> |left| <= 1 && !packetsRemain && (coming == [] ==> left == [])
        invariant packetsRemain ==> more && Rsr() > 0
        decreases |left| + |coming| - i, more
      {
        i, came, left, rest' := DrainTurn(frames, rest, coming, i, came, left, rest', up0, asked0, rd0);
        more := packetsRemain;
      }
      AmongAll(came, coming, i);
    }

    /** What the chip stores in an empty ring comes out: the acceptable frames, in order. */
    method StoreAndDrain(frames: seq<Frame>)
      requires Valid() && !packetsRemain && Rsr() == 0 && RingBytes(frames) <= RING
      modifies mem, this`wr, this`rdReg, this`rd, this`packetsRemain, this`asked, this`passedUp
      ensures Valid() && !packetsRemain && Rsr() == 0
      ensures passedUp == old(passedUp) + PassedUp(frames, mallocs, old(asked))
      ensures rd == (old(rd) + RingBytes(frames)) % TWO_16
    {
      assert Waiting() == [] == EncodeAll([]) + [];
      for i := 0 to |frames|
        invariant Holds(frames[..i], []) && Rsr() == RingBytes(frames[..i])
        invariant passedUp == old(passedUp) && asked == old(asked) && rd == old(rd) && !packetsRemain
      {
        RingBytesMore(frames[..i], frames[i]);
        RingBytesFront(frames, i + 1);
        assert frames[..i + 1] == frames[..i] + [frames[i]];
        ghost var l, r, came := ArriveBehind(frames[i], frames[..i], []);
        assert came;
        EncodeAllSize(frames[..i + 1]);
      }
      assert frames[..|frames|] == frames;
      ghost var came, left, rest := Drain(frames, [], []);
      assert came == [] && frames + [] == frames;
      RdAfterIsSum(old(rd), frames);
      assert passedUp + [] == passedUp;
    }
  }
}
