/** wsm_dhcp.c itself: the client's fields and its message buffer, changed in place. */
module DhcpDriver {
  import opened Bytes
  import opened DhcpWire
  import opened Dhcp

  lemma HeaderFromBytes(xid: uint32, mac: Mac, s: seq<byte>)
    requires |s| == FIXED_LEN && s[0] == OP_REQUEST && s[1] == 1 && s[2] == 6 && s[3] == 0
    requires forall k :: OFF_XID <= k < 8 ==> s[k] == Be32(xid)[k - OFF_XID]
    requires s[8] == 0 && s[9] == 0 && s[10] == 0x80 && s[11] == 0 && forall k :: 12 <= k < OFF_CHADDR ==> s[k] == 0
    requires forall k :: OFF_CHADDR <= k < OFF_CHADDR + 6 ==> s[k] == mac[k - OFF_CHADDR]
    requires forall k :: OFF_CHADDR + 6 <= k < OFF_COOKIE ==> s[k] == 0
    requires forall k :: OFF_COOKIE <= k < FIXED_LEN ==> s[k] == COOKIE[k - OFF_COOKIE]
    ensures s == Header(OP_REQUEST, xid, NO_IP, mac)
  {
  }

  lemma {:induction false} EncodeItemsAppend(items: seq<Item>, i: Item)
    requires ItemsOk(items) && ItemOk(i)
    ensures EncodeItems(items + [i]) == EncodeItems(items) + EncodeItem(i)
  {
    var all := items + [i];
    if items == [] {
      assert all == [i] && all[1..] == [];
      assert EncodeItem(i) + [] == EncodeItem(i);
    } else {
      EncodeItemsAppend(items[1..], i);
      assert all[0] == items[0] && all[1..] == items[1..] + [i];
      Associative(EncodeItem(items[0]), EncodeItems(items[1..]), EncodeItem(i));
    }
  }

  class DhcpClient {
    const cfg: Config
    const mac: Mac
    const buf: array<byte>
    var state: State
    var xid: uint32
    var serverId: Ip
    var offered: Ip
    var tries: nat
    var nextTxUs: int
    var renewAtUs: int
    var lease: Lease
    var bound: bool
    var log: seq<Event>

    function View(): Client
      reads this
    {
      Client(state, xid, mac, serverId, offered, tries, nextTxUs, renewAtUs, lease, bound, log)
    }

    /** wsm_dhcp_client_create and wsm_dhcp_start. */
    constructor (cfg: Config, mac: Mac, rnd: uint32)
      ensures View() == Started(mac, rnd) && this.cfg == cfg && buf.Length == BUF_SIZE && fresh(buf)
    {
      this.cfg, this.mac := cfg, mac;
      buf := new byte[BUF_SIZE](_ => 0);
      state, tries, nextTxUs, xid, serverId, offered := Selecting, 0, 0, rnd, NO_IP, NO_IP;
      renewAtUs, lease, bound := 0, Lease(NO_IP, NO_IP, NO_IP, NO_IP, 0), false;
      log := [Enter(rnd)];
    }

    method EnterSelecting(rnd: uint32)
      modifies this
      ensures View() == Dhcp.EnterSelecting(old(View()), rnd)
    {
      state := Selecting;
      tries := 0;
      nextTxUs := 0;
      xid := rnd;
      serverId, offered := NO_IP, NO_IP;
      log := log + [Enter(rnd)];
    }

    method Clear(n: nat)
      requires n <= buf.Length
      modifies buf
      ensures forall k :: 0 <= k < n ==> buf[k] == 0
    {
      for i := 0 to n
        invariant forall k :: 0 <= k < i ==> buf[k] == 0
      {
        buf[i] := 0;
      }
    }

    /** memset, then the fields of the header in place. */
    method BuildHeader()
      requires buf.Length == BUF_SIZE
      modifies buf
      ensures buf[..FIXED_LEN] == Header(OP_REQUEST, xid, NO_IP, mac)
    {
      Clear(FIXED_LEN);
      CopyTo(buf, 0, [OP_REQUEST, 1, 6, 0]);
      CopyTo(buf, OFF_XID, Be32(xid));
      CopyTo(buf, 10, [0x80, 0]);
      CopyTo(buf, OFF_CHADDR, mac);
      CopyTo(buf, OFF_COOKIE, COOKIE);
      HeaderFromBytes(xid, mac, buf[..FIXED_LEN]);
    }

    method PutOptionBytes(n: nat, code: byte, data: seq<byte>)
      requires |data| < 0x100 && n + 2 + |data| <= buf.Length
      modifies buf
      ensures buf[..n] == old(buf[..n]) && buf[n..n + 2 + |data|] == [code, |data|] + data
    {
      buf[n] := code;
      buf[n + 1] := |data|;
      CopyTo(buf, n + 2, data);
    }

    /** One option behind the n bytes of h and `done`. */
    method PutOption(n: nat, code: byte, data: seq<byte>, ghost h: seq<byte>, ghost done: seq<Item>) returns (n': nat)
      requires |data| < 0x100 && n + 2 + |data| <= buf.Length && code != OPT_PAD && code != OPT_END
      requires ItemsOk(done) && buf[..n] == h + EncodeItems(done)
      modifies buf
      ensures n' == n + 2 + |data| && buf[..n'] == h + EncodeItems(done + [Opt(code, data)])
    {
      PutOptionBytes(n, code, data);
      n' := n + 2 + |data|;
      EncodeItemsAppend(done, Opt(code, data));
      Associative(h, EncodeItems(done), EncodeItem(Opt(code, data)));
      assert buf[..n'] == buf[..n] + buf[n..n'];
    }

    /** END, then pads to the BOOTP minimum. */
    method Finish(n0: nat, kind: byte, ghost h: seq<byte>) returns (n: nat)
      requires buf.Length == BUF_SIZE && n0 < MIN_LEN && h == Header(OP_REQUEST, xid, NO_IP, mac)
      requires buf[..n0] == h + EncodeItems(BuildItems(kind, mac, offered, serverId))
      modifies buf
      ensures n == MIN_LEN && buf[..n] == Build(kind, xid, mac, offered, serverId)
    {
      buf[n0] := OPT_END;
      n := n0 + 1;
      ghost var p := buf[..n];
      assert p == h + EncodeItems(BuildItems(kind, mac, offered, serverId)) + [OPT_END];
      while n < MIN_LEN
        invariant n0 + 1 <= n <= MIN_LEN
        invariant buf[..n] == p + Zeros(n - n0 - 1)
      {
        buf[n] := OPT_PAD;
        n := n + 1;
        assert buf[..n] == buf[..n - 1] + [OPT_PAD];
      }
    }

    /** dhcp_build. */
    method BuildMessage(kind: byte) returns (n: nat)
      requires buf.Length == BUF_SIZE
      modifies buf
      ensures n == MIN_LEN && buf[..n] == Build(kind, xid, mac, offered, serverId)
    {
      BuildHeader();
      ghost var h := buf[..FIXED_LEN];
      ghost var items: seq<Item> := [];
      n := PutOption(FIXED_LEN, OPT_MSG_TYPE, [kind], h, items);
      items := items + [Opt(OPT_MSG_TYPE, [kind])];
      n := PutOption(n, OPT_CLIENT_ID, [1] + mac, h, items);
      items := items + [Opt(OPT_CLIENT_ID, [1] + mac)];
      if kind == REQUEST {
        n := PutOption(n, OPT_REQUESTED_IP, offered, h, items);
        items := items + [Opt(OPT_REQUESTED_IP, offered)];
        n := PutOption(n, OPT_SERVER_ID, serverId, h, items);
        items := items + [Opt(OPT_SERVER_ID, serverId)];
      }
      n := PutOption(n, OPT_PARAM_REQ, [OPT_SUBNET, OPT_ROUTER, OPT_DNS, OPT_LEASE_TIME], h, items);
      assert items + [Opt(OPT_PARAM_REQ, [OPT_SUBNET, OPT_ROUTER, OPT_DNS, OPT_LEASE_TIME])]
          == BuildItems(kind, mac, offered, serverId);
      n := Finish(n, kind, h);
    }

    /** The message goes out of the buffer it was built in. */
    method Transmit(now: int) returns (sent: seq<byte>)
      requires buf.Length == BUF_SIZE
      modifies this, buf
      ensures View() == Dhcp.Transmit(cfg, old(View()), now)
      ensures sent == Build(if old(state) == Selecting then DISCOVER else REQUEST, xid, mac, offered, serverId)
    {
      tries := tries + 1;
      var kind := if state == Selecting then DISCOVER else REQUEST;
      var n := BuildMessage(kind);
      sent := buf[..n];
      log := log + [Tx(sent, now)];
      nextTxUs := now + cfg.intervalMs * 1000 * tries;
    }

    /** The option walk of dhcp_parse, by index. */
    method ParseMessage(p: seq<byte>) returns (kind: byte, got: Lease)
      modifies this`serverId
      ensures Parsed(kind, got, serverId) == Parse(p, xid, mac, old(serverId))
    {
      kind, got := 0, Lease(NO_IP, NO_IP, NO_IP, NO_IP, 0);
      if !ForUs(p, xid, mac) {
        return;
      }
      got := got.(ip := p[OFF_YIADDR..OFF_YIADDR + 4]);
      var i := FIXED_LEN;
      while i < |p|
        invariant FIXED_LEN <= i <= |p| && got.ip == p[OFF_YIADDR..OFF_YIADDR + 4]
        invariant Walk(p[FIXED_LEN..], Fields(0, NO_IP, NO_IP, NO_IP, 0, old(serverId)))
                  == Walk(p[i..], Fields(kind, got.mask, got.router, got.dns, got.leaseS, serverId))
        decreases |p| - i
      {
        var code := p[i];
        assert p[i..][0] == code && p[i..][1..] == p[i + 1..];
        if code == OPT_PAD {
          i := i + 1;
          continue;
        }
        if code == OPT_END || i + 1 >= |p| {
          return;
        }
        var l := p[i + 1];
        if i + 2 + l > |p| {
          return;
        }
        var data := p[i + 2..i + 2 + l];
        assert p[i..][2..2 + l] == data && p[i..][2 + l..] == p[i + 2 + l..];
        if code == OPT_MSG_TYPE {
          if l >= 1 { kind := data[0]; }
        } else if l >= 4 {
          if code == OPT_SUBNET {
            got := got.(mask := data[..4]);
          } else if code == OPT_ROUTER {
            got := got.(router := data[..4]);
          } else if code == OPT_DNS {
            got := got.(dns := data[..4]);
          } else if code == OPT_LEASE_TIME {
            got := got.(leaseS := U32(data[..4]));
          } else if code == OPT_SERVER_ID {
            serverId := data[..4];
          }
        }
        i := i + 2 + l;
      }
    }

    /** What follows once the datagram has been parsed. */
    method Take(kind: byte, got: Lease, p: seq<byte>, rnd: uint32, later: int) returns (st: Option<Status>)
      modifies this
      ensures var told := ForUs(p, old(xid), mac) && ServerIdIn(p).Some?;
              (View(), st) == Took(old(View()), Parsed(kind, got, old(serverId)), told, p, rnd, later)
    {
      if !(state == Selecting && kind == OFFER) && ForUs(p, xid, mac) && ServerIdIn(p).Some? {
        log := log + [Named(p)];
      }
      if kind == 0 {
        return None;
      }
      if kind == NAK {
        EnterSelecting(rnd);
        return None;
      }
      if state == Selecting && kind == OFFER {
        offered := got.ip;
        state := Requesting;
        tries := 0;
        nextTxUs := 0;
        log := log + [OfferTaken(p)];
        return None;
      }
      if state == Requesting && kind == ACK {
        lease := got;
        log := log + [AckTaken(p), Applied(got)];
        state := Bound;
        bound := true;
        renewAtUs := later + RenewIn(got) * 1000000;
        return Some(Leased(lease));
      }
      return None;
    }

    method Receive(p: seq<byte>, rnd: uint32, later: int) returns (st: Option<Status>)
      modifies this
      ensures (View(), st) == Dhcp.Receive(old(View()), p, rnd, later)
    {
      var kind, got := ParseMessage(p);
      st := Take(kind, got, p, rnd, later);
    }

    method OneTurn(t: Turn) returns (st: Option<Status>)
      requires buf.Length == BUF_SIZE
      modifies this, buf
      ensures (View(), st) == Dhcp.OneTurn(cfg, old(View()), t)
    {
      if state == Bound {
        if t.now < renewAtUs {
          return Some(Leased(lease));
        }
        EnterSelecting(t.rnd);
      }
      if t.now >= nextTxUs {
        if tries >= cfg.xmitTries {
          log := log + [GaveUp(t.now)];
          EnterSelecting(t.rnd);
          return Some(Failed);
        }
        var _ := Transmit(t.now);
      }
      if t.got.None? || t.got.value == [] {
        return Some(Pending);
      }
      st := Receive(t.got.value, t.rnd2, t.later);
    }

    /** dhcp_step. */
    method Step(turns: seq<Turn>) returns (status: Status)
      requires buf.Length == BUF_SIZE && |turns| == cfg.stepPackets
      modifies this, buf
      ensures (View(), status) == Dhcp.Step(cfg, old(View()), turns)
    {
      for i := 0 to |turns|
        invariant Dhcp.Step(cfg, View(), turns[i..]) == Dhcp.Step(cfg, old(View()), turns)
      {
        assert turns[i..][0] == turns[i] && turns[i..][1..] == turns[i + 1..];
        var st := OneTurn(turns[i]);
        if st.Some? {
          return st.value;
        }
      }
      return Pending;
    }
  }
}
