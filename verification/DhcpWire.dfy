/** DHCP messages of port/backend/src/wsm_dhcp.c: the bytes dhcp_build writes and the walk
    dhcp_parse makes over a reply (RFC 2131 section 2, RFC 2132 section 2). */
module DhcpWire {
  import opened Bytes

  const OP_REQUEST: byte := 1
  const OP_REPLY: byte := 2
  const DISCOVER: byte := 1
  const OFFER: byte := 2
  const REQUEST: byte := 3
  const ACK: byte := 5
  const NAK: byte := 6

  const OPT_PAD: byte := 0
  const OPT_SUBNET: byte := 1
  const OPT_ROUTER: byte := 3
  const OPT_DNS: byte := 6
  const OPT_REQUESTED_IP: byte := 50
  const OPT_LEASE_TIME: byte := 51
  const OPT_MSG_TYPE: byte := 53
  const OPT_SERVER_ID: byte := 54
  const OPT_PARAM_REQ: byte := 55
  const OPT_CLIENT_ID: byte := 61
  const OPT_END: byte := 255

  const FIXED_LEN := 240
  const OFF_XID := 4
  const OFF_YIADDR := 16
  const OFF_CHADDR := 28
  const OFF_COOKIE := 236
  const MIN_LEN := 300

  const COOKIE: seq<byte> := [0x63, 0x82, 0x53, 0x63]

  type Mac = s: seq<byte> | |s| == 6 witness [0, 0, 0, 0, 0, 0]

  const NO_IP: Ip := [0, 0, 0, 0]

  datatype Lease = Lease(ip: Ip, mask: Ip, router: Ip, dns: Ip, leaseS: uint32)

  // ------------------------------------------------------------------ options

  datatype Item = Pad | Opt(code: byte, data: seq<byte>)

  predicate ItemOk(i: Item) {
    i.Opt? ==> i.code != OPT_PAD && i.code != OPT_END && |i.data| < 0x100
  }

  predicate ItemsOk(items: seq<Item>) {
    forall i :: 0 <= i < |items| ==> ItemOk(items[i])
  }

  function EncodeItem(i: Item): seq<byte>
    requires ItemOk(i)
  {
    match i
    case Pad => [OPT_PAD]
    case Opt(code, data) => [code, |data|] + data
  }

  function EncodeItems(items: seq<Item>): seq<byte>
    requires ItemsOk(items)
  {
    if items == [] then [] else EncodeItem(items[0]) + EncodeItems(items[1..])
  }

  /** What dhcp_parse collects; `serverId` is the client's own field and survives messages
      that do not carry one. */
  datatype Fields = Fields(kind: byte, mask: Ip, router: Ip, dns: Ip, leaseS: uint32, serverId: Ip)

  function Taken(f: Fields, code: byte, data: seq<byte>): Fields {
    if code == OPT_MSG_TYPE then if |data| >= 1 then f.(kind := data[0]) else f
    else if |data| < 4 then f
    else if code == OPT_SUBNET then f.(mask := data[..4])
    else if code == OPT_ROUTER then f.(router := data[..4])
    else if code == OPT_DNS then f.(dns := data[..4])
    else if code == OPT_LEASE_TIME then f.(leaseS := U32(data[..4]))
    else if code == OPT_SERVER_ID then f.(serverId := data[..4])
    else f
  }

  /** The option walk over the bytes behind the fixed part. */
  function Walk(s: seq<byte>, f: Fields): Fields
    decreases |s|
  {
    if s == [] then f
    else if s[0] == OPT_PAD then Walk(s[1..], f)
    else if s[0] == OPT_END || |s| == 1 then f
    else if 2 + s[1] > |s| then f
    else Walk(s[2 + s[1]..], Taken(f, s[0], s[2..2 + s[1]]))
  }

  /** A reader of options that knows nothing of the walk: the data of the last option `code`
      with at least `min` bytes, up to an END (255) or an option that is cut off; a pad (0) is
      one byte (section 2 of RFC 2132). */
  function LastOption(s: seq<byte>, code: byte, min: nat): (r: Option<seq<byte>>)
    ensures r.Some? ==> |r.value| >= min
    decreases |s|
  {
    if s == [] then None
    else if s[0] == 0 then LastOption(s[1..], code, min)
    else if s[0] == 255 || |s| == 1 || 2 + s[1] > |s| then None
    else
      var later := LastOption(s[2 + s[1]..], code, min);
      if later.None? && s[0] == code && s[1] >= min then Some(s[2..2 + s[1]]) else later
  }

  function Or4(v: Option<seq<byte>>, before: Ip): Ip
    requires v.Some? ==> |v.value| >= 4
  {
    if v.Some? then v.value[..4] else before
  }

  /** The options of a message by their numbers in RFC 2132, where they are there. */
  function Read(s: seq<byte>, f: Fields): Fields {
    var kind, lease := LastOption(s, 53, 1), LastOption(s, 51, 4);
    Fields(
      if kind.Some? then kind.value[0] else f.kind,
      Or4(LastOption(s, 1, 4), f.mask),
      Or4(LastOption(s, 3, 4), f.router),
      Or4(LastOption(s, 6, 4), f.dns),
      if lease.Some? then U32(lease.value[..4]) else f.leaseS,
      Or4(LastOption(s, 54, 4), f.serverId))
  }

  /** On any bytes, the walk collects what that reader finds. */
  lemma {:induction false} WalkIsRead(s: seq<byte>, f: Fields)
    ensures Walk(s, f) == Read(s, f)
    decreases |s|
  {
    if s == [] {
    } else if s[0] == OPT_PAD {
      WalkIsRead(s[1..], f);
    } else if !(s[0] == OPT_END || |s| == 1 || 2 + s[1] > |s|) {
      WalkIsRead(s[2 + s[1]..], Taken(f, s[0], s[2..2 + s[1]]));
    }
  }

  // ------------------------------------------------------------------ what the walk means

  /** RFC 2132: the data of the last option `code` that carries at least `min` bytes. */
  function LastValue(items: seq<Item>, code: byte, min: nat): (r: Option<seq<byte>>)
    ensures r.Some? ==> |r.value| >= min
  {
    if items == [] then None
    else
      var last := items[|items| - 1];
      if last.Opt? && last.code == code && |last.data| >= min then Some(last.data)
      else LastValue(items[..|items| - 1], code, min)
  }

  /** The fields as the option list defines them by their numbers in RFC 2132, independently of
      any walk. */
  function Meaning(items: seq<Item>, f: Fields): Fields {
    var kind, lease := LastValue(items, 53, 1), LastValue(items, 51, 4);
    Fields(
      if kind.Some? then kind.value[0] else f.kind,
      Or4(LastValue(items, 1, 4), f.mask),
      Or4(LastValue(items, 3, 4), f.router),
      Or4(LastValue(items, 6, 4), f.dns),
      if lease.Some? then U32(lease.value[..4]) else f.leaseS,
      Or4(LastValue(items, 54, 4), f.serverId))
  }

  /** Bytes at which the walk stops without taking anything: an END, nothing at all, or an
      option that is cut off. */
  predicate Stops(tail: seq<byte>) {
    || tail == []
    || tail[0] == OPT_END
    || (tail[0] != OPT_PAD && (|tail| == 1 || 2 + tail[1] > |tail|))
  }

  lemma ReadsItem(i: Item, rest: seq<byte>, code: byte, min: nat)
    requires ItemOk(i)
    ensures LastOption(EncodeItem(i) + rest, code, min) ==
            if LastOption(rest, code, min).None? then LastValue([i], code, min) else LastOption(rest, code, min)
  {
    assert LastValue([], code, min).None?;
    assert [i][..0] == [];
    if i.Opt? {
      var s := EncodeItem(i) + rest;
      assert s[2..2 + s[1]] == i.data && s[2 + s[1]..] == rest;
    } else {
      assert (EncodeItem(i) + rest)[1..] == rest;
    }
  }

  lemma {:induction false} LastOfMore(items: seq<Item>, code: byte, min: nat)
    requires items != []
    ensures LastValue(items, code, min) ==
            if LastValue(items[1..], code, min).None? then LastValue([items[0]], code, min)
            else LastValue(items[1..], code, min)
    decreases |items|
  {
    var n := |items| - 1;
    if n > 0 {
      LastOfMore(items[..n], code, min);
      assert items[1..][..n - 1] == items[..n][1..] && items[1..][n - 1] == items[n];
    } else {
      assert items == [items[0]];
    }
  }

  /** Among well-formed options, the reader finds the last value of any option. */
  lemma {:induction false} ReadsItems(items: seq<Item>, tail: seq<byte>, code: byte, min: nat)
    requires ItemsOk(items) && Stops(tail)
    ensures LastOption(EncodeItems(items) + tail, code, min) == LastValue(items, code, min)
    decreases |items|
  {
    if items == [] {
      assert EncodeItems(items) + tail == tail;
    } else {
      var rest := EncodeItems(items[1..]) + tail;
      assert EncodeItems(items) + tail == EncodeItem(items[0]) + rest;
      ReadsItem(items[0], rest, code, min);
      ReadsItems(items[1..], tail, code, min);
      LastOfMore(items, code, min);
    }
  }

  /** For any well-formed options, pads in between, up to an END or a cut-off option, the walk
      yields the last value of every option the client knows. */
  lemma WalkIsMeaning(items: seq<Item>, tail: seq<byte>, f: Fields)
    requires ItemsOk(items) && Stops(tail)
    ensures Walk(EncodeItems(items) + tail, f) == Meaning(items, f)
  {
    WalkIsRead(EncodeItems(items) + tail, f);
    ReadsItems(items, tail, 53, 1);
    ReadsItems(items, tail, 51, 4);
    ReadsItems(items, tail, 1, 4);
    ReadsItems(items, tail, 3, 4);
    ReadsItems(items, tail, 6, 4);
    ReadsItems(items, tail, 54, 4);
  }

  // ------------------------------------------------------------------ whole messages

  /** A reply addressed to this client: op, xid, chaddr and cookie. */
  predicate ForUs(p: seq<byte>, xid: uint32, mac: Mac) {
    && |p| >= FIXED_LEN
    && p[0] == OP_REPLY
    && U32(p[OFF_XID..OFF_XID + 4]) == xid
    && p[OFF_CHADDR..OFF_CHADDR + 6] == mac
    && p[OFF_COOKIE..FIXED_LEN] == COOKIE
  }

  datatype Parsed = Parsed(kind: byte, lease: Lease, serverId: Ip)

  /** dhcp_parse. Kind 0: not a reply to us, or one without a message type. */
  function Parse(p: seq<byte>, xid: uint32, mac: Mac, serverId: Ip): Parsed {
    if !ForUs(p, xid, mac) then Parsed(0, Lease(NO_IP, NO_IP, NO_IP, NO_IP, 0), serverId)
    else
      var f := Walk(p[FIXED_LEN..], Fields(0, NO_IP, NO_IP, NO_IP, 0, serverId));
      Parsed(f.kind, Lease(p[OFF_YIADDR..OFF_YIADDR + 4], f.mask, f.router, f.dns, f.leaseS), f.serverId)
  }

  // What any reader sees in a message (section 2 of RFC 2131, sections 3 and 9 of RFC 2132).

  function Options(p: seq<byte>): seq<byte> {
    if |p| < 240 then [] else p[240..]
  }

  function TypeOf(p: seq<byte>): byte {
    var kind := LastOption(Options(p), 53, 1);
    if kind.Some? then kind.value[0] else 0
  }

  function AddressIn(p: seq<byte>, code: byte): Option<Ip> {
    var v := LastOption(Options(p), code, 4);
    if v.Some? then Some(v.value[..4]) else None
  }

  function RequestedIn(p: seq<byte>): Option<Ip> {
    AddressIn(p, 50)
  }

  function ServerIdIn(p: seq<byte>): Option<Ip> {
    AddressIn(p, 54)
  }

  function YiaddrIn(p: seq<byte>): Ip {
    if |p| < 240 then [0, 0, 0, 0] else p[16..20]
  }

  function OrElse(ip: Option<Ip>, before: Ip): Ip {
    if ip.Some? then ip.value else before
  }

  function LeaseIn(p: seq<byte>): Lease {
    var lease := LastOption(Options(p), 51, 4);
    Lease(YiaddrIn(p), OrElse(AddressIn(p, 1), [0, 0, 0, 0]), OrElse(AddressIn(p, 3), [0, 0, 0, 0]),
          OrElse(AddressIn(p, 6), [0, 0, 0, 0]), if lease.Some? then U32(lease.value[..4]) else 0)
  }

  /** A message from or for the host `mac` in the exchange `xid`. */
  predicate Concerns(p: seq<byte>, op: byte, xid: uint32, mac: Mac) {
    |p| >= 240 && p[0] == op && U32(p[4..8]) == xid && p[28..34] == mac && p[236..240] == [99, 130, 83, 99]
  }

  /** Whatever the bytes: dhcp_parse takes a message for a reply to this client exactly when it
      concerns it, reads type and lease as any reader does, and stores a server id that is
      there. */
  lemma ParseReads(p: seq<byte>, xid: uint32, mac: Mac, serverId: Ip)
    ensures ForUs(p, xid, mac) <==> Concerns(p, 2, xid, mac)
    ensures var m := Parse(p, xid, mac, serverId);
            if Concerns(p, 2, xid, mac) then m == Parsed(TypeOf(p), LeaseIn(p), OrElse(ServerIdIn(p), serverId))
            else m.kind == 0 && m.serverId == serverId
  {
    if ForUs(p, xid, mac) {
      WalkIsRead(p[FIXED_LEN..], Fields(0, NO_IP, NO_IP, NO_IP, 0, serverId));
    }
  }

  /** The BOOTP header with the magic cookie: broadcast flag set, all addresses zero. */
  function Header(op: byte, xid: uint32, yiaddr: Ip, mac: Mac): (h: seq<byte>)
    ensures |h| == FIXED_LEN
  {
    [op, 1, 6, 0] + Be32(xid) + [0, 0, 0x80, 0] + Zeros(4) + yiaddr + Zeros(8) + mac + Zeros(202) + COOKIE
  }

  function BuildItems(kind: byte, mac: Mac, offered: Ip, serverId: Ip): (items: seq<Item>)
    ensures ItemsOk(items)
  {
    [Opt(OPT_MSG_TYPE, [kind]), Opt(OPT_CLIENT_ID, [1] + mac)]
    + (if kind == REQUEST then [Opt(OPT_REQUESTED_IP, offered), Opt(OPT_SERVER_ID, serverId)] else [])
    + [Opt(OPT_PARAM_REQ, [OPT_SUBNET, OPT_ROUTER, OPT_DNS, OPT_LEASE_TIME])]
  }

  lemma EncodedSize(items: seq<Item>)
    requires ItemsOk(items)
    ensures |EncodeItems(items)| == if items == [] then 0 else |EncodeItem(items[0])| + |EncodeItems(items[1..])|
  {
  }

  lemma BuildItemsSize(kind: byte, mac: Mac, offered: Ip, serverId: Ip)
    ensures |EncodeItems(BuildItems(kind, mac, offered, serverId))| == if kind == REQUEST then 30 else 18
  {
    var a, b := Opt(OPT_MSG_TYPE, [kind]), Opt(OPT_CLIENT_ID, [1] + mac);
    var e := Opt(OPT_PARAM_REQ, [OPT_SUBNET, OPT_ROUTER, OPT_DNS, OPT_LEASE_TIME]);
    var c, d := Opt(OPT_REQUESTED_IP, offered), Opt(OPT_SERVER_ID, serverId);
    EncodedSize([]);
    EncodedSize([e]);
    if kind == REQUEST {
      assert BuildItems(kind, mac, offered, serverId) == [a, b, c, d, e];
      EncodedSize([d, e]);
      EncodedSize([c, d, e]);
      EncodedSize([b, c, d, e]);
      EncodedSize([a, b, c, d, e]);
    } else {
      assert BuildItems(kind, mac, offered, serverId) == [a, b, e];
      EncodedSize([b, e]);
      EncodedSize([a, b, e]);
    }
  }

  /** dhcp_build: always MIN_LEN bytes. */
  function Build(kind: byte, xid: uint32, mac: Mac, offered: Ip, serverId: Ip): (p: seq<byte>)
    ensures |p| == MIN_LEN
  {
    BuildItemsSize(kind, mac, offered, serverId);
    var p := Header(OP_REQUEST, xid, NO_IP, mac) + EncodeItems(BuildItems(kind, mac, offered, serverId)) + [OPT_END];
    p + Zeros(MIN_LEN - |p|)
  }

  lemma HeaderFields(op: byte, xid: uint32, yiaddr: Ip, mac: Mac)
    ensures var h := Header(op, xid, yiaddr, mac);
            && h[0] == op && h[OFF_XID..OFF_XID + 4] == Be32(xid) && h[OFF_YIADDR..OFF_YIADDR + 4] == yiaddr
            && h[OFF_CHADDR..OFF_CHADDR + 6] == mac && h[OFF_COOKIE..] == COOKIE
            && h[1..4] == [1, 6, 0] && h[8..12] == [0, 0, 0x80, 0]
            && forall i :: 12 <= i < 16 || 20 <= i < 28 || 34 <= i < 236 ==> h[i] == 0
  {
    var id := [op, 1, 6, 0] + Be32(xid);
    var offer := id + [0, 0, 0x80, 0] + Zeros(4) + yiaddr;
    var hw := offer + Zeros(8) + mac;
    assert id[OFF_XID..] == Be32(xid);
    assert |offer| == OFF_YIADDR + 4 && offer[..8] == id && offer[OFF_YIADDR..] == yiaddr;
    assert |hw| == OFF_CHADDR + 6 && hw[..|offer|] == offer && hw[OFF_CHADDR..] == mac;
    assert Header(op, xid, yiaddr, mac) == hw + Zeros(202) + COOKIE;
  }

  /** Any reply reads back: what it is, what it offers, and whom it is for. */
  lemma ParseReply(xid: uint32, yiaddr: Ip, mac: Mac, items: seq<Item>, tail: seq<byte>, xid': uint32, mac': Mac, sid: Ip)
    requires ItemsOk(items) && Stops(tail)
    ensures var p := Header(OP_REPLY, xid, yiaddr, mac) + EncodeItems(items) + tail;
            var m := Meaning(items, Fields(0, NO_IP, NO_IP, NO_IP, 0, sid));
            && (ForUs(p, xid', mac') <==> xid' == xid && mac' == mac)
            && (ForUs(p, xid', mac') ==>
                  Parse(p, xid', mac', sid) == Parsed(m.kind, Lease(yiaddr, m.mask, m.router, m.dns, m.leaseS), m.serverId))
  {
    var h := Header(OP_REPLY, xid, yiaddr, mac);
    var body := EncodeItems(items) + tail;
    var p := h + EncodeItems(items) + tail;
    assert p == h + body;
    HeaderFields(OP_REPLY, xid, yiaddr, mac);
    assert p[OFF_XID..OFF_XID + 4] == h[OFF_XID..OFF_XID + 4]
        && p[OFF_YIADDR..OFF_YIADDR + 4] == h[OFF_YIADDR..OFF_YIADDR + 4];
    assert p[OFF_CHADDR..OFF_CHADDR + 6] == h[OFF_CHADDR..OFF_CHADDR + 6] && p[OFF_COOKIE..FIXED_LEN] == h[OFF_COOKIE..];
    assert p[FIXED_LEN..] == body;
    WalkIsMeaning(items, tail, Fields(0, NO_IP, NO_IP, NO_IP, 0, sid));
  }

  lemma SameHeader(p: seq<byte>, h: seq<byte>)
    requires |p| >= 240 && p[..240] == h
    ensures p[0] == h[0] && p[1..4] == h[1..4] && p[4..8] == h[4..8] && p[8..12] == h[8..12] && p[28..34] == h[28..34]
    ensures p[236..240] == h[236..] && forall i :: 0 <= i < 240 ==> p[i] == h[i]
  {
  }

  lemma BehindHeader(xid: uint32, yiaddr: Ip, mac: Mac, body: seq<byte>)
    ensures var p := Header(OP_REPLY, xid, yiaddr, mac) + body;
            Concerns(p, 2, xid, mac) && YiaddrIn(p) == yiaddr && Options(p) == body
  {
    var h := Header(OP_REPLY, xid, yiaddr, mac);
    var p := h + body;
    HeaderFields(OP_REPLY, xid, yiaddr, mac);
    assert p[..240] == h && p[240..] == body;
    SameHeader(p, h);
    assert p[16..20] == h[16..20];
  }

  /** The same replies as any reader sees them. */
  lemma ReplyReads(xid: uint32, yiaddr: Ip, mac: Mac, items: seq<Item>, tail: seq<byte>, code: byte, min: nat)
    requires ItemsOk(items) && Stops(tail)
    ensures var p := Header(OP_REPLY, xid, yiaddr, mac) + EncodeItems(items) + tail;
            && Concerns(p, 2, xid, mac) && YiaddrIn(p) == yiaddr
            && LastOption(Options(p), code, min) == LastValue(items, code, min)
  {
    var h := Header(OP_REPLY, xid, yiaddr, mac);
    var p := h + EncodeItems(items) + tail;
    assert p == h + (EncodeItems(items) + tail);
    BehindHeader(xid, yiaddr, mac, EncodeItems(items) + tail);
    ReadsItems(items, tail, code, min);
  }

  // ------------------------------------------------------------------ what a server reads

  lemma BuildParts(kind: byte, xid: uint32, mac: Mac, offered: Ip, serverId: Ip) returns (tail: seq<byte>)
    ensures Stops(tail) && 255 in tail
    ensures Build(kind, xid, mac, offered, serverId)
            == Header(OP_REQUEST, xid, NO_IP, mac) + (EncodeItems(BuildItems(kind, mac, offered, serverId)) + tail)
  {
    var h, e := Header(OP_REQUEST, xid, NO_IP, mac), EncodeItems(BuildItems(kind, mac, offered, serverId));
    BuildItemsSize(kind, mac, offered, serverId);
    tail := [OPT_END] + Zeros(MIN_LEN - |h + e + [OPT_END]|);
    assert tail[0] == 255;
    assert Build(kind, xid, mac, offered, serverId) == h + (e + tail);
  }

  lemma BuildValues(kind: byte, mac: Mac, offered: Ip, serverId: Ip, code: byte, min: nat)
    ensures LastValue(BuildItems(kind, mac, offered, serverId), code, min) ==
            match code
            case 53 => if min <= 1 then Some([kind]) else None
            case 61 => if min <= 7 then Some([1] + mac) else None
            case 50 => if kind == REQUEST && min <= 4 then Some(offered) else None
            case 54 => if kind == REQUEST && min <= 4 then Some(serverId) else None
            case 55 => if min <= 4 then Some([1, 3, 6, 51]) else None
            case _ => None
  {
    var items := BuildItems(kind, mac, offered, serverId);
    var n := |items|;
    LastOfMore(items, code, min);
    LastOfMore(items[1..], code, min);
    LastOfMore(items[2..], code, min);
    assert items[1..][1..] == items[2..] && items[2..][1..] == items[3..];
    assert LastValue([], code, min).None?;
    if kind == REQUEST {
      LastOfMore(items[3..], code, min);
      LastOfMore(items[4..], code, min);
      assert items[3..][1..] == items[4..] && items[4..][1..] == [];
    } else {
      assert items[3..] == [];
    }
  }

  lemma BuildReadsOption(kind: byte, xid: uint32, mac: Mac, offered: Ip, serverId: Ip, code: byte, min: nat)
    ensures LastOption(Options(Build(kind, xid, mac, offered, serverId)), code, min)
            == LastValue(BuildItems(kind, mac, offered, serverId), code, min)
  {
    var items := BuildItems(kind, mac, offered, serverId);
    var tail := BuildParts(kind, xid, mac, offered, serverId);
    assert Options(Build(kind, xid, mac, offered, serverId)) == EncodeItems(items) + tail;
    ReadsItems(items, tail, code, min);
  }

  lemma BuildReadsHeader(kind: byte, xid: uint32, mac: Mac, offered: Ip, serverId: Ip)
    ensures var p := Build(kind, xid, mac, offered, serverId);
            && |p| == 300 && Concerns(p, 1, xid, mac) && p[1..4] == [1, 6, 0] && p[8..12] == [0, 0, 0x80, 0]
            && forall i :: 12 <= i < 28 || 34 <= i < 236 ==> p[i] == 0
  {
    var h, p := Header(OP_REQUEST, xid, NO_IP, mac), Build(kind, xid, mac, offered, serverId);
    var _ := BuildParts(kind, xid, mac, offered, serverId);
    assert p[..240] == h;
    HeaderFields(OP_REQUEST, xid, NO_IP, mac);
    SameHeader(p, h);
    assert forall i :: 16 <= i < 20 ==> p[i] == h[16..20][i - 16];
  }

  /** The 300 bytes of every message, read field by field and option by option: a BOOTREQUEST
      over Ethernet in the exchange, asking for a broadcast answer, with no address of its own;
      a REQUEST (3) says which address it asks for and of which server, no other message does. */
  lemma BuildReads(kind: byte, xid: uint32, mac: Mac, offered: Ip, serverId: Ip)
    ensures var p := Build(kind, xid, mac, offered, serverId);
            && |p| == 300 && Concerns(p, 1, xid, mac) && p[1..4] == [1, 6, 0] && p[8..12] == [0, 0, 0x80, 0]
            && (forall i :: 12 <= i < 28 || 34 <= i < 236 ==> p[i] == 0)
            && TypeOf(p) == kind
            && LastOption(Options(p), 61, 0) == Some([1] + mac)
            && LastOption(Options(p), 55, 0) == Some([1, 3, 6, 51])
            && RequestedIn(p) == (if kind == 3 then Some(offered) else None)
            && ServerIdIn(p) == (if kind == 3 then Some(serverId) else None)
  {
    BuildReadsHeader(kind, xid, mac, offered, serverId);
    BuildValues(kind, mac, offered, serverId, 53, 1);
    BuildValues(kind, mac, offered, serverId, 61, 0);
    BuildValues(kind, mac, offered, serverId, 55, 0);
    BuildValues(kind, mac, offered, serverId, 50, 4);
    BuildValues(kind, mac, offered, serverId, 54, 4);
    BuildReadsOption(kind, xid, mac, offered, serverId, 53, 1);
    BuildReadsOption(kind, xid, mac, offered, serverId, 61, 0);
    BuildReadsOption(kind, xid, mac, offered, serverId, 55, 0);
    BuildReadsOption(kind, xid, mac, offered, serverId, 50, 4);
    BuildReadsOption(kind, xid, mac, offered, serverId, 54, 4);
    assert offered[..4] == offered && serverId[..4] == serverId;
  }

  lemma HeaderAsReply(xid: uint32, mac: Mac)
    ensures Header(OP_REQUEST, xid, NO_IP, mac)[0 := OP_REPLY] == Header(OP_REPLY, xid, NO_IP, mac)
  {
  }

  lemma FirstByte(h: seq<byte>, e: seq<byte>, tail: seq<byte>, op: byte)
    requires |h| > 0
    ensures (h + e + tail)[0 := op] == h[0 := op] + e + tail
  {
  }

  lemma BuildAsReply(kind: byte, xid: uint32, mac: Mac, offered: Ip, serverId: Ip) returns (tail: seq<byte>)
    ensures Stops(tail)
    ensures Build(kind, xid, mac, offered, serverId)[0 := OP_REPLY]
            == Header(OP_REPLY, xid, NO_IP, mac) + EncodeItems(BuildItems(kind, mac, offered, serverId)) + tail
  {
    var h, h' := Header(OP_REQUEST, xid, NO_IP, mac), Header(OP_REPLY, xid, NO_IP, mac);
    var e := EncodeItems(BuildItems(kind, mac, offered, serverId));
    BuildItemsSize(kind, mac, offered, serverId);
    tail := [OPT_END] + Zeros(MIN_LEN - |h + e + [OPT_END]|);
    var b := Build(kind, xid, mac, offered, serverId);
    assert b == h + e + tail;
    HeaderAsReply(xid, mac);
    FirstByte(h, e, tail, OP_REPLY);
  }

  lemma BuildMeaning(kind: byte, mac: Mac, offered: Ip, serverId: Ip, f: Fields)
    ensures Meaning(BuildItems(kind, mac, offered, serverId), f)
            == f.(kind := kind, serverId := if kind == REQUEST then serverId else f.serverId)
  {
    BuildValues(kind, mac, offered, serverId, 53, 1);
    BuildValues(kind, mac, offered, serverId, 51, 4);
    BuildValues(kind, mac, offered, serverId, 1, 4);
    BuildValues(kind, mac, offered, serverId, 3, 4);
    BuildValues(kind, mac, offered, serverId, 6, 4);
    BuildValues(kind, mac, offered, serverId, 54, 4);
    assert serverId[..4] == serverId;
  }

  /** What dhcp_build wrote, sent back as a reply, is for the same client and gives back the
      message type and, for a REQUEST, the server id. */
  lemma ParseBuild(kind: byte, xid: uint32, mac: Mac, offered: Ip, serverId: Ip, xid': uint32, mac': Mac, sid: Ip)
    ensures var p := Build(kind, xid, mac, offered, serverId)[0 := OP_REPLY];
            && (ForUs(p, xid', mac') <==> xid' == xid && mac' == mac)
            && (ForUs(p, xid', mac') ==>
                  Parse(p, xid', mac', sid)
                  == Parsed(kind, Lease(NO_IP, NO_IP, NO_IP, NO_IP, 0), if kind == REQUEST then serverId else sid))
  {
    var items := BuildItems(kind, mac, offered, serverId);
    var tail := BuildAsReply(kind, xid, mac, offered, serverId);
    ParseReply(xid, NO_IP, mac, items, tail, xid', mac', sid);
    BuildMeaning(kind, mac, offered, serverId, Fields(0, NO_IP, NO_IP, NO_IP, 0, sid));
  }
}
