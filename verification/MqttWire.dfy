/** MQTT 3.1.1 control packets as bytes, and how examples/mqtt/src/mqtt.c reads them back. */
module MqttWire {
  import opened Bytes

  const PKT_PUBLISH := 3
  const PKT_PUBACK := 4
  const PKT_SUBSCRIBE := 8

  type nibble = x: int | 0 <= x < 16

  datatype Packet = Packet(kind: nibble, flags: nibble, body: seq<byte>)

  // ------------------------------------------------------------------ remaining length

  const MAX_LEN_BYTES := 4

  /** enc_remaining_len: base 128, least significant digit first, top bit set on all but the last. */
  function EncLen(n: nat): (e: seq<byte>)
    ensures |e| >= 1
  {
    if n < 128 then [n] else [n % 128 + 128] + EncLen(n / 128)
  }

  /** What read_remaining_len makes of a stream, with `k` bytes still allowed. */
  datatype LenRead = Len(value: nat, used: nat) | Malformed | Short

  function DecLen(s: seq<byte>, k: nat): (r: LenRead)
    ensures r.Len? ==> 1 <= r.used <= |s|
  {
    if k == 0 then Malformed
    else if s == [] then Short
    else if s[0] < 128 then Len(s[0], 1)
    else match DecLen(s[1..], k - 1)
      case Len(v, used) => Len(s[0] - 128 + 128 * v, used + 1)
      case bad => bad
  }

  function Pow128(k: nat): (p: nat)
    ensures p >= 1
  {
    if k == 0 then 1 else 128 * Pow128(k - 1)
  }

  /** k bytes carry exactly the lengths below 128^k. */
  lemma {:induction false} LenRoundTrip(n: nat, k: nat, rest: seq<byte>)
    requires n > 0 || k > 0
    ensures DecLen(EncLen(n) + rest, k) == if n < Pow128(k) then Len(n, |EncLen(n)|) else Malformed
    decreases k
  {
    var s := EncLen(n) + rest;
    if k > 0 {
      assert Pow128(k) == 128 * Pow128(k - 1);
      if n < 128 {
        assert s[0] == n;
      } else {
        LenRoundTrip(n / 128, k - 1, rest);
        assert s[0] == n % 128 + 128 && s[1..] == EncLen(n / 128) + rest;
      }
    }
  }

  lemma {:induction false} LenSize(n: nat, k: nat)
    requires k > 0 && n < Pow128(k)
    ensures |EncLen(n)| <= k
  {
    if n >= 128 {
      LenSize(n / 128, k - 1);
    }
  }

  // ------------------------------------------------------------------ packets

  function Encode(p: Packet): seq<byte> {
    [p.kind * 16 + p.flags] + EncLen(|p.body|) + p.body
  }

  function EncodeAll(ps: seq<Packet>): seq<byte> {
    if ps == [] then [] else Encode(ps[0]) + EncodeAll(ps[1..])
  }

  /** The first packet of a stream and what follows it, if it is all there. */
  function Parse(s: seq<byte>): Option<(Packet, seq<byte>)> {
    if s == [] then None
    else match DecLen(s[1..], MAX_LEN_BYTES)
      case Len(v, used) =>
        if 1 + used + v > |s| then None
        else Some((Packet(s[0] / 16, s[0] % 16, s[1 + used..1 + used + v]), s[1 + used + v..]))
      case _ => None
  }

  const MAX_BODY := 0x1000_0000

  lemma Pow128Of4()
    ensures Pow128(MAX_LEN_BYTES) == MAX_BODY
  {
  }

  /** A packet reads back as itself, and the stream stands right behind it, exactly when its
      body is shorter than 2^28 bytes. */
  lemma ParseEncodeIff(p: Packet, rest: seq<byte>)
    ensures Parse(Encode(p) + rest) == Some((p, rest)) <==> |p.body| < MAX_BODY
  {
    var n, e := |p.body|, EncLen(|p.body|);
    var s := Encode(p) + rest;
    assert s[1..] == e + (p.body + rest);
    LenRoundTrip(n, MAX_LEN_BYTES, p.body + rest);
    Pow128Of4();
    if n < MAX_BODY {
      assert s[1 + |e|..1 + |e| + n] == p.body;
      assert s[1 + |e| + n..] == rest;
    }
  }

  // ------------------------------------------------------------------ PUBLISH

  /** enc_str: the length goes out in 16 bits, whatever it was. */
  function EncStr(s: seq<byte>): seq<byte> {
    [|s| / 0x100 % 0x100, |s| % 0x100] + s
  }

  function SubscribePacket(pktId: uint16, topic: seq<byte>): Packet {
    Packet(PKT_SUBSCRIBE, 2, Be16(pktId) + EncStr(topic) + [0])
  }

  function PubackPacket(pktId: uint16): Packet {
    Packet(PKT_PUBACK, 0, Be16(pktId))
  }

  function PublishPacket(topic: seq<byte>, payload: seq<byte>): Packet {
    Packet(PKT_PUBLISH, 0, EncStr(topic) + payload)
  }

  datatype Message = Message(topic: seq<byte>, payload: seq<byte>, qos: nat, pktId: uint16)

  /** handle_publish: topic, packet identifier when QoS > 0, payload; None is only logged. */
  function ReadPublish(flags: nibble, body: seq<byte>): (m: Option<Message>)
    ensures m.Some? ==> |m.value.topic| + |m.value.payload| <= |body|
  {
    var qos := flags / 2 % 4;
    if |body| < 2 then None
    else
      var off := 2 + U16(body[0], body[1]);
      if off > |body| then None
      else if qos == 0 then Some(Message(body[2..off], body[off..], 0, 0))
      else if off + 2 > |body| then None
      else Some(Message(body[2..off], body[off + 2..], qos, U16(body[off], body[off + 1])))
  }

  /** The subscriber sees the topic and payload that were published exactly when the topic's
      length fits the 16 bits it travels in. */
  lemma PublishReadBackIff(topic: seq<byte>, payload: seq<byte>)
    ensures ReadPublish(0, PublishPacket(topic, payload).body) == Some(Message(topic, payload, 0, 0))
            <==> |topic| < TWO_16
  {
  }

  // ------------------------------------------------------------------ the broker's side

  /** A publication as a broker sends it (section 3.3 of MQTT 3.1.1). */
  function BrokerPublish(dup: bool, qos: nat, retain: bool, topic: seq<byte>, pktId: uint16, payload: seq<byte>): Packet
    requires qos <= 2
  {
    Packet(3, (if dup then 8 else 0) + 2 * qos + (if retain then 1 else 0),
           [|topic| / 0x100 % 0x100, |topic| % 0x100] + topic
           + (if qos > 0 then [pktId / 0x100, pktId % 0x100] else []) + payload)
  }

  lemma ThreeFields(len: seq<byte>, topic: seq<byte>, id: seq<byte>, payload: seq<byte>)
    requires |len| == 2
    ensures var b, n := len + topic + id + payload, 2 + |topic|;
            && b[0] == len[0] && b[1] == len[1] && b[2..n] == topic && b[n + |id|..] == payload
            && forall i :: 0 <= i < |id| ==> b[n + i] == id[i]
  {
  }

  lemma FieldsRead(flags: nibble, len: seq<byte>, topic: seq<byte>, id: seq<byte>, payload: seq<byte>)
    requires |len| == 2 && |id| == (if flags / 2 % 4 > 0 then 2 else 0) && U16(len[0], len[1]) == |topic| % TWO_16
    ensures ReadPublish(flags, len + topic + id + payload) ==
            Some(Message(topic, payload, flags / 2 % 4, if id != [] then U16(id[0], id[1]) else 0))
            <==> |topic| < TWO_16
  {
    ThreeFields(len, topic, id, payload);
    var b := len + topic + id + payload;
    if |topic| >= TWO_16 {
      var m := ReadPublish(flags, b);
      assert m.Some? ==> |m.value.topic| == |topic| % TWO_16;
    } else if id != [] {
      assert b[2 + |topic|] == id[0] && b[2 + |topic| + 1] == id[1];
    }
  }

  /** Topic, payload, QoS and identifier of any publication read back exactly when the topic's
      length fits its 16 bits. */
  lemma BrokerPublishReadIff(dup: bool, qos: nat, retain: bool, topic: seq<byte>, pktId: uint16, payload: seq<byte>)
    requires qos <= 2
    ensures var p := BrokerPublish(dup, qos, retain, topic, pktId, payload);
            ReadPublish(p.flags, p.body) == Some(Message(topic, payload, qos, if qos > 0 then pktId else 0))
            <==> |topic| < TWO_16
  {
    var p := BrokerPublish(dup, qos, retain, topic, pktId, payload);
    var len: seq<byte> := [|topic| / 0x100 % 0x100, |topic| % 0x100];
    var id: seq<byte> := if qos > 0 then [pktId / 0x100, pktId % 0x100] else [];
    assert p.flags / 2 % 4 == qos;
    assert U16(len[0], len[1]) == |topic| % TWO_16;
    FieldsRead(p.flags, len, topic, id, payload);
  }

  /** The acknowledgement on the wire: a PUBACK (0x40) of two bytes, the identifier. */
  lemma PubackBytes(pktId: uint16)
    ensures Encode(PubackPacket(pktId)) == [0x40, 2, pktId / 0x100, pktId % 0x100]
  {
  }

  /** What a broker reads in a SUBSCRIBE (section 3.8): identifier, one topic filter, the QoS. */
  function ReadSubscribe(body: seq<byte>): Option<(uint16, seq<byte>, byte)> {
    if |body| < 5 then None
    else
      var n := U16(body[2], body[3]);
      if |body| != 4 + n + 1 then None
      else Some((U16(body[0], body[1]), body[4..4 + n], body[4 + n]))
  }

  lemma FourFields(id: seq<byte>, len: seq<byte>, topic: seq<byte>)
    requires |id| == 2 && |len| == 2
    ensures var b, n := id + len + topic + [0], 4 + |topic|;
            && b[0] == id[0] && b[1] == id[1] && b[2] == len[0] && b[3] == len[1] && b[4..n] == topic && b[n] == 0
            && |b| == n + 1
  {
  }

  /** The filter reads back with QoS 0 exactly when its length fits 16 bits; the fixed header
      says SUBSCRIBE with the flags that section 3.8.1 asks for. */
  lemma SubscribeReadBackIff(pktId: uint16, topic: seq<byte>)
    ensures Encode(SubscribePacket(pktId, topic))[0] == 0x82
    ensures ReadSubscribe(SubscribePacket(pktId, topic).body) == Some((pktId, topic, 0)) <==> |topic| < TWO_16
  {
    var len: seq<byte> := [|topic| / 0x100 % 0x100, |topic| % 0x100];
    var b := SubscribePacket(pktId, topic).body;
    assert b == Be16(pktId) + len + topic + [0];
    FourFields(Be16(pktId), len, topic);
    if |topic| < TWO_16 {
      assert U16(b[2], b[3]) == |topic|;
    }
  }

  /** The fixed header of a publication: no DUP, QoS 0, no RETAIN. */
  lemma PublishHeader(topic: seq<byte>, payload: seq<byte>)
    ensures Encode(PublishPacket(topic, payload))[0] == 0x30
  {
  }
}
