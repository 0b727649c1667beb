/** The CONNECT packet of examples/mqtt/src/mqtt.c, and how a broker reads it (section 3.1 of
    MQTT 3.1.1). */
module MqttConnect {
  import opened Bytes
  import opened MqttWire

  const PKT_CONNECT: nibble := 1
  const PROTOCOL_NAME: seq<byte> := [77, 81, 84, 84]
  const PROTOCOL_LEVEL: byte := 4
  const CLEAN_SESSION: byte := 0x02
  const WITH_PASSWORD: byte := 0x40
  const WITH_USERNAME: byte := 0x80

  datatype Login = Login(clientId: seq<byte>, username: Option<seq<byte>>, password: Option<seq<byte>>, keepAliveS: uint16)

  /** What is sent of it: empty strings count as absent, and so does a password without a
      username. */
  function Effective(c: Login): Login {
    var user := if c.username == Some([]) then None else c.username;
    c.(username := user, password := if user.None? || c.password == Some([]) then None else c.password)
  }

  function OptStr(o: Option<seq<byte>>): seq<byte> {
    if o.Some? then EncStr(o.value) else []
  }

  function ConnectFlags(e: Login): byte {
    CLEAN_SESSION + (if e.username.Some? then WITH_USERNAME else 0) + (if e.password.Some? then WITH_PASSWORD else 0)
  }

  function VariableHeader(e: Login): (h: seq<byte>)
    ensures |h| == 10
  {
    EncStr(PROTOCOL_NAME) + [PROTOCOL_LEVEL, ConnectFlags(e)] + Be16(e.keepAliveS)
  }

  function ConnectPacket(c: Login): Packet {
    var e := Effective(c);
    Packet(PKT_CONNECT, 0, VariableHeader(e) + (EncStr(e.clientId) + (OptStr(e.username) + OptStr(e.password))))
  }

  // ------------------------------------------------------------------ the broker

  datatype Field = Field(s: Option<seq<byte>>, rest: seq<byte>)

  /** A string field when `present`, else nothing. */
  function TakeStr(s: seq<byte>, present: bool): (f: Option<Field>)
    ensures f.Some? && f.value.s.Some? ==> |f.value.s.value| < TWO_16
  {
    if !present then Some(Field(None, s))
    else if |s| < 2 || 2 + U16(s[0], s[1]) > |s| then None
    else
      var n := U16(s[0], s[1]);
      Some(Field(Some(s[2..2 + n]), s[2 + n..]))
  }

  // The length of the protocol name, "MQTT", and protocol level 4.
  const PREAMBLE: seq<byte> := [0, 4, 0x4D, 0x51, 0x54, 0x54, 4]

  /** Nothing but the fields the flags announce, in their order, behind the preamble, with a
      clean session asked for. */
  function ReadConnect(body: seq<byte>): Option<Login> {
    if |body| < 10 || body[..7] != PREAMBLE || body[7] / 2 % 2 != 1 then None
    else match TakeStr(body[10..], true)
      case None => None
      case Some(id) =>
        match TakeStr(id.rest, body[7] >= 0x80)
        case None => None
        case Some(user) =>
          match TakeStr(user.rest, body[7] % 0x80 >= 0x40)
          case None => None
          case Some(pass) =>
            if pass.rest == [] then Some(Login(id.s.value, user.s, pass.s, U16(body[8], body[9]))) else None
  }

  predicate Fits(o: Option<seq<byte>>) {
    o.Some? ==> |o.value| < TWO_16
  }

  lemma TakeOf(o: Option<seq<byte>>, rest: seq<byte>)
    requires Fits(o)
    ensures TakeStr(OptStr(o) + rest, o.Some?) == Some(Field(o, rest))
  {
    if o.Some? {
      var s := OptStr(o) + rest;
      assert U16(s[0], s[1]) == |o.value|;
      assert s[2..2 + |o.value|] == o.value && s[2 + |o.value|..] == rest;
    } else {
      assert OptStr(o) + rest == rest;
    }
  }

  lemma HeaderRead(e: Login, body: seq<byte>, rest: seq<byte>)
    requires body == VariableHeader(e) + rest
    ensures body[..7] == PREAMBLE && body[7] == ConnectFlags(e)
    ensures U16(body[8], body[9]) == e.keepAliveS && body[10..] == rest
  {
  }

  lemma FlagsTell(e: Login)
    ensures ConnectFlags(e) / 2 % 2 == 1
    ensures ConnectFlags(e) >= 0x80 <==> e.username.Some?
    ensures ConnectFlags(e) % 0x80 >= 0x40 <==> e.password.Some?
  {
  }

  predicate Present(o: Option<seq<byte>>) {
    o.Some? && o.value != []
  }

  /** What a broker is to see of a login: the username if there is one, and the password if there
      are both. */
  predicate Means(c: Login, seen: Login) {
    && seen.clientId == c.clientId && seen.keepAliveS == c.keepAliveS
    && seen.username == (if Present(c.username) then c.username else None)
    && seen.password == (if Present(c.username) && Present(c.password) then c.password else None)
  }

  lemma BodyIs(c: Login, e: Login)
    requires e == Effective(c)
    ensures ConnectPacket(c).body == VariableHeader(e) + (EncStr(e.clientId) + (OptStr(e.username) + OptStr(e.password)))
  {
  }

  lemma ReadEffective(e: Login, body: seq<byte>)
    requires body == VariableHeader(e) + (EncStr(e.clientId) + (OptStr(e.username) + OptStr(e.password)))
    ensures ReadConnect(body) == Some(e) <==> |e.clientId| < TWO_16 && Fits(e.username) && Fits(e.password)
  {
    var user, pass := OptStr(e.username), OptStr(e.password);
    HeaderRead(e, body, EncStr(e.clientId) + (user + pass));
    FlagsTell(e);
    if |e.clientId| < TWO_16 && Fits(e.username) && Fits(e.password) {
      TakeOf(Some(e.clientId), user + pass);
      TakeOf(e.username, pass);
      assert pass + [] == pass;
      TakeOf(e.password, []);
    }
  }

  /** The broker sees exactly the login that was meant, when and only when every string fits
      the 16 bits its length travels in. */
  lemma ConnectReadBackIff(c: Login)
    ensures Encode(ConnectPacket(c))[0] == 0x10
    ensures var e, seen := Effective(c), ReadConnect(ConnectPacket(c).body);
            && Means(c, e)
            && (seen == Some(e) <==> |e.clientId| < TWO_16 && Fits(e.username) && Fits(e.password))
  {
    BodyIs(c, Effective(c));
    ReadEffective(Effective(c), ConnectPacket(c).body);
  }
}
