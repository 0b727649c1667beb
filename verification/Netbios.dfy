/** Both ends of a NetBIOS name query: the responder of examples/netbios/src/netbios.c and
    the client of examples/netbios/test.py (RFC 1001 section 14.1). */
module Netbios {
  import opened Bytes
  import opened Dns
  import opened DnsMessage

  const NAME_LEN := 16
  const ENC_LEN: byte := 32
  const QUERY_LEN := 50
  const REPLY_LEN := 62
  const NAME_TTL := 10
  const LETTER_A: byte := 65
  const LETTER_P: byte := 80
  const SPACE: byte := 32
  const QUERY_FLAGS: uint16 := 0x0100
  const REPLY_FLAGS: uint16 := 0x8500
  const NB_TYPE: uint16 := 0x20
  const IN_CLASS: uint16 := 1

  // ------------------------------------------------------------------ names

  type ascii = x: int | 0 <= x < 0x80

  /** A Python string: Unicode code points. */
  type Text = seq<nat>

  /** str.upper and tolower on one byte. */
  function Upper(c: byte): byte {
    if 97 <= c <= 122 then c - 32 else c
  }

  function Lower(c: byte): byte {
    if 65 <= c <= 90 then c + 32 else c
  }

  function UpperAll(s: seq<byte>): (u: seq<byte>)
    ensures |u| == |s| && forall i :: 0 <= i < |s| ==> u[i] == Upper(s[i])
  {
    seq(|s|, i requires 0 <= i < |s| => Upper(s[i]))
  }

  function Spaces(n: nat): (s: seq<byte>)
    ensures |s| == n && forall i :: 0 <= i < n ==> s[i] == SPACE
  {
    seq(n, i => SPACE)
  }

  /** The string without its trailing spaces. */
  function Trim(s: seq<byte>): (t: seq<byte>)
    ensures |t| <= |s| && t == s[..|t|] && (t != [] ==> t[|t| - 1] != SPACE)
    ensures forall i :: |t| <= i < |s| ==> s[i] == SPACE
  {
    if s != [] && s[|s| - 1] == SPACE then Trim(s[..|s| - 1]) else s
  }

  /** A C string: the bytes before the first NUL. */
  function CString(s: seq<byte>): (t: seq<byte>)
    ensures |t| <= |s| && t == s[..|t|] && 0 !in t && (|t| < |s| ==> s[|t|] == 0)
  {
    if s == [] || s[0] == 0 then [] else [s[0]] + CString(s[1..])
  }

  /** strcasecmp(a, b) == 0. */
  predicate SameIgnoringCase(a: seq<byte>, b: seq<byte>) {
    |a| == |b| && forall i :: 0 <= i < |a| ==> Lower(a[i]) == Lower(b[i])
  }

  // ------------------------------------------------------------------ level-1 encoding

  predicate Letter(c: byte) {
    LETTER_A <= c <= LETTER_P
  }

  function Joined(hi: byte, lo: byte): byte
    requires Letter(hi) && Letter(lo)
  {
    (hi - LETTER_A) * 16 + (lo - LETTER_A)
  }

  /** The two letters of a byte. */
  function Pair(b: byte): (p: seq<byte>)
    ensures |p| == 2 && Letter(p[0]) && Letter(p[1]) && Joined(p[0], p[1]) == b
  {
    [LETTER_A + b / 16, LETTER_A + b % 16]
  }

  function Level1(raw: seq<byte>): (e: seq<byte>)
    ensures |e| == 2 * |raw|
  {
    if raw == [] then []
    else Level1(raw[..|raw| - 1]) + Pair(raw[|raw| - 1])
  }

  predicate AllLetters(e: seq<byte>) {
    forall k :: 0 <= k < |e| ==> Letter(e[k])
  }

  function Unlevel1(e: seq<byte>): (raw: seq<byte>)
    requires AllLetters(e)
    ensures |raw| == |e| / 2
  {
    if |e| < 2 then []
    else Unlevel1(e[..|e| - 2]) + [Joined(e[|e| - 2], e[|e| - 1])]
  }

  /** What was encoded decodes to itself. */
  lemma {:induction false} DecodeOfEncode(raw: seq<byte>)
    ensures AllLetters(Level1(raw)) && Unlevel1(Level1(raw)) == raw
  {
    if raw != [] {
      var front, p := raw[..|raw| - 1], Pair(raw[|raw| - 1]);
      DecodeOfEncode(front);
      var e := Level1(front) + p;
      assert e[..|e| - 2] == Level1(front) && e[|e| - 2] == p[0] && e[|e| - 1] == p[1];
      assert raw == front + [raw[|raw| - 1]];
    }
  }

  lemma OnePair(hi: byte, lo: byte)
    requires Letter(hi) && Letter(lo)
    ensures Pair(Joined(hi, lo)) == [hi, lo]
  {
  }

  /** And what decodes was encoded: there is one encoding of a name. */
  lemma {:induction false} EncodeOfDecode(e: seq<byte>)
    requires AllLetters(e) && |e| % 2 == 0
    ensures Level1(Unlevel1(e)) == e
    decreases |e|
  {
    if |e| > 0 {
      var front, hi, lo := e[..|e| - 2], e[|e| - 2], e[|e| - 1];
      EncodeOfDecode(front);
      OnePair(hi, lo);
      var raw := Unlevel1(e);
      assert raw[..|raw| - 1] == Unlevel1(front);
      assert e == front + [hi, lo];
    }
  }

  // ------------------------------------------------------------------ the client's query

  datatype Result<+T> = Value(value: T) | ValueError | LookupError(code: nat) | StructError

  /** The name in upper case as ASCII bytes, if it has such a form; `upper` is str.upper. */
  function Normalized(name: Text, upper: Text -> Text): Option<seq<byte>> {
    var u := upper(name);
    if forall i :: 0 <= i < |u| ==> u[i] < 0x80 then Some(u) else None
  }

  /** What str.upper does to ASCII text. */
  ghost predicate KnowsAscii(upper: Text -> Text) {
    forall s: seq<ascii> :: upper(s) == UpperAll(s)
  }

  lemma AsciiNormalized(name: seq<ascii>, upper: Text -> Text)
    requires KnowsAscii(upper)
    ensures Normalized(name, upper) == Some(UpperAll(name))
  {
    assert upper(name) == UpperAll(name);
  }

  /** The 16 bytes of a normalized name with its service suffix. */
  function RawName(normal: seq<byte>, suffix: byte): (raw: seq<byte>)
    requires |normal| <= 15
    ensures |raw| == NAME_LEN
  {
    normal + Spaces(15 - |normal|) + [suffix]
  }

  function EncodedName(normal: seq<byte>, suffix: byte): (e: seq<byte>)
    requires |normal| <= 15
    ensures |e| == 34
  {
    [ENC_LEN] + Level1(RawName(normal, suffix)) + [0]
  }

  function QueryHeader(id: uint16): (h: seq<byte>)
    ensures |h| == 12
  {
    Be16(id) + Be16(QUERY_FLAGS) + [0, 1, 0, 0, 0, 0, 0, 0]
  }

  function QueryBytes(id: uint16, normal: seq<byte>, suffix: byte): (q: seq<byte>)
    requires |normal| <= 15
    ensures |q| == QUERY_LEN
  {
    QueryHeader(id) + EncodedName(normal, suffix) + (Be16(NB_TYPE) + Be16(IN_CLASS))
  }

  /** A name that fits, and a suffix that is a byte. */
  predicate Encodes(name: Text, suffix: int, upper: Text -> Text) {
    var n := Normalized(name, upper);
    n.Some? && |n.value| <= 15 && 0 <= suffix < 0x100
  }

  lemma Front(raw: seq<byte>, i: nat)
    requires i < |raw|
    ensures raw[..i + 1][..i] == raw[..i] && raw[..i + 1][i] == raw[i]
  {
  }

  method EncodeBytes(raw: seq<byte>) returns (encoded: seq<byte>)
    ensures encoded == Level1(raw)
  {
    encoded := [];
    for i := 0 to |raw|
      invariant encoded == Level1(raw[..i])
    {
      encoded := encoded + [LETTER_A + raw[i] / 16, LETTER_A + raw[i] % 16];
      Front(raw, i);
    }
    assert raw[..|raw|] == raw;
  }

  /** encode_netbios_name. Text without an ASCII form is refused by encode("ascii"), a suffix
      outside a byte by bytes([suffix]); both are ValueErrors. */
  method EncodeNetbiosName(name: Text, suffix: int, upper: Text -> Text) returns (r: Result<seq<byte>>)
    ensures r == if Encodes(name, suffix, upper) then Value(EncodedName(Normalized(name, upper).value, suffix))
                 else ValueError
  {
    var normalized := Normalized(name, upper);
    if normalized.None? || |normalized.value| > 15 || !(0 <= suffix < 0x100) {
      return ValueError;
    }
    var encoded := EncodeBytes(RawName(normalized.value, suffix));
    return Value([ENC_LEN] + encoded + [0]);
  }

  /** create_nbns_query. A transaction id that is no 16-bit number fails in struct.pack. */
  method CreateQuery(id: int, name: Text, suffix: int, upper: Text -> Text) returns (r: Result<seq<byte>>)
    ensures r == if !(0 <= id < TWO_16) then StructError
                 else if Encodes(name, suffix, upper) then Value(QueryBytes(id, Normalized(name, upper).value, suffix))
                 else ValueError
  {
    if !(0 <= id < TWO_16) {
      return StructError;
    }
    var header := QueryHeader(id);
    var encoded := EncodeNetbiosName(name, suffix, upper);
    if !encoded.Value? {
      return ValueError;
    }
    return Value(header + encoded.value + (Be16(NB_TYPE) + Be16(IN_CLASS)));
  }

  // ------------------------------------------------------------------ the responder

  /** netbios_name_decode: the name before the suffix byte, without padding. */
  function NameDecode(enc: seq<byte>): Option<seq<byte>>
    requires |enc| == 2 * NAME_LEN
  {
    if AllLetters(enc) then Some(Trim(Unlevel1(enc)[..15])) else None
  }

  lemma TrimIs(s: seq<byte>, n: nat)
    requires n <= |s| && (n > 0 ==> s[n - 1] != SPACE)
    requires forall k :: n <= k < |s| ==> s[k] == SPACE
    ensures Trim(s) == s[..n]
    decreases |s|
  {
  }

  /** The length of the name in raw[..15] without its padding. */
  method Strip(raw: array<byte>) returns (n: nat)
    requires raw.Length == NAME_LEN
    ensures n <= 15 && raw[..n] == Trim(raw[..15])
  {
    n := NAME_LEN - 1;
    while n > 0 && raw[n - 1] == SPACE
      invariant n <= 15 && forall k :: n <= k < 15 ==> raw[k] == SPACE
    {
      n := n - 1;
    }
    TrimIs(raw[..15], n);
  }

  lemma EndedByNul(out: seq<byte>, name: seq<byte>)
    requires |name| < |out| && (forall k :: 0 <= k < |name| ==> out[k] == name[k]) && out[|name|] == 0
    ensures CString(out) == CString(name)
  {
  }

  /** Copies the name and ends it. */
  method Terminate(out: array<byte>, name: seq<byte>)
    requires |name| < out.Length
    modifies out
    ensures CString(out[..]) == CString(name)
  {
    CopyTo(out, 0, name);
    out[|name|] := 0;
    EndedByNul(out[..], name);
  }

  lemma NextPair(front: seq<byte>, hi: byte, lo: byte)
    requires AllLetters(front) && Letter(hi) && Letter(lo)
    ensures AllLetters(front + [hi, lo]) && Unlevel1(front + [hi, lo]) == Unlevel1(front) + [Joined(hi, lo)]
  {
  }

  method DecodeBytes(enc: seq<byte>, raw: array<byte>) returns (ok: bool)
    requires |enc| == 2 * raw.Length
    modifies raw
    ensures ok <==> AllLetters(enc)
    ensures ok ==> raw[..] == Unlevel1(enc)
  {
    for i := 0 to raw.Length
      invariant AllLetters(enc[..2 * i]) && raw[..i] == Unlevel1(enc[..2 * i])
    {
      var hi, lo := enc[i * 2], enc[i * 2 + 1];
      if !Letter(hi) || !Letter(lo) {
        return false;
      }
      ghost var front := enc[..2 * i];
      assert enc[..2 * (i + 1)] == front + [hi, lo];
      NextPair(front, hi, lo);
      raw[i] := Joined(hi, lo);
      assert raw[..i + 1] == raw[..i] + [Joined(hi, lo)];
    }
    assert enc[..2 * raw.Length] == enc && raw[..raw.Length] == raw[..];
    return true;
  }

  method DecodeName(enc: seq<byte>, out: array<byte>) returns (ok: bool)
    requires |enc| == 2 * NAME_LEN && out.Length == NAME_LEN
    modifies out
    ensures ok <==> NameDecode(enc).Some?
    ensures ok ==> CString(out[..]) == CString(NameDecode(enc).value)
  {
    var raw := new byte[NAME_LEN];
    ok := DecodeBytes(enc, raw);
    if ok {
      var n := Strip(raw);
      Terminate(out, raw[..n]);
    }
  }

  function Opcode(flags: uint16): nat {
    flags / 0x800 % 0x10
  }

  predicate PlainQuery(flags: uint16) {
    flags < 0x8000 && Opcode(flags) == 0
  }

  /** A datagram the responder looks at more closely: a request, a name query, one question,
      a 32-byte label. */
  predicate IsNameQuery(req: seq<byte>) {
    && |req| >= QUERY_LEN
    && PlainQuery(U16(req[2], req[3]))
    && U16(req[4], req[5]) == 1 && req[12] == ENC_LEN
  }

  predicate AsksFor(req: seq<byte>, nbName: seq<byte>) {
    && IsNameQuery(req)
    && var d := NameDecode(req[13..45]);
       d.Some? && SameIgnoringCase(CString(d.value), nbName)
  }

  function ReplyHeader(id: seq<byte>): (h: seq<byte>)
    requires |id| == 2
    ensures |h| == 12
  {
    id + Be16(REPLY_FLAGS) + [0, 0, 0, 1, 0, 0, 0, 0]
  }

  /** Time to live, data length, name flags and the address. */
  function ReplyTail(ip: Ip): (t: seq<byte>)
    ensures |t| == 12
  {
    Be32(NAME_TTL) + Be16(6) + Be16(0) + ip
  }

  /** The answer: the header, the question's name, type and class as asked, and the address. */
  function Reply(req: seq<byte>, ip: Ip): (r: seq<byte>)
    requires |req| >= QUERY_LEN
    ensures |r| == REPLY_LEN
  {
    var h, q, t := ReplyHeader(req[..2]), req[12..50], ReplyTail(ip);
    h + q + t
  }

  function Handled(req: seq<byte>, nbName: seq<byte>, ip: Option<Ip>): Option<seq<byte>> {
    if AsksFor(req, nbName) && ip.Some? then Some(Reply(req, ip.value)) else None
  }

  method FillHeader(id: seq<byte>, resp: array<byte>)
    requires resp.Length == REPLY_LEN && |id| == 2
    requires forall k :: 0 <= k < REPLY_LEN ==> resp[k] == 0
    modifies resp
    ensures resp[..12] == ReplyHeader(id)
  {
    resp[0], resp[1] := id[0], id[1];
    resp[2], resp[3] := Be16(REPLY_FLAGS)[0], Be16(REPLY_FLAGS)[1];
    resp[7] := 1;
  }

  lemma FiveParts(a: seq<byte>, b: seq<byte>, c: seq<byte>, d: seq<byte>, e: seq<byte>)
    ensures a + b + c + d + e == a + (b + c + d + e)
  {
  }

  method FillTail(ip: Ip, resp: array<byte>)
    requires resp.Length == REPLY_LEN
    modifies resp
    ensures resp[..REPLY_LEN] == old(resp[..50]) + ReplyTail(ip)
  {
    ghost var front := resp[..50];
    AppendTo(resp, 50, Be32(NAME_TTL));
    AppendTo(resp, 54, Be16(6));
    AppendTo(resp, 56, Be16(0));
    AppendTo(resp, 58, ip);
    FiveParts(front, Be32(NAME_TTL), Be16(6), Be16(0), ip);
  }

  method FillReply(req: seq<byte>, ip: Ip, resp: array<byte>)
    requires resp.Length == REPLY_LEN && |req| >= QUERY_LEN
    modifies resp
    ensures resp[..] == Reply(req, ip)
  {
    forall k | 0 <= k < REPLY_LEN {
      resp[k] := 0;
    }
    FillHeader(req[..2], resp);
    AppendTo(resp, 12, req[12..50]);
    FillTail(ip, resp);
    assert resp[..] == resp[..REPLY_LEN];
  }

  /** netbios_handle: the length of the reply in `resp`, or 0. */
  method Handle(req: seq<byte>, nbName: seq<byte>, ip: Option<Ip>, resp: array<byte>) returns (n: nat)
    requires resp.Length == REPLY_LEN
    modifies resp
    ensures n == if Handled(req, nbName, ip).Some? then REPLY_LEN else 0
    ensures resp[..] == if n > 0 then Handled(req, nbName, ip).value else old(resp[..])
  {
    if |req| < QUERY_LEN {
      return 0;
    }
    var flags := U16(req[2], req[3]);
    if flags >= 0x8000 || Opcode(flags) != 0 || U16(req[4], req[5]) != 1 || req[12] != ENC_LEN {
      return 0;
    }
    var asked := new byte[NAME_LEN];
    var ok := DecodeName(req[13..45], asked);
    if !ok || !SameIgnoringCase(CString(asked[..]), nbName) || ip.None? {
      return 0;
    }
    FillReply(req, ip.value, resp);
    return REPLY_LEN;
  }

  // ------------------------------------------------------------------ the client's parser

  datatype NbnsResult = NbnsResult(ip: Ip, flags: uint16)

  /** The address entries of six bytes each; a shorter rest is ignored. */
  function Entries(rdata: seq<byte>): seq<NbnsResult> {
    if |rdata| < 6 then [] else [NbnsResult(rdata[2..6], U16(rdata[0], rdata[1]))] + Entries(rdata[6..])
  }

  datatype Answer = Answer(found: seq<NbnsResult>, next: nat)

  function ReadAnswer(p: seq<byte>, off: nat): Option<Answer> {
    var at := Skip(p, off);
    if at < 0 || at + 10 > |p| then None
    else
      var size := U16(p[at + 8], p[at + 9]);
      if at + 10 + size > |p| then None
      else if U16(p[at], p[at + 1]) == NB_TYPE && U16(p[at + 2], p[at + 3]) == IN_CLASS
      then Some(Answer(Entries(p[at + 10..at + 10 + size]), at + 10 + size))
      else Some(Answer([], at + 10 + size))
  }

  function Behind(found: seq<NbnsResult>, others: Option<seq<NbnsResult>>): Option<seq<NbnsResult>> {
    if others.Some? then Some(found + others.value) else None
  }

  function ReadAnswers(p: seq<byte>, off: nat, k: nat): Option<seq<NbnsResult>>
    decreases k
  {
    if k == 0 then Some([])
    else match ReadAnswer(p, off)
      case None => None
      case Some(a) => Behind(a.found, ReadAnswers(p, a.next, k - 1))
  }

  lemma BehindBehind(a: seq<NbnsResult>, b: seq<NbnsResult>, c: Option<seq<NbnsResult>>)
    ensures Behind(a, Behind(b, c)) == Behind(a + b, c) && Behind([], c) == c
  {
    if c.Some? {
      assert a + (b + c.value) == a + b + c.value && [] + c.value == c.value;
    }
  }

  /** The header checks of parse_nbns_response, in its order. */
  function Refusal(p: seq<byte>, expected: int): Option<Result<seq<NbnsResult>>> {
    if |p| < 12 || U16(p[0], p[1]) != expected || p[2] < 0x80 then Some(ValueError)
    else if p[3] % 0x10 != 0 then Some(LookupError(p[3] % 0x10))
    else None
  }

  function ParseReply(p: seq<byte>, expected: int): Result<seq<NbnsResult>> {
    if Refusal(p, expected).Some? then Refusal(p, expected).value
    else
      var off := SkipQuestions(p, 12, U16(p[4], p[5]));
      if off < 0 then ValueError
      else match ReadAnswers(p, off, U16(p[6], p[7]))
        case None => ValueError
        case Some(rs) => Value(rs)
  }

  /** skip_dns_name: -1 stands for its exceptions. */
  method SkipDnsName(packet: seq<byte>, start: nat) returns (r: int)
    ensures r == Skip(packet, start)
  {
    var offset := start;
    while true
      invariant offset >= start && Skip(packet, start) == Skip(packet, offset)
      decreases |packet| - offset
    {
      if offset >= |packet| {
        return -1;
      }
      var length := packet[offset];
      if length >= 0xC0 {
        return if offset + 1 >= |packet| then -1 else offset + 2;
      }
      offset := offset + 1;
      if length == 0 {
        return offset;
      }
      offset := offset + length;
      if offset > |packet| {
        return -1;
      }
    }
  }

  method ReadEntries(rdata: seq<byte>) returns (found: seq<NbnsResult>)
    ensures found == Entries(rdata)
  {
    found := [];
    var at := 0;
    while at + 6 <= |rdata|
      invariant at <= |rdata| && found + Entries(rdata[at..]) == Entries(rdata)
    {
      ghost var left := rdata[at..];
      var one := NbnsResult(rdata[at + 2..at + 6], U16(rdata[at], rdata[at + 1]));
      assert left[2..6] == one.ip && left[6..] == rdata[at + 6..];
      assert found + Entries(left) == (found + [one]) + Entries(left[6..]);
      found := found + [one];
      at := at + 6;
    }
    assert Entries(rdata[at..]) == [];
  }

  method ReadOneAnswer(p: seq<byte>, start: nat) returns (a: Option<Answer>)
    ensures a == ReadAnswer(p, start)
  {
    var offset := SkipDnsName(p, start);
    if offset < 0 || offset + 10 > |p| {
      return None;
    }
    var kind, class_ := U16(p[offset], p[offset + 1]), U16(p[offset + 2], p[offset + 3]);
    var size := U16(p[offset + 8], p[offset + 9]);
    offset := offset + 10;
    if offset + size > |p| {
      return None;
    }
    var rdata := p[offset..offset + size];
    offset := offset + size;
    if kind != NB_TYPE || class_ != IN_CLASS {
      return Some(Answer([], offset));
    }
    var found := ReadEntries(rdata);
    return Some(Answer(found, offset));
  }

  method ReadAllAnswers(p: seq<byte>, start: nat, answers: nat) returns (r: Option<seq<NbnsResult>>)
    ensures r == ReadAnswers(p, start, answers)
  {
    var offset := start;
    var results: seq<NbnsResult> := [];
    BehindBehind([], [], ReadAnswers(p, offset, answers));
    for i := 0 to answers
      invariant ReadAnswers(p, start, answers) == Behind(results, ReadAnswers(p, offset, answers - i))
    {
      var a := ReadOneAnswer(p, offset);
      if a.None? {
        return None;
      }
      BehindBehind(results, a.value.found, ReadAnswers(p, a.value.next, answers - i - 1));
      results := results + a.value.found;
      offset := a.value.next;
    }
    assert results + [] == results;
    return Some(results);
  }

  /** parse_nbns_response. */
  method ParseNbnsResponse(p: seq<byte>, expected: int) returns (r: Result<seq<NbnsResult>>)
    ensures r == ParseReply(p, expected)
  {
    if |p| < 12 || U16(p[0], p[1]) != expected || p[2] < 0x80 {
      return ValueError;
    }
    if p[3] % 0x10 != 0 {
      return LookupError(p[3] % 0x10);
    }
    var offset := 12;
    var questions, answers := U16(p[4], p[5]), U16(p[6], p[7]);
    for i := 0 to questions
      invariant 0 <= offset <= |p| && SkipQuestions(p, 12, questions) == SkipQuestions(p, offset, questions - i)
    {
      offset := SkipDnsName(p, offset);
      if offset < 0 || offset + 4 > |p| {
        return ValueError;
      }
      offset := offset + 4;
    }
    var found := ReadAllAnswers(p, offset, answers);
    return if found.Some? then Value(found.value) else ValueError;
  }

  // ------------------------------------------------------------------ the round trip

  /** The name the responder hears: trailing spaces are padding, and a NUL ends it. */
  function Heard(name: seq<byte>): seq<byte> {
    CString(Trim(name))
  }

  lemma HeardIff(name: seq<byte>)
    ensures Heard(name) == name <==> 0 !in name && (name != [] ==> name[|name| - 1] != SPACE)
  {
  }

  lemma TrimPadded(name: seq<byte>, n: nat)
    ensures Trim(name + Spaces(n)) == Trim(name)
  {
    TrimIs(name + Spaces(n), |Trim(name)|);
  }

  lemma TrimOfUpper(name: seq<byte>)
    ensures Trim(UpperAll(name)) == UpperAll(Trim(name))
  {
    TrimIs(UpperAll(name), |Trim(name)|);
  }

  lemma CStringOfUpper(t: seq<byte>)
    ensures CString(UpperAll(t)) == UpperAll(CString(t))
  {
  }

  lemma SameOfUpper(a: seq<byte>, b: seq<byte>)
    ensures SameIgnoringCase(UpperAll(a), b) <==> SameIgnoringCase(a, b)
  {
  }

  /** Upper case does not change which names are heard as the same. */
  lemma HeardOfUpper(name: seq<byte>, b: seq<byte>)
    ensures SameIgnoringCase(Heard(UpperAll(name)), b) <==> SameIgnoringCase(Heard(name), b)
  {
    TrimOfUpper(name);
    CStringOfUpper(Trim(name));
    SameOfUpper(Heard(name), b);
  }

  lemma DecodedName(normal: seq<byte>, suffix: byte)
    requires |normal| <= 15
    ensures NameDecode(Level1(RawName(normal, suffix))) == Some(Trim(normal))
  {
    var raw := RawName(normal, suffix);
    DecodeOfEncode(raw);
    assert raw[..15] == normal + Spaces(15 - |normal|);
    TrimPadded(normal, 15 - |normal|);
  }

  lemma QueryParts(id: uint16, normal: seq<byte>, suffix: byte, q: seq<byte>)
    requires |normal| <= 15 && q == QueryBytes(id, normal, suffix)
    ensures q[..12] == QueryHeader(id) && q[12] == ENC_LEN && q[13..45] == Level1(RawName(normal, suffix))
    ensures q[45] == 0 && q[46..50] == Be16(NB_TYPE) + Be16(IN_CLASS)
  {
  }

  lemma HeaderOfQuery(id: uint16, q: seq<byte>)
    requires |q| >= 12 && q[..12] == QueryHeader(id)
    ensures U16(q[0], q[1]) == id && U16(q[2], q[3]) == QUERY_FLAGS && U16(q[4], q[5]) == 1
  {
  }

  /** Every query the client builds is a name query, and the responder hears its name. */
  lemma QueryHeard(id: uint16, normal: seq<byte>, suffix: byte, nbName: seq<byte>, q: seq<byte>)
    requires |normal| <= 15 && q == QueryBytes(id, normal, suffix)
    ensures AsksFor(q, nbName) <==> SameIgnoringCase(Heard(normal), nbName)
  {
    QueryParts(id, normal, suffix, q);
    HeaderOfQuery(id, q);
    assert IsNameQuery(q);
    DecodedName(normal, suffix);
  }

  /** A reply without questions and with one answer. */
  lemma ParseOne(p: seq<byte>, expected: int, found: seq<NbnsResult>)
    requires |p| >= 12 && p[2] >= 0x80 && p[3] == 0 && U16(p[4], p[5]) == 0 && U16(p[6], p[7]) == 1
    requires ReadAnswers(p, 12, 1) == Some(found)
    ensures ParseReply(p, expected) == if expected == U16(p[0], p[1]) then Value(found) else ValueError
  {
  }

  lemma Small(hi: byte, lo: byte)
    requires hi == 0
    ensures U16(hi, lo) == lo
  {
  }

  lemma InFront(h: seq<byte>, q: seq<byte>, t: seq<byte>, p: seq<byte>)
    requires |h| == 12 && p == h + q + t
    ensures p[0] == h[0] && p[1] == h[1] && p[2] == h[2] && p[3] == h[3]
    ensures p[4] == h[4] && p[5] == h[5] && p[6] == h[6] && p[7] == h[7]
  {
  }

  lemma ReplyHeaderIs(id: seq<byte>, h: seq<byte>)
    requires |id| == 2 && h == ReplyHeader(id)
    ensures h[0] == id[0] && h[1] == id[1] && h[2] == 0x85 && h[3] == 0
    ensures h[4] == 0 && h[5] == 0 && h[6] == 0 && h[7] == 1
  {
  }

  lemma ReplyHeaderRead(id: seq<byte>, q: seq<byte>, t: seq<byte>, p: seq<byte>)
    requires |id| == 2 && p == ReplyHeader(id) + q + t
    ensures p[0] == id[0] && p[1] == id[1] && p[2] == 0x85 && p[3] == 0
    ensures U16(p[4], p[5]) == 0 && U16(p[6], p[7]) == 1
  {
    var h := ReplyHeader(id);
    ReplyHeaderIs(id, h);
    InFront(h, q, t, p);
    Small(p[4], p[5]);
    Small(p[6], p[7]);
  }

  lemma SkipFixed(p: seq<byte>)
    requires |p| == REPLY_LEN && p[12] == ENC_LEN && p[45] == 0
    ensures Skip(p, 12) == 46
  {
  }

  lemma OneEntry(rdata: seq<byte>, ip: Ip)
    requires |rdata| == 6 && rdata[0] == 0 && rdata[1] == 0 && rdata[2..] == ip
    ensures Entries(rdata) == [NbnsResult(ip, 0)]
  {
    assert rdata[2..6] == ip && rdata[6..] == [];
    assert Entries([]) == [];
  }

  lemma ReplyAnswerRead(req: seq<byte>, ip: Ip, p: seq<byte>)
    requires |req| >= QUERY_LEN && req[12] == ENC_LEN && req[45] == 0 && p == Reply(req, ip)
    requires req[46..50] == Be16(NB_TYPE) + Be16(IN_CLASS)
    ensures ReadAnswer(p, 12) == Some(Answer([NbnsResult(ip, 0)], REPLY_LEN))
  {
    var q, t := req[12..50], ReplyTail(ip);
    assert forall k :: 12 <= k < 50 ==> p[k] == req[k];
    assert forall k :: 50 <= k < REPLY_LEN ==> p[k] == t[k - 50];
    SkipFixed(p);
    var f := req[46..50];
    assert p[46] == f[0] && p[47] == f[1] && p[48] == f[2] && p[49] == f[3];
    assert U16(p[46], p[47]) == NB_TYPE && U16(p[48], p[49]) == IN_CLASS;
    assert p[54] == 0 && p[55] == 6;
    OneEntry(p[56..62], ip);
  }

  lemma AnswersOfOne(p: seq<byte>, one: NbnsResult)
    requires ReadAnswer(p, 12).Some? && ReadAnswer(p, 12).value.found == [one]
    ensures ReadAnswers(p, 12, 1) == Some([one])
  {
    var next := ReadAnswer(p, 12).value.next;
    assert ReadAnswers(p, next, 0) == Some([]);
    assert [one] + [] == [one];
  }

  /** A reply to a question about a root-terminated name of type NB and class IN parses to
      the one address in it. */
  lemma ReplyParses(req: seq<byte>, ip: Ip, expected: int, p: seq<byte>)
    requires |req| >= QUERY_LEN && req[12] == ENC_LEN && req[45] == 0
    requires req[46..50] == Be16(NB_TYPE) + Be16(IN_CLASS) && p == Reply(req, ip)
    ensures ParseReply(p, expected) == if expected == U16(req[0], req[1]) then Value([NbnsResult(ip, 0)]) else ValueError
  {
    ReplyHeaderRead(req[..2], req[12..50], ReplyTail(ip), p);
    ReplyAnswerRead(req, ip, p);
    AnswersOfOne(p, NbnsResult(ip, 0));
    ParseOne(p, expected, [NbnsResult(ip, 0)]);
  }

  /** From a query the client built to its result: the responder answers exactly when it hears
      its own name, in any case, and has an address; the client then reads that one address,
      and refuses the reply under any other transaction id. */
  lemma QueryRoundTrip(id: uint16, normal: seq<byte>, suffix: byte, nbName: seq<byte>, ip: Option<Ip>, expected: int)
    requires |normal| <= 15
    ensures var answer := Handled(QueryBytes(id, normal, suffix), nbName, ip);
            && (answer.Some? <==> SameIgnoringCase(Heard(normal), nbName) && ip.Some?)
            && (answer.Some? ==> ParseReply(answer.value, expected) ==
                                 if expected == id then Value([NbnsResult(ip.value, 0)]) else ValueError)
  {
    var q := QueryBytes(id, normal, suffix);
    QueryHeard(id, normal, suffix, nbName, q);
    if AsksFor(q, nbName) && ip.Some? {
      QueryParts(id, normal, suffix, q);
      HeaderOfQuery(id, q);
      ReplyParses(q, ip.value, expected, Reply(q, ip.value));
    }
  }

  /** The round trip of a name as it was typed. */
  lemma RoundTrip(id: uint16, name: seq<ascii>, suffix: byte, upper: Text -> Text, nbName: seq<byte>, ip: Option<Ip>,
                  expected: int)
    requires |name| <= 15 && KnowsAscii(upper)
    ensures Encodes(name, suffix, upper)
    ensures var answer := Handled(QueryBytes(id, Normalized(name, upper).value, suffix), nbName, ip);
            && (answer.Some? <==> SameIgnoringCase(Heard(name), nbName) && ip.Some?)
            && (answer.Some? ==> ParseReply(answer.value, expected) ==
                                 if expected == id then Value([NbnsResult(ip.value, 0)]) else ValueError)
  {
    AsciiNormalized(name, upper);
    QueryRoundTrip(id, UpperAll(name), suffix, nbName, ip, expected);
    HeardOfUpper(name, nbName);
  }

  // ------------------------------------------------------------------ byte by byte

  lemma {:induction false} LettersOf(raw: seq<byte>, i: nat)
    requires i < |raw|
    ensures |Level1(raw)| == 2 * |raw|
    ensures Level1(raw)[2 * i] == 65 + raw[i] / 16 && Level1(raw)[2 * i + 1] == 65 + raw[i] % 16
  {
    var n := |raw| - 1;
    if i < n {
      LettersOf(raw[..n], i);
    }
  }

  /** The query as section 4.2.12 of RFC 1002 lays it out: recursion desired, one question, a
      32-letter label with the high nibble of every byte first, the name padded with spaces, the
      suffix as its sixteenth byte, type NB and class IN. */
  lemma QueryByteByByte(id: uint16, normal: seq<byte>, suffix: byte, i: nat)
    requires |normal| <= 15 && i < 16
    ensures var q := QueryBytes(id, normal, suffix);
            var c := if i < |normal| then normal[i] else if i < 15 then 32 else suffix;
            && |q| == 50 && U16(q[0], q[1]) == id && q[2..12] == [1, 0, 0, 1, 0, 0, 0, 0, 0, 0]
            && q[12] == 32 && q[13 + 2 * i] == 65 + c / 16 && q[14 + 2 * i] == 65 + c % 16
            && q[45..50] == [0, 0, 0x20, 0, 1]
  {
    var q, raw := QueryBytes(id, normal, suffix), RawName(normal, suffix);
    QueryParts(id, normal, suffix, q);
    HeaderOfQuery(id, q);
    LettersOf(raw, i);
    assert q[13 + 2 * i] == q[13..45][2 * i] && q[14 + 2 * i] == q[13..45][2 * i + 1];
    assert q[2..12] == q[..12][2..] == QueryHeader(id)[2..] == [1, 0, 0, 1, 0, 0, 0, 0, 0, 0];
    assert q[45..50] == [q[45]] + q[46..50];
  }

  /** What the responder reads of such a name is the name and, behind it, the suffix. */
  lemma SuffixReadBack(id: uint16, normal: seq<byte>, suffix: byte)
    requires |normal| <= 15
    ensures var enc := QueryBytes(id, normal, suffix)[13..45];
            AllLetters(enc) && |Unlevel1(enc)| == 16 && Unlevel1(enc)[..|normal|] == normal && Unlevel1(enc)[15] == suffix
  {
    QueryParts(id, normal, suffix, QueryBytes(id, normal, suffix));
    DecodeOfEncode(RawName(normal, suffix));
  }

  lemma ReplyHeaderBytes(id: seq<byte>)
    requires |id| == 2
    ensures ReplyHeader(id)[..2] == id && ReplyHeader(id)[2..] == [0x85, 0, 0, 0, 0, 1, 0, 0, 0, 0]
  {
    assert Be16(REPLY_FLAGS) == [0x85, 0];
  }

  lemma ReplyTailBytes(ip: Ip)
    ensures ReplyTail(ip)[..8] == [0, 0, 0, 10, 0, 6, 0, 0] && ReplyTail(ip)[8..] == ip
  {
    assert Be16(6) == [0, 6] && Be16(0) == [0, 0] && Be16(10) == [0, 10];
    assert Be32(NAME_TTL) == [0, 0, 0, 10];
  }

  lemma HeadBodyTail(h: seq<byte>, q: seq<byte>, t: seq<byte>)
    requires |h| == 12 && |q| == 38 && |t| == 12
    ensures var r := h + q + t;
            && |r| == 62 && r[..2] == h[..2] && r[2..12] == h[2..] && r[12..50] == q
            && r[50..58] == t[..8] && r[58..] == t[8..]
  {
  }

  /** The reply as section 4.2.13 of RFC 1002 lays it out: the id of the request, an authoritative
      response without error, no question and one answer, name, type and class as asked, ten
      seconds to live, and six bytes of data: a unique name of a B node, and the address. */
  lemma ReplyByteByByte(req: seq<byte>, ip: Ip, r: seq<byte>)
    requires |req| >= 50 && r == Reply(req, ip)
    ensures |r| == 62 && r[..2] == req[..2] && r[2..12] == [0x85, 0, 0, 0, 0, 1, 0, 0, 0, 0]
    ensures r[12..50] == req[12..50] && r[50..58] == [0, 0, 0, 10, 0, 6, 0, 0] && r[58..] == ip
  {
    ReplyHeaderBytes(req[..2]);
    ReplyTailBytes(ip);
    HeadBodyTail(ReplyHeader(req[..2]), req[12..50], ReplyTail(ip));
  }

  lemma PlainQueryIff(hi: byte, lo: byte)
    ensures PlainQuery(U16(hi, lo)) <==> hi < 8
  {
  }

  lemma IsOneIff(hi: byte, lo: byte)
    ensures U16(hi, lo) == 1 <==> hi == 0 && lo == 1
  {
  }

  lemma NameQueryIff(req: seq<byte>)
    ensures IsNameQuery(req) <==> |req| >= 50 && req[2] < 8 && req[4] == 0 && req[5] == 1 && req[12] == 32
  {
    if |req| >= 50 {
      PlainQueryIff(req[2], req[3]);
      IsOneIff(req[4], req[5]);
    }
  }

  lemma LettersIff(req: seq<byte>)
    requires |req| >= 50
    ensures AllLetters(req[13..45]) <==> forall k :: 13 <= k < 45 ==> 65 <= req[k] <= 80
  {
    var enc := req[13..45];
    assert forall k :: 13 <= k < 45 ==> req[k] == enc[k - 13];
  }

  /** The fifteen bytes of the name in a datagram whose label is all letters. */
  function NameBytes(req: seq<byte>): seq<byte> {
    if |req| >= 50 && AllLetters(req[13..45]) then Unlevel1(req[13..45])[..15] else []
  }

  lemma AsksForIff(req: seq<byte>, nbName: seq<byte>)
    requires IsNameQuery(req)
    ensures AsksFor(req, nbName) <==> AllLetters(req[13..45]) && SameIgnoringCase(Heard(NameBytes(req)), nbName)
  {
  }

  /** Which datagrams are answered, bit by bit: requests (top bit clear) that are name queries
      (operation code 0), with one question whose label is 32 letters from A to P that spell
      this name, as long as there is an address to answer with. */
  lemma AnsweredIff(req: seq<byte>, nbName: seq<byte>, ip: Option<Ip>)
    ensures Handled(req, nbName, ip).Some? <==>
            && |req| >= 50 && req[2] < 8 && req[4] == 0 && req[5] == 1 && req[12] == 32
            && (forall k :: 13 <= k < 45 ==> 65 <= req[k] <= 80)
            && SameIgnoringCase(Heard(NameBytes(req)), nbName) && ip.Some?
  {
    NameQueryIff(req);
    if IsNameQuery(req) {
      LettersIff(req);
      AsksForIff(req, nbName);
    }
  }
}
