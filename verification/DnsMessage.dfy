/** dns_parse of port/backend/src/wsm_dhcp.c against messages built as RFC 1035 section 4.1
    describes them. */
module DnsMessage {
  import opened Bytes
  import opened Dns

  datatype Question = Question(name: Name, qtype: uint16, qclass: uint16)

  datatype AnyRecord = AnyRecord(name: Name, rtype: uint16, class_: uint16, ttl: uint32, rdata: seq<byte>)
  type Record = r: AnyRecord | |r.rdata| < TWO_16 witness AnyRecord(AnyName([], Root), 0, 0, 0, [])

  function QuestionBytes(q: Question): seq<byte> {
    NameBytes(q.name) + (Be16(q.qtype) + Be16(q.qclass))
  }

  /** Type, class, time to live and data length. */
  function FixedBytes(r: Record): (f: seq<byte>)
    ensures |f| == 10
  {
    Be16(r.rtype) + Be16(r.class_) + Be32(r.ttl) + Be16(|r.rdata|)
  }

  function RecordBytes(r: Record): seq<byte> {
    NameBytes(r.name) + (FixedBytes(r) + r.rdata)
  }

  function QuestionsBytes(qs: seq<Question>): seq<byte> {
    if qs == [] then [] else QuestionBytes(qs[0]) + QuestionsBytes(qs[1..])
  }

  function RecordsBytes(rs: seq<Record>): seq<byte> {
    if rs == [] then [] else RecordBytes(rs[0]) + RecordsBytes(rs[1..])
  }

  /** id, the two flag bytes, and the four section counts. */
  function HeaderBytes(id: uint16, f0: byte, f1: byte, qd: uint16, an: uint16, ns: uint16, ar: uint16): (h: seq<byte>)
    ensures |h| == HEADER_LEN
  {
    Be16(id) + [f0, f1] + Be16(qd) + Be16(an) + Be16(ns) + Be16(ar)
  }

  /** Type A (1), class IN (1), and four bytes of data. */
  predicate HoldsAddress(r: Record) {
    r.rtype == 1 && r.class_ == 1 && |r.rdata| == 4
  }

  /** The address of the first A/IN record with four bytes of data. */
  function FirstA(rs: seq<Record>): Option<Ip> {
    if rs == [] then None
    else if HoldsAddress(rs[0]) then Some(rs[0].rdata)
    else FirstA(rs[1..])
  }

  // ------------------------------------------------------------------ the parser

  /** The offset behind k questions at `off`, or -1. */
  function SkipQuestions(p: seq<byte>, off: nat, k: nat): (r: int)
    requires off <= |p|
    ensures r == -1 || 0 <= r <= |p|
    decreases k
  {
    if k == 0 then off
    else
      var next := Skip(p, off);
      if next < 0 || next + 4 > |p| then -1 else SkipQuestions(p, next + 4, k - 1)
  }

  /** What the parser makes of the record at `off`. */
  datatype Seen = CutShort | Address(ip: Ip) | Other(next: nat)

  function SeeRecord(p: seq<byte>, off: nat): (s: Seen)
    ensures s.Other? ==> s.next <= |p|
  {
    var at := Skip(p, off);
    if at < 0 || at + 10 > |p| then CutShort
    else
      var rdlen := U16(p[at + 8], p[at + 9]);
      if at + 10 + rdlen > |p| then CutShort
      else if U16(p[at], p[at + 1]) == TYPE_A && U16(p[at + 2], p[at + 3]) == CLASS_IN && rdlen == 4
      then Address([p[at + 10], p[at + 11], p[at + 12], p[at + 13]])
      else Other(at + 10 + rdlen)
  }

  /** The first usable address among k records at `off`. */
  function FindA(p: seq<byte>, off: nat, k: nat): Option<Ip>
    decreases k
  {
    if k == 0 then None
    else match SeeRecord(p, off)
      case CutShort => None
      case Address(ip) => Some(ip)
      case Other(next) => FindA(p, next, k - 1)
  }

  /** A response to our query that reports no error. */
  predicate Answers(p: seq<byte>, id: uint16) {
    |p| >= HEADER_LEN && U16(p[0], p[1]) == id && p[2] >= 0x80 && p[3] % 0x10 == 0
  }

  function ParseResponse(p: seq<byte>, id: uint16): Option<Ip> {
    if !Answers(p, id) then None
    else
      var off := SkipQuestions(p, HEADER_LEN, U16(p[4], p[5]));
      if off < 0 then None else FindA(p, off, U16(p[6], p[7]))
  }

  method SkipNameAt(p: seq<byte>, start: nat) returns (r: int)
    ensures r == Skip(p, start)
  {
    var off := start;
    while off < |p|
      invariant off >= start && Skip(p, start) == Skip(p, off)
      decreases |p| - off
    {
      var l := p[off];
      if l == 0 {
        return off + 1;
      }
      if l >= 0xC0 {
        return if off + 2 <= |p| then off + 2 else -1;
      }
      off := off + 1 + l;
    }
    return -1;
  }

  method SkipQuestionsAt(p: seq<byte>, start: nat, k: nat) returns (r: int)
    requires start <= |p|
    ensures r == SkipQuestions(p, start, k)
  {
    r := start;
    for q := 0 to k
      invariant 0 <= r <= |p| && SkipQuestions(p, start, k) == SkipQuestions(p, r, k - q)
    {
      r := SkipNameAt(p, r);
      if r < 0 || r + 4 > |p| {
        return -1;
      }
      r := r + 4;
    }
  }

  method FindAddress(p: seq<byte>, start: nat, k: nat, out: array<byte>) returns (ok: bool)
    requires start <= |p| && out.Length == 4
    modifies out
    ensures ok <==> FindA(p, start, k).Some?
    ensures out[..] == if ok then FindA(p, start, k).value else old(out[..])
  {
    var off: int := start;
    for a := 0 to k
      invariant 0 <= off <= |p| && out[..] == old(out[..])
      invariant FindA(p, start, k) == FindA(p, off, k - a)
    {
      ghost var seen := SeeRecord(p, off);
      off := SkipNameAt(p, off);
      if off < 0 || off + 10 > |p| {
        return false;
      }
      var rtype, class_, rdlen := U16(p[off], p[off + 1]), U16(p[off + 2], p[off + 3]), U16(p[off + 8], p[off + 9]);
      off := off + 10;
      if off + rdlen > |p| {
        return false;
      }
      if rtype == TYPE_A && class_ == CLASS_IN && rdlen == 4 {
        out[0], out[1], out[2], out[3] := p[off], p[off + 1], p[off + 2], p[off + 3];
        assert out[..] == seen.ip;
        return true;
      }
      off := off + rdlen;
      assert seen == Other(off);
    }
    return false;
  }

  /** dns_parse, on any bytes: every read is inside the packet, and `out` is written only
      with an address. */
  method Parse(p: seq<byte>, id: uint16, out: array<byte>) returns (ok: bool)
    requires out.Length == 4
    modifies out
    ensures ok <==> ParseResponse(p, id).Some?
    ensures out[..] == if ok then ParseResponse(p, id).value else old(out[..])
  {
    if !Answers(p, id) {
      return false;
    }
    var off := SkipQuestionsAt(p, HEADER_LEN, U16(p[4], p[5]));
    if off < 0 {
      return false;
    }
    ok := FindAddress(p, off, U16(p[6], p[7]), out);
  }

  // ------------------------------------------------------------------ parse of serialize

  lemma OneQuestion(p: seq<byte>, off: nat, q: Question, behind: seq<byte>, next: nat)
    requires Carries(p, off, QuestionBytes(q) + behind) && next == off + |QuestionBytes(q)|
    ensures Skip(p, off) + 4 == next <= |p| && Carries(p, next, behind)
  {
    CarriesParts(p, off, QuestionBytes(q), behind);
    CarriesParts(p, off, NameBytes(q.name), Be16(q.qtype) + Be16(q.qclass));
    SkipName(p, off, q.name);
  }

  lemma {:induction false} QuestionsSkipped(p: seq<byte>, off: nat, qs: seq<Question>)
    requires Carries(p, off, QuestionsBytes(qs))
    ensures SkipQuestions(p, off, |qs|) == off + |QuestionsBytes(qs)|
    decreases |qs|
  {
    if qs != [] {
      var next := off + |QuestionBytes(qs[0])|;
      OneQuestion(p, off, qs[0], QuestionsBytes(qs[1..]), next);
      QuestionsSkipped(p, next, qs[1..]);
    }
  }

  /** What the parser reads in the ten fixed bytes of a record. */
  lemma FixedRead(p: seq<byte>, at: nat, r: Record)
    requires Carries(p, at, FixedBytes(r))
    ensures U16(p[at], p[at + 1]) == r.rtype && U16(p[at + 2], p[at + 3]) == r.class_
    ensures U16(p[at + 8], p[at + 9]) == |r.rdata|
  {
  }

  /** Where the parts of a record stand. */
  lemma RecordParts(p: seq<byte>, off: nat, r: Record, behind: seq<byte>, at: nat)
    requires Carries(p, off, RecordBytes(r) + behind) && at == off + |NameBytes(r.name)|
    ensures Skip(p, off) == at && at + 10 + |r.rdata| == off + |RecordBytes(r)|
    ensures Carries(p, at, FixedBytes(r)) && Carries(p, at + 10, r.rdata) && Carries(p, at + 10 + |r.rdata|, behind)
  {
    CarriesParts(p, off, RecordBytes(r), behind);
    CarriesParts(p, off, NameBytes(r.name), FixedBytes(r) + r.rdata);
    CarriesParts(p, at, FixedBytes(r), r.rdata);
    SkipName(p, off, r.name);
  }

  lemma FourBytes(p: seq<byte>, at: nat, ip: Ip)
    requires Carries(p, at, ip)
    ensures [p[at], p[at + 1], p[at + 2], p[at + 3]] == ip
  {
  }

  /** What the parser is to make of a record that ends at `next`. */
  function Expected(r: Record, next: nat): Seen {
    if HoldsAddress(r) then Address(r.rdata) else Other(next)
  }

  lemma SeenAt(p: seq<byte>, off: nat, at: nat, r: Record)
    requires Skip(p, off) == at && Carries(p, at, FixedBytes(r)) && Carries(p, at + 10, r.rdata)
    ensures SeeRecord(p, off) == Expected(r, at + 10 + |r.rdata|)
  {
    FixedRead(p, at, r);
    if HoldsAddress(r) {
      FourBytes(p, at + 10, r.rdata);
    }
  }

  /** The parser at a record: its address when it holds one, else on to the next record. */
  lemma OneRecord(p: seq<byte>, off: nat, r: Record, behind: seq<byte>, next: nat)
    requires Carries(p, off, RecordBytes(r) + behind) && next == off + |RecordBytes(r)|
    ensures next <= |p| && Carries(p, next, behind)
    ensures SeeRecord(p, off) == Expected(r, next)
  {
    var at := Skip(p, off);
    RecordParts(p, off, r, behind, off + |NameBytes(r.name)|);
    SeenAt(p, off, at, r);
  }

  lemma FirstRecord(p: seq<byte>, off: nat, rs: seq<Record>) returns (next: nat)
    requires rs != [] && Carries(p, off, RecordsBytes(rs))
    ensures SeeRecord(p, off) == Expected(rs[0], next) && Carries(p, next, RecordsBytes(rs[1..]))
  {
    next := off + |RecordBytes(rs[0])|;
    OneRecord(p, off, rs[0], RecordsBytes(rs[1..]), next);
  }

  lemma SearchStep(p: seq<byte>, off: nat, k: nat, r: Record, next: nat, behind: Option<Ip>)
    requires SeeRecord(p, off) == Expected(r, next) && FindA(p, next, k) == behind
    ensures FindA(p, off, k + 1) == if HoldsAddress(r) then Some(r.rdata) else behind
  {
  }

  lemma {:induction false} RecordsSearched(p: seq<byte>, off: nat, rs: seq<Record>)
    requires Carries(p, off, RecordsBytes(rs))
    ensures FindA(p, off, |rs|) == FirstA(rs)
    decreases |rs|
  {
    if rs != [] {
      var others := rs[1..];
      assert |rs| == |others| + 1;
      var next := FirstRecord(p, off, rs);
      RecordsSearched(p, next, others);
      SearchStep(p, off, |others|, rs[0], next, FirstA(others));
    }
  }

  lemma HeaderRead(id: uint16, f0: byte, f1: byte, qd: uint16, an: uint16, ns: uint16, ar: uint16, h: seq<byte>)
    requires h == HeaderBytes(id, f0, f1, qd, an, ns, ar)
    ensures U16(h[0], h[1]) == id && h[2] == f0 && h[3] == f1 && U16(h[4], h[5]) == qd && U16(h[6], h[7]) == an
  {
  }

  /** The parser behind a header: exactly the counted questions and answers are read. */
  lemma BodyRead(p: seq<byte>, qs: seq<Question>, rs: seq<Record>, asked: uint16)
    requires |p| >= HEADER_LEN && U16(p[4], p[5]) == |qs| && U16(p[6], p[7]) == |rs|
    requires Carries(p, HEADER_LEN, QuestionsBytes(qs))
    requires Carries(p, HEADER_LEN + |QuestionsBytes(qs)|, RecordsBytes(rs))
    ensures ParseResponse(p, asked) == if Answers(p, asked) then FirstA(rs) else None
  {
    QuestionsSkipped(p, HEADER_LEN, qs);
    RecordsSearched(p, HEADER_LEN + |QuestionsBytes(qs)|, rs);
  }

  lemma CutInThree(h: seq<byte>, q: seq<byte>, a: seq<byte>, rest: seq<byte>, p: seq<byte>)
    requires p == h + (q + (a + rest))
    ensures forall k :: 0 <= k < |h| ==> p[k] == h[k]
    ensures Carries(p, |h|, q) && Carries(p, |h| + |q|, a)
  {
  }

  /** For every message with the given flags, questions and answers, whatever follows the
      answers: a response without error to this query yields its first A/IN address, or none
      when it has none; any other message is refused. */
  lemma ParseOfSerialize(id: uint16, f0: byte, f1: byte, qs: seq<Question>, rs: seq<Record>, qd: uint16, an: uint16,
                         ns: uint16, ar: uint16, rest: seq<byte>, asked: uint16, p: seq<byte>)
    requires |qs| == qd && |rs| == an
    requires p == HeaderBytes(id, f0, f1, qd, an, ns, ar) + (QuestionsBytes(qs) + (RecordsBytes(rs) + rest))
    ensures ParseResponse(p, asked) == if id == asked && f0 >= 0x80 && f1 % 0x10 == 0 then FirstA(rs) else None
  {
    var h := HeaderBytes(id, f0, f1, qd, an, ns, ar);
    HeaderRead(id, f0, f1, qd, an, ns, ar, h);
    CutInThree(h, QuestionsBytes(qs), RecordsBytes(rs), rest, p);
    assert p[0] == h[0] && p[1] == h[1] && p[2] == f0 && p[3] == f1
        && p[4] == h[4] && p[5] == h[5] && p[6] == h[6] && p[7] == h[7];
    BodyRead(p, qs, rs, asked);
  }
}
