/** The DNS resolver's encoder and parser in port/backend/src/wsm_dhcp.c (RFC 1035 sections
    3.1 and 4.1). */
module Dns {
  import opened Bytes

  const HEADER_LEN := 12
  const TYPE_A := 1
  const CLASS_IN := 1
  const DOT: byte := 46
  const MAX_LABEL := 63

  type Label = s: seq<byte> | 1 <= |s| <= MAX_LABEL witness [0]

  // ------------------------------------------------------------------ names

  datatype NameEnd = Root | Pointer(target: nat)

  /** A name as it stands in a message: labels, then the root or a compression pointer. */
  datatype AnyName = AnyName(labels: seq<Label>, end: NameEnd)
  type Name = n: AnyName | n.end.Pointer? ==> n.end.target < 0x4000 witness AnyName([], Root)

  function LabelBytes(ls: seq<Label>): seq<byte> {
    if ls == [] then [] else [|ls[0]|] + ls[0] + LabelBytes(ls[1..])
  }

  function EndBytes(e: NameEnd): seq<byte>
    requires e.Pointer? ==> e.target < 0x4000
  {
    match e
    case Root => [0]
    case Pointer(t) => [0xC0 + t / 0x100, t % 0x100]
  }

  function NameBytes(n: Name): seq<byte> {
    LabelBytes(n.labels) + EndBytes(n.end)
  }

  /** dns_skip_name: the offset behind the name at `off`, or -1. A length of 64 to 191 is
      treated like any other. */
  function Skip(p: seq<byte>, off: nat): (r: int)
    ensures r == -1 || off < r <= |p|
    decreases |p| - off
  {
    if off >= |p| then -1
    else if p[off] == 0 then off + 1
    else if p[off] >= 0xC0 then if off + 2 <= |p| then off + 2 else -1
    else Skip(p, off + 1 + p[off])
  }

  /** `p` carries `b` at `off`. */
  predicate Carries(p: seq<byte>, off: nat, b: seq<byte>) {
    off + |b| <= |p| && p[off..off + |b|] == b
  }

  lemma CarriesParts(p: seq<byte>, off: nat, a: seq<byte>, b: seq<byte>)
    requires Carries(p, off, a + b)
    ensures Carries(p, off, a) && Carries(p, off + |a|, b)
  {
    assert p[off..off + |a|] == p[off..off + |a + b|][..|a|];
    assert p[off + |a|..off + |a| + |b|] == p[off..off + |a + b|][|a|..];
  }

  lemma {:induction false} SkipLabels(p: seq<byte>, off: nat, ls: seq<Label>)
    requires Carries(p, off, LabelBytes(ls))
    ensures Skip(p, off) == Skip(p, off + |LabelBytes(ls)|)
    decreases |ls|
  {
    if ls != [] {
      var first := [|ls[0]|] + ls[0];
      CarriesParts(p, off, first, LabelBytes(ls[1..]));
      assert p[off] == p[off..off + |first|][0] == |ls[0]|;
      SkipLabels(p, off + |first|, ls[1..]);
    }
  }

  /** Wherever a name stands in a packet, skipping it lands right behind it. */
  lemma SkipName(p: seq<byte>, off: nat, n: Name)
    requires Carries(p, off, NameBytes(n))
    ensures Skip(p, off) == off + |NameBytes(n)|
  {
    var e := EndBytes(n.end);
    CarriesParts(p, off, LabelBytes(n.labels), e);
    SkipLabels(p, off, n.labels);
    var at := off + |LabelBytes(n.labels)|;
    assert p[at] == p[at..at + |e|][0] == e[0];
  }

  // ------------------------------------------------------------------ encoding a host name

  /** strchr: the first dot from `i` on, or the end. */
  function DotFrom(d: seq<byte>, i: nat): (k: nat)
    requires i <= |d|
    ensures i <= k <= |d| && (k < |d| ==> d[k] == DOT) && forall j :: i <= j < k ==> d[j] != DOT
    decreases |d| - i
  {
    if i == |d| || d[i] == DOT then i else DotFrom(d, i + 1)
  }

  /** The dot-separated parts of a host name from `i` on. */
  function PartsFrom(d: seq<byte>, i: nat): (ps: seq<seq<byte>>)
    requires i <= |d|
    ensures |ps| >= 1
    decreases |d| - i
  {
    var k := DotFrom(d, i);
    if k == |d| then [d[i..]] else [d[i..k]] + PartsFrom(d, k + 1)
  }

  function Parts(d: seq<byte>): seq<seq<byte>> {
    PartsFrom(d, 0)
  }

  predicate AllLabels(ps: seq<seq<byte>>) {
    forall i :: 0 <= i < |ps| ==> 1 <= |ps[i]| <= MAX_LABEL
  }

  function Encoded(ps: seq<seq<byte>>): seq<byte>
    requires AllLabels(ps)
  {
    if ps == [] then [0] else [|ps[0]|] + ps[0] + Encoded(ps[1..])
  }

  /** The labels read back from an encoded name that ends in the root. */
  function ReadLabels(s: seq<byte>): Option<seq<seq<byte>>>
    decreases |s|
  {
    if s == [] then None
    else if s[0] == 0 then Some([])
    else if s[0] > MAX_LABEL || 1 + s[0] > |s| then None
    else match ReadLabels(s[1 + s[0]..])
      case None => None
      case Some(ls) => Some([s[1..1 + s[0]]] + ls)
  }

  lemma Regroup(a: seq<byte>, b: seq<byte>, c: seq<byte>, d: seq<byte>)
    ensures (a + b + c) + d == a + b + (c + d)
  {
  }

  lemma ReadOne(l: Label, rest: seq<byte>)
    ensures ReadLabels([|l|] + l + rest) == match ReadLabels(rest)
              case None => None
              case Some(ls) => Some([l] + ls)
  {
  }

  lemma {:induction false} ReadEncoded(ps: seq<seq<byte>>, rest: seq<byte>)
    requires AllLabels(ps)
    ensures ReadLabels(Encoded(ps) + rest) == Some(ps)
  {
    if ps == [] {
      assert Encoded(ps) + rest == [0] + rest;
    } else {
      var first, others := ps[0], ps[1..];
      assert ps == [first] + others;
      ReadEncoded(others, rest);
      ReadOne(first, Encoded(others) + rest);
      Regroup([|first|], first, Encoded(others), rest);
    }
  }

  lemma {:induction false} EncodedIsName(ps: seq<seq<byte>>)
    requires AllLabels(ps)
    ensures Encoded(ps) == NameBytes(AnyName(ps, Root))
  {
    if ps == [] {
      assert LabelBytes([]) + EndBytes(Root) == [0];
    } else {
      EncodedIsName(ps[1..]);
      assert Encoded(ps) == ([|ps[0]|] + ps[0]) + (LabelBytes(ps[1..]) + [0]);
    }
  }

  /** Bytes an encoded name takes: one more than the text for the first length, and the root. */
  lemma {:induction false} EncodedSize(d: seq<byte>, i: nat)
    requires i <= |d| && AllLabels(PartsFrom(d, i))
    ensures |Encoded(PartsFrom(d, i))| == |d| - i + 2
    decreases |d| - i
  {
    var k, ps := DotFrom(d, i), PartsFrom(d, i);
    if k < |d| {
      var tail := PartsFrom(d, k + 1);
      assert ps == [d[i..k]] + tail && ps[1..] == tail;
      assert AllLabels(tail) by {
        assert forall j :: 0 <= j < |tail| ==> tail[j] == ps[j + 1];
      }
      EncodedSize(d, k + 1);
    } else {
      assert ps[1..] == [];
      assert Encoded([]) == [0];
    }
  }

  /** What dns_encode_name accepts. */
  predicate Encodable(d: seq<byte>, cap: nat) {
    AllLabels(Parts(d)) && |d| + 2 <= cap
  }

  function Prefixed(a: seq<byte>, r: Option<seq<byte>>): Option<seq<byte>> {
    if r.Some? then Some(a + r.value) else None
  }

  /** The bytes dns_encode_name produces from position `start` of the host name on. */
  function EncodeFrom(d: seq<byte>, start: nat, cap: nat): Option<seq<byte>>
    requires start <= |d|
    decreases |d| - start
  {
    var k := DotFrom(d, start);
    if k == start || k - start > MAX_LABEL || k + 2 > cap then None
    else if k == |d| then Some([k - start] + d[start..k] + [0])
    else Prefixed([k - start] + d[start..k], EncodeFrom(d, k + 1, cap))
  }

  lemma PrefixedTwice(a: seq<byte>, b: seq<byte>, r: Option<seq<byte>>)
    ensures Prefixed(a, Prefixed(b, r)) == Prefixed(a + b, r)
    ensures Prefixed([], r) == r
  {
    if r.Some? {
      assert a + (b + r.value) == (a + b) + r.value;
      assert [] + r.value == r.value;
    }
  }

  /** One more label behind what is written, then the root or the rest of the name. */
  lemma EncodeStep(d: seq<byte>, start: nat, cap: nat, written: seq<byte>, part: seq<byte>)
    requires start <= |d| && part == d[start..DotFrom(d, start)]
    requires 0 < |part| <= MAX_LABEL && DotFrom(d, start) + 2 <= cap
    ensures Prefixed(written, EncodeFrom(d, start, cap)) ==
            if DotFrom(d, start) == |d| then Some(written + ([|part|] + part) + [0])
            else Prefixed(written + ([|part|] + part), EncodeFrom(d, DotFrom(d, start) + 1, cap))
  {
    var k := DotFrom(d, start);
    PrefixedTwice(written, [|part|] + part, if k == |d| then Some([0]) else EncodeFrom(d, k + 1, cap));
  }

  lemma FirstLabel(ps: seq<seq<byte>>)
    requires |ps| > 0 && 1 <= |ps[0]| <= MAX_LABEL
    ensures AllLabels(ps) <==> AllLabels(ps[1..])
  {
  }

  lemma {:induction false} EncodeFromIff(d: seq<byte>, start: nat, cap: nat)
    requires start <= |d|
    ensures EncodeFrom(d, start, cap).Some? <==> AllLabels(PartsFrom(d, start)) && |d| + 2 <= cap
    ensures EncodeFrom(d, start, cap).Some? ==> EncodeFrom(d, start, cap).value == Encoded(PartsFrom(d, start))
    decreases |d| - start
  {
    var k, ps := DotFrom(d, start), PartsFrom(d, start);
    assert |ps[0]| == k - start;
    if k == |d| {
      assert d[start..] == d[start..k];
      assert ps[1..] == [];
    } else {
      var tail := PartsFrom(d, k + 1);
      EncodeFromIff(d, k + 1, cap);
      assert ps == [d[start..k]] + tail && ps[1..] == tail;
      if 1 <= |ps[0]| <= MAX_LABEL {
        FirstLabel(ps);
      }
    }
  }

  /** dns_encode_name succeeds exactly on host names whose parts are all labels and that fit,
      and then writes one length byte per label, the labels and the root. */
  lemma EncodeIff(d: seq<byte>, cap: nat)
    ensures EncodeFrom(d, 0, cap).Some? <==> Encodable(d, cap)
    ensures Encodable(d, cap) ==> EncodeFrom(d, 0, cap).value == Encoded(Parts(d)) && |Encoded(Parts(d))| == |d| + 2
  {
    EncodeFromIff(d, 0, cap);
    if Encodable(d, cap) {
      EncodedSize(d, 0);
    }
  }

  /** One length byte and one label behind the n bytes already written at `at`. */
  method PutLabel(buf: array<byte>, at: nat, n: nat, cap: nat, data: seq<byte>, ghost written: seq<byte>)
    returns (ghost now: seq<byte>)
    requires n + 1 + |data| <= cap && at + cap <= buf.Length && |data| <= MAX_LABEL
    requires buf[at..at + n] == written
    modifies buf
    ensures buf[at..at + n + 1 + |data|] == now == written + ([|data|] + data)
    ensures forall k :: 0 <= k < buf.Length && !(at <= k < at + cap) ==> buf[k] == old(buf[k])
  {
    buf[at + n] := |data|;
    CopyTo(buf, at + n + 1, data);
    now := buf[at..at + n + 1 + |data|];
  }

  method PutRoot(buf: array<byte>, at: nat, n: nat, cap: nat)
    requires n < cap && at + cap <= buf.Length
    modifies buf
    ensures buf[at..at + n + 1] == old(buf[at..at + n]) + [0]
    ensures forall k :: 0 <= k < buf.Length && !(at <= k < at + cap) ==> buf[k] == old(buf[k])
  {
    buf[at + n] := 0;
  }

  method PutLabels(buf: array<byte>, at: nat, cap: nat, domain: seq<byte>) returns (n: int)
    requires at + cap <= buf.Length
    modifies buf
    ensures n == -1 || 0 <= n <= cap
    ensures EncodeFrom(domain, 0, cap) == if n < 0 then None else Some(buf[at..at + n])
    ensures forall k :: 0 <= k < buf.Length && !(at <= k < at + cap) ==> buf[k] == old(buf[k])
  {
    n := 0;
    var start: nat := 0;
    ghost var written: seq<byte> := [];
    PrefixedTwice([], [], EncodeFrom(domain, 0, cap));
    while true
      invariant start <= |domain| && n == start && n <= cap
      invariant buf[at..at + n] == written
      invariant EncodeFrom(domain, 0, cap) == Prefixed(written, EncodeFrom(domain, start, cap))
      invariant forall k :: 0 <= k < buf.Length && !(at <= k < at + cap) ==> buf[k] == old(buf[k])
      decreases |domain| - start
    {
      var dot := DotFrom(domain, start);
      var l := dot - start;
      if l == 0 || l > MAX_LABEL || n + 1 + l + 1 > cap {
        return -1;
      }
      var part := domain[start..dot];
      EncodeStep(domain, start, cap, written, part);
      written := PutLabel(buf, at, n, cap, part, written);
      n := n + 1 + l;
      if dot == |domain| {
        PutRoot(buf, at, n, cap);
        n := n + 1;
        return;
      }
      start := dot + 1;
    }
  }

  /** dns_encode_name into buf[at..at + cap]: bytes written, or -1. */
  method EncodeName(buf: array<byte>, at: nat, cap: nat, domain: seq<byte>) returns (n: int)
    requires at + cap <= buf.Length
    modifies buf
    ensures n >= 0 <==> Encodable(domain, cap)
    ensures n >= 0 ==> n == |domain| + 2 <= cap && buf[at..at + n] == Encoded(Parts(domain))
    ensures forall k :: 0 <= k < buf.Length && !(at <= k < at + cap) ==> buf[k] == old(buf[k])
  {
    n := PutLabels(buf, at, cap, domain);
    EncodeIff(domain, cap);
  }

  /** A name that was encoded decodes to the parts of the host name, and a parser skips it
      exactly, wherever it stands. */
  lemma EncodedNameReads(d: seq<byte>, cap: nat, p: seq<byte>, off: nat)
    requires Encodable(d, cap) && Carries(p, off, Encoded(Parts(d)))
    ensures ReadLabels(Encoded(Parts(d))) == Some(Parts(d))
    ensures Skip(p, off) == off + |d| + 2
  {
    assert Encoded(Parts(d)) + [] == Encoded(Parts(d));
    ReadEncoded(Parts(d), []);
    EncodeIff(d, cap);
    EncodedIsName(Parts(d));
    SkipName(p, off, AnyName(Parts(d), Root));
  }
}
