/** Machine integers as subsets of int, and the big-endian (network order) codecs
    that every protocol in this project shares. */
module Bytes {
  type byte = x: int | 0 <= x < 0x100
  type uint16 = x: int | 0 <= x < 0x1_0000
  type uint32 = x: int | 0 <= x < 0x1_0000_0000

  type Ip = s: seq<byte> | |s| == 4 witness [0, 0, 0, 0]

  const TWO_16 := 0x1_0000
  const TWO_32 := 0x1_0000_0000

  datatype Option<+T> = None | Some(value: T)

  /** x++ on an unsigned 32-bit counter. */
  function Inc(x: uint32): uint32 {
    if x + 1 == TWO_32 then 0 else x + 1
  }

  function Min(a: nat, b: nat): nat {
    if a < b then a else b
  }

  function U16(hi: byte, lo: byte): uint16 {
    hi * 0x100 + lo
  }

  function Be16(x: uint16): (b: seq<byte>)
    ensures |b| == 2 && U16(b[0], b[1]) == x
  {
    [x / 0x100, x % 0x100]
  }

  function U32(b: seq<byte>): uint32
    requires |b| == 4
  {
    U16(b[0], b[1]) * TWO_16 + U16(b[2], b[3])
  }

  function Be32(x: uint32): (b: seq<byte>)
    ensures |b| == 4 && U32(b) == x
  {
    Be16(x / TWO_16) + Be16(x % TWO_16)
  }

  /** memcpy into buf[at..]. */
  method CopyTo(buf: array<byte>, at: nat, data: seq<byte>)
    requires at + |data| <= buf.Length
    modifies buf
    ensures forall k :: at <= k < at + |data| ==> buf[k] == data[k - at]
    ensures forall k :: 0 <= k < buf.Length && !(at <= k < at + |data|) ==> buf[k] == old(buf[k])
  {
    for i := 0 to |data|
      invariant forall k :: at <= k < at + i ==> buf[k] == data[k - at]
      invariant forall k :: 0 <= k < buf.Length && !(at <= k < at + i) ==> buf[k] == old(buf[k])
    {
      buf[at + i] := data[i];
    }
  }

  /** The next `data` behind the first `at` bytes. */
  method AppendTo(buf: array<byte>, at: nat, data: seq<byte>)
    requires at + |data| <= buf.Length
    modifies buf
    ensures buf[..at + |data|] == old(buf[..at]) + data
  {
    CopyTo(buf, at, data);
  }

  /** The bytes of a plain ASCII text. */
  function Ascii(text: string): (b: seq<byte>)
    requires forall i :: 0 <= i < |text| ==> text[i] as int < 0x80
    ensures |b| == |text|
  {
    seq(|text|, i requires 0 <= i < |text| => text[i] as int)
  }

  function Zeros(n: nat): (z: seq<byte>)
    ensures |z| == n
  {
    seq(n, i => 0)
  }

  lemma Associative(a: seq<byte>, b: seq<byte>, c: seq<byte>)
    ensures (a + b) + c == a + (b + c)
  {
  }

  /** Sum of a sequence of sequences, in order. */
  function Flatten<T>(ss: seq<seq<T>>): seq<T> {
    if ss == [] then [] else ss[0] + Flatten(ss[1..])
  }

  lemma {:induction false} FlattenAppend<T>(xs: seq<seq<T>>, ys: seq<seq<T>>)
    ensures Flatten(xs + ys) == Flatten(xs) + Flatten(ys)
  {
    if xs == [] {
      assert xs + ys == ys;
    } else {
      FlattenAppend(xs[1..], ys);
      assert (xs + ys)[1..] == xs[1..] + ys && (xs + ys)[0] == xs[0];
      assert Flatten(xs + ys) == xs[0] + (Flatten(xs[1..]) + Flatten(ys));
    }
  }
}
