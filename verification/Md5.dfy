/** The buffered MD5 of examples/pppoe/main/md5.c against the one-shot definition of
    RFC 1321 section 3. */
module Md5 {
  import opened Bytes

  const BLOCK := 64
  const TWO_64 := 0x1_0000_0000_0000_0000

  type Words = s: seq<uint32> | |s| == 4 witness [0, 0, 0, 0]

  type Block = b: seq<byte> | |b| == 64 witness seq(64, i => 0)

  /** md5_transform as a function of the chaining value and a block; everything here holds
      for any such function. */
  type Compression = (Words, Block) -> Words

  // ------------------------------------------------------------------ words and bytes

  function Word(b: seq<byte>): uint32
    requires |b| == 4
  {
    U16(b[1], b[0]) + U16(b[3], b[2]) * TWO_16
  }

  function Le32(w: uint32): (b: seq<byte>)
    ensures |b| == 4 && Word(b) == w
  {
    var lo, hi := Be16(w % TWO_16), Be16(w / TWO_16);
    [lo[1], lo[0], hi[1], hi[0]]
  }

  function EncodeWords(ws: seq<uint32>): (b: seq<byte>)
    ensures |b| == 4 * |ws|
  {
    if ws == [] then [] else EncodeWords(ws[..|ws| - 1]) + Le32(ws[|ws| - 1])
  }

  // ------------------------------------------------------------------ RFC 1321 section 3

  const INIT: Words := [0x67452301, 0xefcdab89, 0x98badcfe, 0x10325476]

  /** The chaining value after all whole blocks of m. */
  function Fold(f: Compression, m: seq<byte>): Words
    requires |m| % BLOCK == 0
  {
    if m == [] then INIT else f(Fold(f, m[..|m| - BLOCK]), m[|m| - BLOCK..])
  }

  /** Bytes of padding after a message that ends `index` bytes into a block. */
  function PadLen(index: nat): (n: nat)
    requires index < BLOCK
    ensures 1 <= n <= BLOCK && (index + n + 8 == BLOCK || index + n + 8 == 2 * BLOCK)
  {
    if index < 56 then 56 - index else 120 - index
  }

  /** The 64-bit count of message bits, low word first. */
  function BitCount(len: nat): seq<uint32> {
    [8 * len % TWO_32, 8 * len / TWO_32 % TWO_32]
  }

  function Padding(n: nat): seq<byte>
    requires n >= 1
  {
    [0x80] + Zeros(n - 1)
  }

  lemma PaddedSize(len: nat)
    ensures (len + PadLen(len % BLOCK) + 8) % BLOCK == 0
  {
  }

  function Padded(m: seq<byte>): (p: seq<byte>)
    ensures |p| % BLOCK == 0
  {
    PaddedSize(|m|);
    m + Padding(PadLen(|m| % BLOCK)) + EncodeWords(BitCount(|m|))
  }

  function Digest(f: Compression, m: seq<byte>): seq<byte> {
    EncodeWords(Fold(f, Padded(m)))
  }

  // ------------------------------------------------------------------ counting bits

  /** context->count as md5_update advances it. */
  function Counted(lo: uint32, hi: uint32, n: uint32): (uint32, uint32) {
    var add := 8 * n % TWO_32;
    var sum := (lo + add) % TWO_32;
    (sum, ((if sum < add then hi + 1 else hi) + n / 0x2000_0000) % TWO_32)
  }

  lemma Split32(x: nat, q: nat, r: nat)
    requires x == q * TWO_32 + r && r < TWO_32
    ensures x / TWO_32 == q && x % TWO_32 == r
  {
  }

  lemma ModAdd(x: nat, y: nat)
    ensures (x % TWO_32 + y) % TWO_32 == (x + y) % TWO_32
  {
  }

  lemma CountedWords(lo: uint32, hi: uint32, n: uint32, add: uint32, high: nat, carry: nat)
    requires add == 8 * n % TWO_32 && high == n / 0x2000_0000
    requires carry == if lo + add >= TWO_32 then 1 else 0
    ensures Counted(lo, hi, n) == (lo + add - carry * TWO_32, (hi + (high + carry)) % TWO_32)
  {
  }

  /** The carry between the two words makes it the 64-bit sum. */
  lemma CountedIsBitCount(len: nat, n: uint32)
    ensures var c := Counted(BitCount(len)[0], BitCount(len)[1], n);
            [c.0, c.1] == BitCount(len + n)
  {
    var lo, hi := 8 * len % TWO_32, 8 * len / TWO_32;
    var add, high := 8 * n % TWO_32, n / 0x2000_0000;
    assert 8 * n == high * TWO_32 + add;
    var carry := if lo + add >= TWO_32 then 1 else 0;
    Split32(8 * (len + n), hi + high + carry, lo + add - carry * TWO_32);
    ModAdd(hi, high + carry);
    CountedWords(lo, hi % TWO_32, n, add, high, carry);
  }

  lemma Remainder(w: nat, t: nat)
    requires w % BLOCK == 0 && t < BLOCK
    ensures (w + t) % BLOCK == t
  {
  }

  /** The low count word tells how far the buffer is filled. */
  lemma IndexOfCount(w: nat, t: nat)
    requires w % BLOCK == 0 && t < BLOCK
    ensures BitCount(w + t)[0] / 8 % BLOCK == t
  {
  }

  // ------------------------------------------------------------------ the context

  function PaddedFrom(m: seq<byte>, w: nat, t: nat): (p: seq<byte>)
    requires |m| == w + t && w % BLOCK == 0 && t < BLOCK
    ensures p == Padded(m) && |p| % BLOCK == 0
  {
    Remainder(w, t);
    m + Padding(PadLen(t)) + EncodeWords(BitCount(|m|))
  }

  lemma NothingLeft(whole: seq<byte>, tail: seq<byte>)
    requires |whole| % BLOCK == 0 && |tail| < BLOCK && |whole + tail| % BLOCK == 0
    ensures tail == [] && whole == whole + tail
  {
  }

  lemma CutInThree(m: seq<byte>, input: seq<byte>, p: nat, i: nat)
    requires p <= i <= |input|
    ensures ((m + input[..p]) + input[p..i]) + ([] + input[i..]) == m + input
  {
  }

  lemma CarryWraps(hi: uint32, high: nat)
    ensures (Inc(hi) + high) % TWO_32 == (hi + 1 + high) % TWO_32
  {
  }

  lemma FoldNext(f: Compression, m: seq<byte>, block: seq<byte>)
    requires |m| % BLOCK == 0 && |block| == BLOCK
    ensures Fold(f, m + block) == f(Fold(f, m), block)
  {
  }

  class Context {
    const f: Compression
    const state: array<uint32>
    const count: array<uint32>
    const buffer: array<byte>
    // The message so far: the whole blocks already compressed, and the rest.
    ghost var whole: seq<byte>
    ghost var tail: seq<byte>

    ghost function Msg(): seq<byte>
      reads this
    {
      whole + tail
    }

    ghost predicate Shape()
      reads this
    {
      && state.Length == 4 && count.Length == 2 && buffer.Length == BLOCK && state != count
      && |whole| % BLOCK == 0
    }

    /** The chaining value covers the whole blocks of the message, the buffer starts with the
        rest, and the count is the message length in bits mod 2^64. */
    ghost predicate Valid()
      reads this, state, count, buffer
    {
      && Shape() && |tail| < BLOCK
      && state[..] == Fold(f, whole)
      && count[..] == BitCount(|Msg()|)
      && buffer[..|tail|] == tail
    }

    constructor Init(f: Compression)
      ensures Valid() && Msg() == [] && this.f == f
      ensures fresh(state) && fresh(count) && fresh(buffer)
    {
      this.f := f;
      state := new uint32[4];
      count := new uint32[2](_ => 0);
      buffer := new byte[BLOCK](_ => 0);
      whole, tail := [], [];
      new;
      state[0], state[1], state[2], state[3] := INIT[0], INIT[1], INIT[2], INIT[3];
      assert state[..] == INIT;
      assert count[..] == [0, 0];
    }

    method PutWords(r: Words)
      requires state.Length == 4
      modifies state
      ensures state[..] == r
    {
      state[0], state[1], state[2], state[3] := r[0], r[1], r[2], r[3];
    }

    /** md5_transform. */
    method Transform(block: seq<byte>)
      requires Shape() && |block| == BLOCK && state[..] == Fold(f, whole)
      modifies state, this`whole
      ensures Shape() && state[..] == Fold(f, whole) && whole == old(whole) + block
    {
      var r := f(state[..], block);
      FoldNext(f, whole, block);
      PutWords(r);
      whole := whole + block;
    }

    method CountBits(ghost len: nat, n: uint32)
      requires count.Length == 2 && count[..] == BitCount(len)
      modifies count
      ensures count[..] == BitCount(len + n)
    {
      CountedIsBitCount(len, n);
      ghost var old0, old1 := count[0], count[1];
      assert old0 == BitCount(len)[0] && old1 == BitCount(len)[1];
      var add := 8 * n % TWO_32;
      count[0] := (count[0] + add) % TWO_32;
      if count[0] < add {
        count[1] := Inc(count[1]);
      }
      count[1] := (count[1] + n / 0x2000_0000) % TWO_32;
      CarryWraps(old1, n / 0x2000_0000);
      assert count[..] == [Counted(old0, old1, n).0, Counted(old0, old1, n).1];
    }

    /** Completes the block that the buffer has begun. */
    method FinishBlock(part: seq<byte>, index: nat)
      requires Shape() && state[..] == Fold(f, whole) && index == |tail| && index + |part| == BLOCK
      requires buffer[..index] == tail
      modifies this`whole, state, buffer
      ensures Shape() && state[..] == Fold(f, whole) && whole == old(Msg()) + part
    {
      AppendTo(buffer, index, part);
      assert buffer[..] == buffer[..BLOCK] == tail + part;
      Transform(buffer[..]);
      Associative(old(whole), tail, part);
    }

    /** Whole blocks straight from the input, from i on. */
    method AbsorbBlocks(input: seq<byte>, from: nat) returns (i: nat)
      requires Shape() && state[..] == Fold(f, whole) && from <= |input|
      modifies this`whole, state
      ensures Shape() && state[..] == Fold(f, whole)
      ensures from <= i <= |input| < i + BLOCK && whole == old(whole) + input[from..i]
    {
      i := from;
      while i + 63 < |input|
        invariant from <= i <= |input| && Shape() && state[..] == Fold(f, whole)
        invariant whole == old(whole) + input[from..i]
      {
        Transform(input[i..i + BLOCK]);
        assert input[from..i] + input[i..i + BLOCK] == input[from..i + BLOCK];
        Associative(old(whole), input[from..i], input[i..i + BLOCK]);
        i := i + BLOCK;
      }
    }

    /** Where the buffer is filled up to, from the low count word. */
    method Index() returns (index: nat)
      requires Valid()
      ensures index == |tail|
    {
      IndexOfCount(|whole|, |tail|);
      assert count[0] == BitCount(|whole| + |tail|)[0];
      index := count[0] / 8 % BLOCK;
    }

    /** The part of md5_update that moves data. */
    method Take(input: seq<byte>, start: nat)
      requires Shape() && start == |tail| < BLOCK && state[..] == Fold(f, whole) && buffer[..start] == tail
      modifies this`whole, this`tail, state, buffer
      ensures Shape() && |tail| < BLOCK && state[..] == Fold(f, whole) && buffer[..|tail|] == tail
      ensures Msg() == old(Msg()) + input
    {
      var i, index := 0, start;
      ghost var m := Msg();
      if |input| >= BLOCK - index {
        var partLen := BLOCK - index;
        FinishBlock(input[..partLen], index);
        i := AbsorbBlocks(input, partLen);
        index := 0;
        tail := [];
        CutInThree(m, input, partLen, i);
      } else {
        Associative(whole, tail, input);
      }
      AppendTo(buffer, index, input[i..]);
      tail := tail + input[i..];
      assert Msg() == m + input;
    }

    /** md5_update. Its loop tests i + 63 in 32 bits, so the input leaves room for that. */
    method Update(input: seq<byte>)
      requires Valid() && |input| < TWO_32 - 63
      modifies this`whole, this`tail, state, count, buffer
      ensures Valid() && Msg() == old(Msg()) + input
    {
      var index := Index();
      CountBits(|Msg()|, |input|);
      Take(input, index);
    }

    /** The padding ends the last block: nothing is left in the buffer. */
    method AppendPadding(padding: seq<byte>, bits: seq<byte>)
      requires Valid() && padding == Padding(PadLen(|tail|)) && bits == EncodeWords(BitCount(|Msg()|))
      modifies this`whole, this`tail, state, count, buffer
      ensures Valid() && whole == Padded(old(Msg()))
    {
      ghost var m := Msg();
      ghost var p := PaddedFrom(m, |whole|, |tail|);
      Update(padding);
      Update(bits);
      assert Msg() == p;
      NothingLeft(whole, tail);
    }

    method PadAndEncode() returns (digest: seq<byte>)
      requires Valid()
      modifies this`whole, this`tail, state, count, buffer
      ensures Shape() && digest == Digest(f, old(Msg()))
    {
      var bits := EncodeWords(count[..]);
      var index := Index();
      var padLen := if index < 56 then 56 - index else 120 - index;
      AppendPadding(Padding(padLen), bits);
      digest := EncodeWords(state[..]);
    }

    /** md5_final: pad to 56 mod 64, append the count as it was before padding, encode, wipe. */
    method Final() returns (digest: seq<byte>)
      requires Valid()
      modifies this`whole, this`tail, state, count, buffer
      ensures digest == Digest(f, old(Msg()))
      ensures (forall i :: 0 <= i < 4 ==> state[i] == 0) && (forall i :: 0 <= i < 2 ==> count[i] == 0)
      ensures forall i :: 0 <= i < BLOCK ==> buffer[i] == 0
    {
      digest := PadAndEncode();
      state[0], state[1], state[2], state[3] := 0, 0, 0, 0;
      count[0], count[1] := 0, 0;
      forall i | 0 <= i < BLOCK {
        buffer[i] := 0;
      }
    }
  }

  // ------------------------------------------------------------------ what it computes

  /** For every way of cutting a message into updates, the digest is that of RFC 1321. */
  method DigestOf(f: Compression, chunks: seq<seq<byte>>) returns (digest: seq<byte>)
    requires forall i :: 0 <= i < |chunks| ==> |chunks[i]| < TWO_32 - 63
    ensures digest == Digest(f, Flatten(chunks))
  {
    var c := new Context.Init(f);
    for i := 0 to |chunks|
      invariant c.Valid() && c.f == f && fresh(c) && fresh(c.state) && fresh(c.count) && fresh(c.buffer)
      invariant c.Msg() == Flatten(chunks[..i])
    {
      c.Update(chunks[i]);
      FlattenAppend(chunks[..i], [chunks[i]]);
      assert chunks[..i + 1] == chunks[..i] + [chunks[i]];
    }
    assert chunks[..|chunks|] == chunks;
    digest := c.Final();
  }

  lemma EncodePair(x: uint32, y: uint32)
    ensures EncodeWords([x, y]) == Le32(x) + Le32(y)
  {
  }

  lemma LenOfBitCount(len: nat)
    requires 8 * len < TWO_64
    ensures 8 * len == BitCount(len)[1] * TWO_32 + BitCount(len)[0]
  {
  }

  /** Padding loses nothing: below 2^61 bytes two messages with the same padded form are equal. */
  lemma PaddedInjective(a: seq<byte>, b: seq<byte>)
    requires Padded(a) == Padded(b) && 8 * |a| < TWO_64 && 8 * |b| < TWO_64
    ensures a == b
  {
    var pa, pb := Padded(a), Padded(b);
    var ca, cb := BitCount(|a|), BitCount(|b|);
    LenOfBitCount(|a|);
    LenOfBitCount(|b|);
    EncodePair(ca[0], ca[1]);
    EncodePair(cb[0], cb[1]);
    var la, lb := pa[|pa| - 8..], pb[|pb| - 8..];
    assert la == Le32(ca[0]) + Le32(ca[1]) && lb == Le32(cb[0]) + Le32(cb[1]);
    assert la[..4] == Le32(ca[0]) && lb[..4] == Le32(cb[0]) && la[4..] == Le32(ca[1]) && lb[4..] == Le32(cb[1]);
    assert pa[..|a|] == a && pb[..|b|] == b;
  }

  // ------------------------------------------------------------------ byte by byte

  lemma {:induction false} EncodeWordsAt(ws: seq<uint32>, i: nat)
    requires i < |ws|
    ensures EncodeWords(ws)[4 * i..4 * i + 4] == Le32(ws[i])
  {
    var init := ws[..|ws| - 1];
    if i < |init| {
      EncodeWordsAt(init, i);
      assert EncodeWords(ws)[4 * i..4 * i + 4] == EncodeWords(init)[4 * i..4 * i + 4];
    }
  }

  lemma Split256(x: nat, q: nat, r: byte)
    requires x == q * 0x100 + r
    ensures x / 0x100 == q && x % 0x100 == r
  {
  }

  lemma ByteOfWord(w: uint32)
    ensures Le32(w) == [w % 0x100, w / 0x100 % 0x100, w / 0x1_0000 % 0x100, w / 0x100_0000]
  {
    var hi, lo := w / TWO_16, w % TWO_16;
    var a, b := lo / 0x100, lo % 0x100;
    Split256(w, hi * 0x100 + a, b);
    Split256(hi * 0x100 + a, hi, a);
    Split256(hi, hi / 0x100, hi % 0x100);
    assert hi / 0x100 == w / 0x100_0000;
  }

  /** md5_encode: every word goes out with its lowest byte first. */
  lemma LowByteFirst(ws: seq<uint32>, i: nat)
    requires i < |ws|
    ensures EncodeWords(ws)[4 * i..4 * i + 4]
            == [ws[i] % 0x100, ws[i] / 0x100 % 0x100, ws[i] / 0x1_0000 % 0x100, ws[i] / 0x100_0000]
  {
    EncodeWordsAt(ws, i);
    ByteOfWord(ws[i]);
  }

  /** The value of bytes whose first one is the lowest. */
  function LittleEndian(b: seq<byte>): nat {
    if b == [] then 0 else b[0] + 0x100 * LittleEndian(b[1..])
  }

  lemma FirstByte(b: seq<byte>)
    requires b != []
    ensures LittleEndian(b) == b[0] + 0x100 * LittleEndian(b[1..])
  {
  }

  lemma {:induction false} EightBytes(lo: uint32, hi: uint32)
    ensures LittleEndian(Le32(lo) + Le32(hi)) == lo + hi * TWO_32
  {
    var b := Le32(lo) + Le32(hi);
    FirstByte(b);
    FirstByte(b[1..]);
    FirstByte(b[2..]);
    FirstByte(b[3..]);
    FirstByte(b[4..]);
    FirstByte(b[5..]);
    FirstByte(b[6..]);
    FirstByte(b[7..]);
    ByteOfWord(lo);
    ByteOfWord(hi);
    assert b[8..] == [];
  }

  lemma BitCountIs(len: nat)
    ensures BitCount(len)[0] + BitCount(len)[1] * TWO_32 == 8 * len % TWO_64
  {
    var x := 8 * len;
    assert x == x / TWO_32 * TWO_32 + x % TWO_32;
    assert x / TWO_32 == x / TWO_32 / TWO_32 * TWO_32 + x / TWO_32 % TWO_32;
  }

  /** Section 3.1 and 3.2 of RFC 1321: one 1 bit, as few 0 bits as make whole blocks, and the
      number of message bits in 64 bits, low byte first. */
  lemma PaddedByteByByte(m: seq<byte>)
    ensures var p := Padded(m);
            && m < p && |p| % 64 == 0 && |m| + 9 <= |p| < |m| + 9 + 64
            && p[|m|] == 0x80
            && (forall i :: |m| < i < |p| - 8 ==> p[i] == 0)
            && LittleEndian(p[|p| - 8..]) == 8 * |m| % TWO_64
  {
    var p, c := Padded(m), BitCount(|m|);
    EncodePair(c[0], c[1]);
    EightBytes(c[0], c[1]);
    BitCountIs(|m|);
    assert p[|p| - 8..] == Le32(c[0]) + Le32(c[1]);
  }

  lemma WordOfBytes(w: uint32, a: byte, b: byte, c: byte, d: byte)
    requires w == a + 0x100 * (b + 0x100 * (c + 0x100 * d))
    ensures Le32(w) == [a, b, c, d]
  {
    Split256(w, b + 0x100 * (c + 0x100 * d), a);
    Split256(b + 0x100 * (c + 0x100 * d), c + 0x100 * d, b);
    Split256(c + 0x100 * d, d, c);
    ByteOfWord(w);
  }

  /** Section 3.3 of RFC 1321: the four start words, each as bytes from low to high. */
  lemma InitByteByByte()
    ensures Le32(INIT[0]) == [0x01, 0x23, 0x45, 0x67]
    ensures Le32(INIT[1]) == [0x89, 0xab, 0xcd, 0xef]
    ensures Le32(INIT[2]) == [0xfe, 0xdc, 0xba, 0x98]
    ensures Le32(INIT[3]) == [0x76, 0x54, 0x32, 0x10]
  {
    WordOfBytes(INIT[0], 0x01, 0x23, 0x45, 0x67);
    WordOfBytes(INIT[1], 0x89, 0xab, 0xcd, 0xef);
    WordOfBytes(INIT[2], 0xfe, 0xdc, 0xba, 0x98);
    WordOfBytes(INIT[3], 0x76, 0x54, 0x32, 0x10);
  }
}
