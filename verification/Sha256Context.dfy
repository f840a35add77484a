/**
 The incremental SHA-256 of the A2A adapter: a hash context with a 64-byte block buffer that is
 updated byte by byte, proved to compute `Sha256Spec.Sha256` of everything fed to it.
 */
module Sha256Incremental {
  import opened Sha256Spec
  import opened Division

  const TWO_64: nat := 0x1_0000_0000_0000_0000

  lemma NoRounds(v: Work, block: seq<Byte>)
    requires |block| == BLOCK
    ensures Rounds(v, block, []) == v
  {
  }

  lemma NextRound(v: Work, block: seq<Byte>, ks: seq<Word>, i: nat)
    requires |block| == BLOCK && i < |ks|
    ensures Rounds(v, block, ks[..i + 1]) == Round(Rounds(v, block, ks[..i]), ks[i], Schedule(block, i))
  {
    hide Schedule, Round;
    assert ks[..i + 1][..i] == ks[..i];
  }

  lemma RoundOf(v: Work, k: Word, w: Word, t1: Word, t2: Word)
    requires t1 == Sum5(v.h, BigSigma1(v.e), Ch(v.e, v.f, v.g), k, w)
    requires t2 == Add(BigSigma0(v.a), Maj(v.a, v.b, v.c))
    ensures Round(v, k, w) == Work(Add(t1, t2), v.a, v.b, v.c, Add(v.d, t1), v.e, v.f, v.g)
  {
    hide BigSigma0, BigSigma1, Ch, Maj, Add, Sum5;
  }

  // ---------------------------------------------------------------- the source's expressions

  function Ror32(x: Word, n: bv6): Word
    requires 0 < n < 32
  {
    (x >> n) | (x << (32 - n))
  }

  function Right(x: Word, n: bv6): Word
    requires n < 32
  {
    x >> n
  }

  function RoundS1(e: Word): Word { Xor3(Ror32(e, 6), Ror32(e, 11), Ror32(e, 25)) }
  function RoundS0(a: Word): Word { Xor3(Ror32(a, 2), Ror32(a, 13), Ror32(a, 22)) }
  function RoundCh(e: Word, f: Word, g: Word): Word { (e & f) ^ (!e & g) }
  function RoundMaj(a: Word, b: Word, c: Word): Word { (a & b) ^ (a & c) ^ (b & c) }
  function RoundT1(h: Word, s1: Word, ch: Word, k: Word, w: Word): Word { h + s1 + ch + k + w }
  function Plus(x: Word, y: Word): Word { x + y }

  function LoadWord(data: array<Byte>, i: nat): Word
    requires 4 * i + 3 < data.Length
    reads data
  {
    (data[i * 4] as Word << 24) | (data[i * 4 + 1] as Word << 16)
    | (data[i * 4 + 2] as Word << 8) | data[i * 4 + 3] as Word
  }

  function ScheduleS0(x: Word): Word { Xor3(Ror32(x, 7), Ror32(x, 18), Right(x, 3)) }
  function ScheduleS1(x: Word): Word { Xor3(Ror32(x, 17), Ror32(x, 19), Right(x, 10)) }
  function ScheduleSum(w16: Word, s0: Word, w7: Word, s1: Word): Word { w16 + s0 + w7 + s1 }

  lemma RorIsRotr(x: Word, n: bv6)
    requires 0 < n < 32
    ensures Ror32(x, n) == Rotr(x, n)
  {
  }

  lemma RoundS1Form(x: Word)
    ensures RoundS1(x) == BigSigma1(x)
  {
    hide Ror32, Rotr, Xor3;
    RorIsRotr(x, 6);
    RorIsRotr(x, 11);
    RorIsRotr(x, 25);
  }

  lemma RoundS0Form(x: Word)
    ensures RoundS0(x) == BigSigma0(x)
  {
    hide Ror32, Rotr, Xor3;
    RorIsRotr(x, 2);
    RorIsRotr(x, 13);
    RorIsRotr(x, 22);
  }

  /** They are the functions of section 4.1.2 and the sums of section 6.2.2. */
  lemma RoundForms(x: Word, y: Word, z: Word)
    ensures RoundS1(x) == BigSigma1(x) && RoundS0(x) == BigSigma0(x)
    ensures RoundCh(x, y, z) == Ch(x, y, z) && RoundMaj(x, y, z) == Maj(x, y, z)
    ensures Plus(x, y) == Add(x, y)
  {
    hide RoundS1, BigSigma1, RoundS0, BigSigma0;
    RoundS1Form(x);
    RoundS0Form(x);
  }

  lemma T1Form(h: Word, s1: Word, ch: Word, k: Word, w: Word)
    ensures RoundT1(h, s1, ch, k, w) == Sum5(h, s1, ch, k, w)
  {
  }

  lemma RightIsShr(x: Word, n: bv6)
    requires n < 32
    ensures Right(x, n) == Shr(x, n)
  {
  }

  lemma ScheduleS0Form(x: Word)
    ensures ScheduleS0(x) == SmallSigma0(x)
  {
    hide Ror32, Rotr, Right, Shr, Xor3;
    RorIsRotr(x, 7);
    RorIsRotr(x, 18);
    RightIsShr(x, 3);
  }

  lemma ScheduleS1Form(x: Word)
    ensures ScheduleS1(x) == SmallSigma1(x)
  {
    hide Ror32, Rotr, Right, Shr, Xor3;
    RorIsRotr(x, 17);
    RorIsRotr(x, 19);
    RightIsShr(x, 10);
  }

  /** The source adds the four schedule terms in another order than the standard. */
  lemma SumOrder(x: Word, s0: Word, y: Word, s1: Word)
    ensures ScheduleSum(x, s0, y, s1) == Sum4(s1, y, s0, x)
  {
  }

  lemma LoadForm(data: array<Byte>, i: nat)
    requires 4 * i + 3 < data.Length
    ensures LoadWord(data, i) == ToWord(data[4 * i], data[4 * i + 1], data[4 * i + 2], data[4 * i + 3])
  {
  }

  // ---------------------------------------------------------------- the transformation

  /** The source's eight-variable loop, with the round constants passed in. */
  method RoundLoop(state: array<Word>, w: array<Word>, ks: seq<Word>, ghost block: seq<Byte>) returns (v: Work)
    requires state.Length == 8 && w.Length == |ks| && |block| == BLOCK
    requires forall t :: 0 <= t < |ks| ==> w[t] == Schedule(block, t)
    ensures v == Rounds(ToWork(state[..]), block, ks)
  {
    hide Schedule, Round, Rounds, BigSigma0, BigSigma1, Ch, Maj, Add, Sum5,
         RoundS1, RoundS0, RoundCh, RoundMaj, RoundT1, Plus;
    var a, b, c, d := state[0], state[1], state[2], state[3];
    var e, f, g, h := state[4], state[5], state[6], state[7];
    ghost var v0 := Work(a, b, c, d, e, f, g, h);
    NoRounds(v0, block);
    for i := 0 to |ks|
      invariant Work(a, b, c, d, e, f, g, h) == Rounds(v0, block, ks[..i])
    {
      ghost var before := Work(a, b, c, d, e, f, g, h);
      RoundForms(e, f, g);
      RoundForms(a, b, c);
      var s1 := RoundS1(e);
      var ch := RoundCh(e, f, g);
      T1Form(h, s1, ch, ks[i], w[i]);
      var t1 := RoundT1(h, s1, ch, ks[i], w[i]);
      var s0 := RoundS0(a);
      var maj := RoundMaj(a, b, c);
      RoundForms(s0, maj, 0);
      var t2 := Plus(s0, maj);
      RoundForms(d, t1, t2);
      RoundForms(t1, t2, 0);
      h := g;
      g := f;
      f := e;
      e := Plus(d, t1);
      d := c;
      c := b;
      b := a;
      a := Plus(t1, t2);
      RoundOf(before, ks[i], w[i], t1, t2);
      NextRound(v0, block, ks, i);
    }
    assert ks[..|ks|] == ks;
    v := Work(a, b, c, d, e, f, g, h);
  }

  lemma ScheduleStart(block: seq<Byte>, t: nat)
    requires |block| == BLOCK && t < 16
    ensures Schedule(block, t) == ToWord(block[4 * t], block[4 * t + 1], block[4 * t + 2], block[4 * t + 3])
  {
    hide ToWord;
  }

  lemma ScheduleStep(block: seq<Byte>, t: nat)
    requires |block| == BLOCK && t >= 16
    ensures Schedule(block, t)
            == Sum4(SmallSigma1(Schedule(block, t - 2)), Schedule(block, t - 7),
                    SmallSigma0(Schedule(block, t - 15)), Schedule(block, t - 16))
  {
    hide SmallSigma0, SmallSigma1, ToWord, Sum4;
  }

  /** Fills the 64-word schedule in place. */
  method Expand(data: array<Byte>) returns (w: array<Word>)
    requires data.Length == BLOCK
    ensures w.Length == 64 && fresh(w)
    ensures forall t :: 0 <= t < 64 ==> w[t] == Schedule(data[..], t)
  {
    hide Schedule, ToWord, SmallSigma0, SmallSigma1, Sum4, LoadWord, ScheduleS0, ScheduleS1, ScheduleSum;
    ghost var block := data[..];
    w := new Word[64];
    for i := 0 to 16
      invariant forall t :: 0 <= t < i ==> w[t] == Schedule(block, t)
    {
      ScheduleStart(block, i);
      LoadForm(data, i);
      w[i] := LoadWord(data, i);
    }
    for i := 16 to 64
      invariant forall t :: 0 <= t < i ==> w[t] == Schedule(block, t)
    {
      ScheduleS0Form(w[i - 15]);
      ScheduleS1Form(w[i - 2]);
      var s0 := ScheduleS0(w[i - 15]);
      var s1 := ScheduleS1(w[i - 2]);
      ScheduleStep(block, i);
      SumOrder(w[i - 16], s0, w[i - 7], s1);
      w[i] := ScheduleSum(w[i - 16], s0, w[i - 7], s1);
    }
  }

  /** Adds the working variables into the hash words. */
  method StoreSum(state: array<Word>, v: Work)
    requires state.Length == 8
    modifies state
    ensures state[..] == AddWork(old(state[..]), v)
  {
    hide Add, Part;
    ghost var h := state[..];
    for i := 0 to 8
      invariant forall j :: 0 <= j < i ==> state[j] == Add(h[j], Part(v, j))
      invariant forall j :: i <= j < 8 ==> state[j] == h[j]
    {
      state[i] := Add(state[i], Part(v, i));
    }
  }

  /** The bit counter after `n` bytes, a 64-bit number. */
  function BitCount(n: nat): nat { 8 * n % TWO_64 }

  lemma CounterStep(n: nat)
    ensures (BitCount(n) + 512) % TWO_64 == BitCount(n + BLOCK)
  {
    AddModulo(8 * n, 512, TWO_64);
  }

  lemma EmptyHash()
    ensures HashBlocks([]) == InitialHash()
  {
  }

  /** Hashing one more block is one more compression. */
  lemma NextBlock(text: seq<Byte>, block: seq<Byte>)
    requires WholeBlocks(text) && |block| == BLOCK
    ensures WholeBlocks(text + block)
    ensures HashBlocks(text + block) == Compress(HashBlocks(text), block)
  {
    hide Compress;
    var all := text + block;
    assert all[..|text|] == text && all[|text|..] == block;
  }

  /** A number shifted right by `k` bytes. */
  function Shifted(n: nat, k: nat): nat {
    if k == 0 then n else Shifted(n, k - 1) / 256
  }

  lemma NotShifted(n: nat)
    ensures Shifted(n, 0) == n
  {
  }

  /** Shifting right by eight more bits drops one more byte. */
  lemma ShiftStep(total: nat, i: nat)
    requires i < 8
    ensures BigEndian(Shifted(total, 7 - i), i + 1)
            == BigEndian(Shifted(total, 8 - i), i) + [LowByte(Shifted(total, 7 - i))]
  {
    hide LowByte;
  }

  /** The eight state words as 32 bytes. */
  method Digest(state: array<Word>) returns (out: seq<Byte>)
    requires state.Length == 8
    ensures out == WordsBytes(state[..])
  {
    hide WordBytes;
    out := [];
    for i := 0 to 8
      invariant out == WordsBytes(state[..i])
    {
      out := out + WordBytes(state[i]);
      assert state[..i + 1][..i] == state[..i];
    }
    assert state[..8] == state[..];
  }

  function Pow256(k: nat): (p: nat)
    ensures p > 0
  {
    if k == 0 then 1 else 256 * Pow256(k - 1)
  }

  lemma {:induction false} BigEndianWraps(n: nat, count: nat)
    ensures BigEndian(n % Pow256(count), count) == BigEndian(n, count)
  {
    if count > 0 {
      var p := Pow256(count - 1);
      RemainderSplits(n, p);
      BigEndianWraps(n / 256, count - 1);
    }
  }

  /** The running counter plus the buffered bytes is the message length in bits, modulo 2^64. */
  lemma LengthField(n: nat, k: nat, total: nat)
    requires total == (BitCount(n) + k * 8) % TWO_64
    ensures BigEndian(total, 8) == BigEndian(8 * (n + k), 8)
  {
    hide BigEndian;
    BigEndianWraps(8 * (n + k), 8);
    assert Pow256(8) == TWO_64;
    AddModulo(8 * n, k * 8, TWO_64);
  }

  /** What has been compressed and what is buffered once the one bit is in place. */
  ghost predicate PaddingStarted(blocks: seq<Byte>, tail: seq<Byte>, done: seq<Byte>, partial: seq<Byte>) {
    var marked := tail + [0x80];
    if |marked| <= 56 then done == blocks && partial == marked
    else |marked| <= BLOCK && done == blocks + (marked + Zeros(BLOCK - |marked|)) && partial == []
  }

  lemma ZerosNeeded(n: nat, k: nat)
    requires n % BLOCK == 0 && k < BLOCK
    ensures ZeroCount(n + k) == if k + 1 <= 56 then 56 - (k + 1) else BLOCK + 56 - (k + 1)
  {
    assert (n + k) % BLOCK == k;
  }

  /** The blocks that Final compresses, one or two, are exactly the padded message. */
  lemma PaddedBlocks(blocks: seq<Byte>, tail: seq<Byte>, done: seq<Byte>, partial: seq<Byte>, last: seq<Byte>)
    requires WholeBlocks(blocks) && |tail| < BLOCK
    requires PaddingStarted(blocks, tail, done, partial)
    requires |partial| <= 56
    requires last == partial + Zeros(56 - |partial|) + BigEndian(8 * (|blocks| + |tail|), 8)
    ensures done + last == Pad(blocks + tail)
  {
    hide BigEndian, ZeroCount;
    var marked := tail + [0x80];
    ZerosNeeded(|blocks|, |tail|);
    if |marked| > 56 {
      assert Zeros(BLOCK + 56 - |marked|) == Zeros(BLOCK - |marked|) + Zeros(56);
    }
  }

  class Context {
    const state: array<Word>
    const data: array<Byte>
    var bitlen: nat
    var datalen: nat
    ghost var blocks: seq<Byte>

    /** The state is the hash of the whole blocks absorbed so far; the buffer holds the rest. */
    ghost predicate Valid()
      reads this, state, data
    {
      && state.Length == 8 && data.Length == BLOCK && datalen < BLOCK
      && WholeBlocks(blocks)
      && bitlen == BitCount(|blocks|)
      && state[..] == HashBlocks(blocks)
    }

    /** Every byte fed to the context. */
    ghost function Absorbed(): seq<Byte>
      requires datalen <= data.Length
      reads this, data
    {
      blocks + data[..datalen]
    }

    constructor ()
      ensures Valid() && Absorbed() == [] && fresh(state) && fresh(data)
    {
      hide InitialHash, HashBlocks;
      EmptyHash();
      var h := InitialHash();
      state := new Word[8](i requires 0 <= i < 8 => h[i]);
      data := new Byte[64];
      bitlen, datalen, blocks := 0, 0, [];
      new;
      assert state[..] == h;
    }

    /** Replaces the state by the compression of the block in the buffer. */
    method Transform()
      requires state.Length == 8 && data.Length == BLOCK
      modifies state
      ensures state[..] == Compress(old(state[..]), data[..])
    {
      hide Rounds, Schedule, RoundConstants, AddWork;
      var w := Expand(data);
      var v := RoundLoop(state, w, RoundConstants(), data[..]);
      StoreSum(state, v);
    }

    /** Absorbs one byte, compressing when the buffer is full. */
    method Absorb(b: Byte)
      requires Valid()
      modifies this`bitlen, this`datalen, this`blocks, state, data
      ensures Valid() && Absorbed() == old(Absorbed()) + [b]
    {
      hide HashBlocks, Compress, BitCount, WholeBlocks;
      data[datalen] := b;
      datalen := datalen + 1;
      assert data[..datalen] == old(data[..datalen]) + [b];
      if datalen == 64 {
        assert data[..] == data[..64];
        NextBlock(blocks, data[..]);
        CounterStep(|blocks|);
        Transform();
        blocks := blocks + data[..];
        bitlen := (bitlen + 512) % TWO_64;
        datalen := 0;
      }
    }

    method Update(p: seq<Byte>)
      requires Valid()
      modifies this`bitlen, this`datalen, this`blocks, state, data
      ensures Valid() && Absorbed() == old(Absorbed()) + p
    {
      hide HashBlocks, BitCount, WholeBlocks;
      for i := 0 to |p|
        invariant Valid() && Absorbed() == old(Absorbed()) + p[..i]
      {
        Absorb(p[i]);
        assert p[..i + 1] == p[..i] + [p[i]];
      }
      assert p[..|p|] == p;
    }

    /** Writes zeros from `datalen` up to `limit`. */
    method FillZeros(limit: nat)
      requires datalen <= limit <= data.Length
      modifies this`datalen, data
      ensures datalen == limit
      ensures data[..limit] == old(data[..datalen]) + Zeros(limit - old(datalen))
    {
      ghost var start := datalen;
      while datalen < limit
        invariant start <= datalen <= limit
        invariant data[..datalen] == old(data[..datalen]) + Zeros(datalen - start)
      {
        data[datalen] := 0;
        datalen := datalen + 1;
        assert data[..datalen] == data[..datalen - 1] + [0];
        assert Zeros(datalen - start) == Zeros(datalen - 1 - start) + [0];
      }
    }

    /** Appends the one bit and, if the length no longer fits, completes and compresses a block. */
    method Mark() returns (ghost done: seq<Byte>)
      requires Valid()
      modifies this`bitlen, this`datalen, state, data
      ensures datalen <= 56 && WholeBlocks(done) && state[..] == HashBlocks(done)
      ensures PaddingStarted(blocks, old(data[..datalen]), done, data[..datalen])
    {
      hide HashBlocks, Compress, Zeros, BitCount, WholeBlocks;
      done := blocks;
      data[datalen] := 0x80;
      datalen := datalen + 1;
      assert data[..datalen] == old(data[..datalen]) + [0x80];
      if datalen > 56 {
        FillZeros(64);
        assert data[..] == data[..64];
        NextBlock(done, data[..]);
        done := done + data[..];
        Transform();
        bitlen := (bitlen + 512) % TWO_64;
        datalen := 0;
      }
    }

    /** Pads, compresses the last one or two blocks and gives out the digest. */
    method Final() returns (out: seq<Byte>)
      requires Valid()
      modifies this`bitlen, this`datalen, state, data
      ensures out == Sha256(old(Absorbed()))
    {
      hide HashBlocks, Compress, BigEndian, Zeros, WordsBytes, Pad, PaddingStarted, BitCount, WholeBlocks;
      var total := (bitlen + datalen * 8) % TWO_64;
      ghost var tail := data[..datalen];
      LengthField(|blocks|, |tail|, total);
      ghost var done := Mark();
      ghost var partial := data[..datalen];
      FillZeros(56);
      WriteLength(total);
      PaddedBlocks(blocks, tail, done, partial, data[..]);
      NextBlock(done, data[..]);
      Transform();
      out := Digest(state);
    }

    /** Stores the bit count in the last eight bytes, the most significant first. */
    method WriteLength(total: nat)
      requires data.Length == BLOCK && total < TWO_64
      modifies data
      ensures data[..] == old(data[..56]) + BigEndian(total, 8)
    {
      hide LowByte, BigEndian, Shifted;
      ghost var head := data[..56];
      NotShifted(total);
      for i := 0 to 8
        invariant data[..56] == head
        invariant data[56..56 + i] == BigEndian(Shifted(total, 8 - i), i)
      {
        data[56 + i] := LowByte(Shifted(total, 7 - i));
        ShiftStep(total, i);
        assert data[56..56 + i + 1] == data[56..56 + i] + [data[56 + i]];
      }
      assert data[..] == data[..56] + data[56..64];
    }
  }
}
