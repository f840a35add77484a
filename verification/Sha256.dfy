/**
 SHA-256 as FIPS 180-4 defines it, over whole messages.

 Section numbers in comments are those of FIPS 180-4.
 */
module Sha256Spec {

  type Byte = bv8
  type Word = bv32

  /** Words before they are loaded into 32-bit registers. */
  newtype uint32 = x: int | 0 <= x < 0x1_0000_0000

  function Load(n: uint32): Word { n as Word }

  function ToWords(ns: seq<uint32>): (ws: seq<Word>)
    ensures |ws| == |ns| && forall i :: 0 <= i < |ns| ==> ws[i] == Load(ns[i])
  {
    seq(|ns|, i requires 0 <= i < |ns| => Load(ns[i]))
  }

  const BLOCK: nat := 64

  /** Section 4.2.2: the round constants, in rows of eight. */
  function ConstantRow(r: nat): (row: seq<uint32>)
    requires r < 8
    ensures |row| == 8
  {
    match r
    case 0 => [0x428a2f98, 0x71374491, 0xb5c0fbcf, 0xe9b5dba5, 0x3956c25b, 0x59f111f1, 0x923f82a4, 0xab1c5ed5]
    case 1 => [0xd807aa98, 0x12835b01, 0x243185be, 0x550c7dc3, 0x72be5d74, 0x80deb1fe, 0x9bdc06a7, 0xc19bf174]
    case 2 => [0xe49b69c1, 0xefbe4786, 0x0fc19dc6, 0x240ca1cc, 0x2de92c6f, 0x4a7484aa, 0x5cb0a9dc, 0x76f988da]
    case 3 => [0x983e5152, 0xa831c66d, 0xb00327c8, 0xbf597fc7, 0xc6e00bf3, 0xd5a79147, 0x06ca6351, 0x14292967]
    case 4 => [0x27b70a85, 0x2e1b2138, 0x4d2c6dfc, 0x53380d13, 0x650a7354, 0x766a0abb, 0x81c2c92e, 0x92722c85]
    case 5 => [0xa2bfe8a1, 0xa81a664b, 0xc24b8b70, 0xc76c51a3, 0xd192e819, 0xd6990624, 0xf40e3585, 0x106aa070]
    case 6 => [0x19a4c116, 0x1e376c08, 0x2748774c, 0x34b0bcb5, 0x391c0cb3, 0x4ed8aa4a, 0x5b9cca4f, 0x682e6ff3]
    case _ => [0x748f82ee, 0x78a5636f, 0x84c87814, 0x8cc70208, 0x90befffa, 0xa4506ceb, 0xbef9a3f7, 0xc67178f2]
  }

  function RoundConstants(): (ks: seq<Word>)
    ensures |ks| == 64
  {
    ToWords(ConstantRow(0) + ConstantRow(1) + ConstantRow(2) + ConstantRow(3)
            + ConstantRow(4) + ConstantRow(5) + ConstantRow(6) + ConstantRow(7))
  }

  /** Section 5.3.3. */
  function InitialRow(): (row: seq<uint32>)
    ensures |row| == 8
  {
    [0x6a09e667, 0xbb67ae85, 0x3c6ef372, 0xa54ff53a, 0x510e527f, 0x9b05688c, 0x1f83d9ab, 0x5be0cd19]
  }

  function InitialHash(): (h: seq<Word>)
    ensures |h| == 8
  {
    ToWords(InitialRow())
  }

  /** Section 3.2: rotation and shift to the right. */
  function Rotr(x: Word, n: bv6): Word
    requires 0 < n < 32
  {
    (x >> n) | (x << (32 - n))
  }

  function Shr(x: Word, n: bv6): Word
    requires n < 32
  {
    x >> n
  }

  /** Section 3.2: addition modulo 2^32. */
  function Add(x: Word, y: Word): Word { x + y }
  function Sum4(w: Word, x: Word, y: Word, z: Word): Word { w + x + y + z }
  function Sum5(v: Word, w: Word, x: Word, y: Word, z: Word): Word { v + w + x + y + z }

  function Xor3(x: Word, y: Word, z: Word): Word { x ^ y ^ z }

  // Section 4.1.2.
  function Ch(x: Word, y: Word, z: Word): Word { (x & y) ^ (!x & z) }
  function Maj(x: Word, y: Word, z: Word): Word { (x & y) ^ (x & z) ^ (y & z) }
  function BigSigma0(x: Word): Word { Xor3(Rotr(x, 2), Rotr(x, 13), Rotr(x, 22)) }
  function BigSigma1(x: Word): Word { Xor3(Rotr(x, 6), Rotr(x, 11), Rotr(x, 25)) }
  function SmallSigma0(x: Word): Word { Xor3(Rotr(x, 7), Rotr(x, 18), Shr(x, 3)) }
  function SmallSigma1(x: Word): Word { Xor3(Rotr(x, 17), Rotr(x, 19), Shr(x, 10)) }

  /** Section 3.1: four bytes, the most significant first. */
  function ToWord(b0: Byte, b1: Byte, b2: Byte, b3: Byte): Word {
    (b0 as Word << 24) | (b1 as Word << 16) | (b2 as Word << 8) | (b3 as Word)
  }

  /** Section 6.2.2, step 1: the t-th word of the message schedule. */
  function Schedule(block: seq<Byte>, t: nat): Word
    requires |block| == BLOCK
    decreases t
  {
    if t < 16 then ToWord(block[4 * t], block[4 * t + 1], block[4 * t + 2], block[4 * t + 3])
    else
      Sum4(SmallSigma1(Schedule(block, t - 2)), Schedule(block, t - 7),
           SmallSigma0(Schedule(block, t - 15)), Schedule(block, t - 16))
  }

  /** The eight working variables. */
  datatype Work = Work(a: Word, b: Word, c: Word, d: Word, e: Word, f: Word, g: Word, h: Word)

  /** Section 6.2.2, step 3: one round with round constant `k` and schedule word `w`. */
  function Round(v: Work, k: Word, w: Word): Work {
    var t1 := Sum5(v.h, BigSigma1(v.e), Ch(v.e, v.f, v.g), k, w);
    var t2 := Add(BigSigma0(v.a), Maj(v.a, v.b, v.c));
    Work(Add(t1, t2), v.a, v.b, v.c, Add(v.d, t1), v.e, v.f, v.g)
  }

  /** The working variables after the rounds that use the constants `ks`. */
  function Rounds(v: Work, block: seq<Byte>, ks: seq<Word>): Work
    requires |block| == BLOCK
    decreases |ks|
  {
    if ks == [] then v
    else
      var t := |ks| - 1;
      Round(Rounds(v, block, ks[..t]), ks[t], Schedule(block, t))
  }

  /** Section 6.2.2, step 2: the hash value as working variables. */
  function ToWork(h: seq<Word>): Work
    requires |h| == 8
  {
    Work(h[0], h[1], h[2], h[3], h[4], h[5], h[6], h[7])
  }

  /** The i-th working variable. */
  function Part(v: Work, i: nat): Word
    requires i < 8
  {
    match i
    case 0 => v.a case 1 => v.b case 2 => v.c case 3 => v.d
    case 4 => v.e case 5 => v.f case 6 => v.g case _ => v.h
  }

  /** Section 6.2.2, step 4: each hash word plus its working variable. */
  function AddWork(h: seq<Word>, v: Work): (r: seq<Word>)
    requires |h| == 8
    ensures |r| == 8
  {
    seq(8, i requires 0 <= i < 8 => Add(h[i], Part(v, i)))
  }

  /** Section 6.2.2: the next intermediate hash value. */
  function Compress(h: seq<Word>, block: seq<Byte>): (r: seq<Word>)
    requires |h| == 8 && |block| == BLOCK
    ensures |r| == 8
  {
    AddWork(h, Rounds(ToWork(h), block, RoundConstants()))
  }

  /** A text that can be cut into 64-byte blocks. */
  predicate WholeBlocks(text: seq<Byte>) {
    |text| % BLOCK == 0
  }

  /** Section 6.2.2: the intermediate hash value after every block of a padded text. */
  function HashBlocks(text: seq<Byte>): (h: seq<Word>)
    requires WholeBlocks(text)
    ensures |h| == 8
    decreases |text|
  {
    if text == [] then InitialHash()
    else
      var n := |text| - BLOCK;
      Compress(HashBlocks(text[..n]), text[n..])
  }

  function LowByte(n: nat): Byte { (n % 256) as Byte }

  /** A number as `count` bytes, the most significant first, modulo 256^count. */
  function BigEndian(n: nat, count: nat): (s: seq<Byte>)
    ensures |s| == count
  {
    if count == 0 then [] else BigEndian(n / 256, count - 1) + [LowByte(n)]
  }

  function Zeros(n: nat): (s: seq<Byte>)
    ensures |s| == n && forall i :: 0 <= i < n ==> s[i] == 0
  {
    seq(n, _ => 0)
  }

  /** Section 5.1.1: the number of zero bytes that fill the last block up to the length field. */
  function ZeroCount(n: nat): (k: nat)
    ensures k < BLOCK && (n + 1 + k + 8) % BLOCK == 0
  {
    (2 * BLOCK - 9 - n % BLOCK) % BLOCK
  }

  /** Section 5.1.1: a one bit, zero bits, and the message length in bits as 64 bits. */
  function Pad(msg: seq<Byte>): (p: seq<Byte>)
    ensures WholeBlocks(p)
  {
    msg + [0x80] + Zeros(ZeroCount(|msg|)) + BigEndian(8 * |msg|, 8)
  }

  function WordBytes(w: Word): (s: seq<Byte>)
    ensures |s| == 4
  {
    [((w >> 24) & 0xFF) as Byte, ((w >> 16) & 0xFF) as Byte, ((w >> 8) & 0xFF) as Byte, (w & 0xFF) as Byte]
  }

  /** The concatenated bytes of a sequence of words. */
  function WordsBytes(ws: seq<Word>): (s: seq<Byte>)
    ensures |s| == 4 * |ws|
  {
    if ws == [] then [] else WordsBytes(ws[..|ws| - 1]) + WordBytes(ws[|ws| - 1])
  }

  /** The SHA-256 digest of a message. */
  function Sha256(msg: seq<Byte>): (digest: seq<Byte>)
    ensures |digest| == 32
  {
    WordsBytes(HashBlocks(Pad(msg)))
  }
}
