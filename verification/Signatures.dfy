/**
 HMAC-SHA256 and the A2A request signatures built on it.

 `Hmac` is section 2 of RFC 2104 with SHA-256 as the hash; the methods follow the adapter's code.
 C strings are byte sequences without a NUL.
 */
module Signatures {
  import opened Sha256Spec
  import opened Sha256Incremental

  // ---------------------------------------------------------------- hashing a list of pieces

  function Join(parts: seq<seq<Byte>>): seq<Byte> {
    if parts == [] then [] else Join(parts[..|parts| - 1]) + parts[|parts| - 1]
  }

  /** One context, one update per piece, one final: the hash of the concatenation. */
  method HashPieces(parts: seq<seq<Byte>>) returns (digest: seq<Byte>)
    ensures digest == Sha256(Join(parts))
  {
    hide HashBlocks, Sha256, BitCount;
    var c := new Context();
    for i := 0 to |parts|
      invariant c.Valid() && c.Absorbed() == Join(parts[..i])
      invariant fresh(c) && fresh(c.state) && fresh(c.data)
    {
      c.Update(parts[i]);
      assert parts[..i + 1][..i] == parts[..i];
    }
    assert parts[..|parts|] == parts;
    digest := c.Final();
  }

  // ---------------------------------------------------------------- HMAC

  function XorAll(key: seq<Byte>, pad: Byte): (r: seq<Byte>)
    ensures |r| == |key|
  {
    seq(|key|, i requires 0 <= i < |key| => key[i] ^ pad)
  }

  /** RFC 2104, section 2: a key longer than a block is hashed first; then zeros fill the block. */
  function BlockKey(key: seq<Byte>): (k: seq<Byte>)
    ensures |k| == BLOCK
  {
    var short := if |key| > BLOCK then Sha256(key) else key;
    short + Zeros(BLOCK - |short|)
  }

  /** RFC 2104, section 2: H(K xor opad, H(K xor ipad, text)). */
  function Hmac(key: seq<Byte>, text: seq<Byte>): (mac: seq<Byte>)
    ensures |mac| == 32
  {
    var k := BlockKey(key);
    Sha256(XorAll(k, 0x5c) + Sha256(XorAll(k, 0x36) + text))
  }

  method HashTwo(first: seq<Byte>, second: seq<Byte>) returns (digest: seq<Byte>)
    ensures digest == Sha256(first + second)
  {
    hide HashBlocks, Sha256, BitCount;
    var c := new Context();
    c.Update(first);
    c.Update(second);
    assert [] + first + second == first + second;
    digest := c.Final();
  }

  /** Copies or hashes the key into a zeroed block. */
  method PrepareKey(key: seq<Byte>) returns (k: seq<Byte>)
    ensures k == BlockKey(key)
  {
    hide HashBlocks, Sha256;
    var block := new Byte[64](_ => 0);
    var start := key;
    if |key| > 64 {
      start := HashTwo(key, []);
      assert key + [] == key;
    }
    forall i | 0 <= i < |start| {
      block[i] := start[i];
    }
    k := block[..];
    assert k == start + Zeros(64 - |start|);
  }

  lemma ZeroXor()
    ensures 0 as Byte ^ 0x36 == 0x36 && 0 as Byte ^ 0x5c == 0x5c
  {
  }

  /**
   Section 2 of RFC 2104 spelled out for a key of at most a block: inside, the key bytes are combined
   with 0x36 and the rest of the block is 0x36; outside, the same with 0x5c.
   */
  lemma HmacPads(key: seq<Byte>, text: seq<Byte>, inner: seq<Byte>, outer: seq<Byte>)
    requires |key| <= 64 && |inner| == 64 && |outer| == 64
    requires forall i :: 0 <= i < |key| ==> inner[i] == key[i] ^ 0x36 && outer[i] == key[i] ^ 0x5c
    requires forall i :: |key| <= i < 64 ==> inner[i] == 0x36 && outer[i] == 0x5c
    ensures Hmac(key, text) == Sha256(outer + Sha256(inner + text))
  {
    hide Sha256;
    var k := key + Zeros(64 - |key|);
    assert BlockKey(key) == k;
    ZeroXor();
    assert XorAll(k, 0x36) == inner && XorAll(k, 0x5c) == outer;
  }

  /** A longer key is replaced by its digest. */
  lemma HmacLongKey(key: seq<Byte>, text: seq<Byte>)
    requires |key| > 64
    ensures Hmac(key, text) == Hmac(Sha256(key), text)
  {
    hide Sha256;
  }

  method ComputeHmac(key: seq<Byte>, msg: seq<Byte>) returns (mac: seq<Byte>)
    ensures mac == Hmac(key, msg)
  {
    hide HashBlocks, Sha256, BlockKey;
    var k := PrepareKey(key);
    var ipad, opad := new Byte[64], new Byte[64];
    for i := 0 to 64
      invariant forall j :: 0 <= j < i ==> ipad[j] == k[j] ^ 0x36 && opad[j] == k[j] ^ 0x5c
    {
      ipad[i] := k[i] ^ 0x36;
      opad[i] := k[i] ^ 0x5c;
    }
    assert ipad[..] == XorAll(k, 0x36);
    assert opad[..] == XorAll(k, 0x5c);
    var inner := HashTwo(ipad[..], msg);
    mac := HashTwo(opad[..], inner);
  }

  // ---------------------------------------------------------------- hex text

  /** The lowercase hexadecimal digit of a number below 16, as a byte. */
  function HexDigit(n: Byte): Byte
    requires n < 16
  {
    if n < 10 then 48 + n else 87 + n
  }

  function HighDigit(b: Byte): Byte { HexDigit(b >> 4) }

  function LowDigit(b: Byte): Byte { HexDigit(b & 0x0F) }

  function Hex(data: seq<Byte>): (s: seq<Byte>)
    ensures |s| == 2 * |data|
  {
    if data == [] then []
    else
      var n := |data| - 1;
      Hex(data[..n]) + [HighDigit(data[n]), LowDigit(data[n])]
  }

  /** The high digit of a byte comes before its low digit, and bytes keep their order. */
  lemma HexOfTwo(a: Byte, b: Byte)
    ensures Hex([a, b]) == [HighDigit(a), LowDigit(a), HighDigit(b), LowDigit(b)]
  {
    hide HighDigit, LowDigit;
    assert [a, b][..1] == [a] && [a][..0] == [];
    assert Hex([a]) == Hex([]) + [HighDigit(a), LowDigit(a)];
  }

  /** The digits are 0 to 9 and a to f. */
  lemma HexDigits()
    ensures HexDigit(0) == '0' as Byte && HexDigit(1) == '1' as Byte && HexDigit(2) == '2' as Byte
    ensures HexDigit(3) == '3' as Byte && HexDigit(4) == '4' as Byte && HexDigit(5) == '5' as Byte
    ensures HexDigit(6) == '6' as Byte && HexDigit(7) == '7' as Byte && HexDigit(8) == '8' as Byte
    ensures HexDigit(9) == '9' as Byte && HexDigit(10) == 'a' as Byte && HexDigit(11) == 'b' as Byte
    ensures HexDigit(12) == 'c' as Byte && HexDigit(13) == 'd' as Byte && HexDigit(14) == 'e' as Byte
    ensures HexDigit(15) == 'f' as Byte
    ensures Hex([0x0f, 0xa5]) == ['0' as Byte, 'f' as Byte, 'a' as Byte, '5' as Byte]
  {
    HexOfTwo(0x0f, 0xa5);
    assert HighDigit(0x0f) == 48 && LowDigit(0x0f) == 102 && HighDigit(0xa5) == 97 && LowDigit(0xa5) == 53;
  }

  lemma HexDigitInjective(x: Byte, y: Byte)
    requires HighDigit(x) == HighDigit(y) && LowDigit(x) == LowDigit(y)
    ensures x == y
  {
  }

  /** Hexadecimal text determines the bytes. */
  lemma {:induction false} HexInjective(a: seq<Byte>, b: seq<Byte>)
    requires |a| == |b| && Hex(a) == Hex(b)
    ensures a == b
  {
    if a != [] {
      hide HighDigit, LowDigit;
      var n := |a| - 1;
      var ha, hb := Hex(a), Hex(b);
      assert ha[..2 * n] == Hex(a[..n]) && hb[..2 * n] == Hex(b[..n]);
      assert ha[2 * n] == HighDigit(a[n]) && ha[2 * n + 1] == LowDigit(a[n]);
      assert hb[2 * n] == HighDigit(b[n]) && hb[2 * n + 1] == LowDigit(b[n]);
      HexInjective(a[..n], b[..n]);
      HexDigitInjective(a[n], b[n]);
      assert a == a[..n] + [a[n]] && b == b[..n] + [b[n]];
    }
  }

  /** How many of `n` bytes are encoded into a field of `outSize` bytes: two digits each and a terminator. */
  function EncodedCount(n: nat, outSize: nat): (k: nat)
    ensures k <= n && (2 * n < outSize ==> k == n)
  {
    if outSize == 0 then 0 else if (outSize - 1) / 2 < n then (outSize - 1) / 2 else n
  }

  method PutDigits(out: array<Byte>, at: nat, b: Byte)
    requires at + 2 <= out.Length
    modifies out
    ensures out[..at + 2] == old(out[..at]) + [HighDigit(b), LowDigit(b)]
    ensures forall i :: at + 2 <= i < out.Length ==> out[i] == old(out[i])
  {
    hide HighDigit, LowDigit;
    ghost var before := out[..at];
    out[at] := HighDigit(b);
    out[at + 1] := LowDigit(b);
    assert out[..at + 2] == before + [HighDigit(b), LowDigit(b)];
  }

  /**
   Encodes as many bytes as fit the declared size. The terminator goes after the digits of all the
   bytes, even where they do not fit and it falls outside the field.
   */
  method HexEncode(data: seq<Byte>, out: array<Byte>, outSize: nat)
    requires 2 * |data| < out.Length
    modifies out
    ensures var k := EncodedCount(|data|, outSize);
            && out[..2 * k] == Hex(data[..k]) && out[2 * |data|] == 0
            && forall i :: 2 * k <= i < out.Length && i != 2 * |data| ==> out[i] == old(out[i])
  {
    hide HighDigit, LowDigit;
    var i := 0;
    while i < |data| && 2 * i + 2 < outSize
      invariant i <= EncodedCount(|data|, outSize) && out[..2 * i] == Hex(data[..i])
      invariant forall j :: 2 * i <= j < out.Length ==> out[j] == old(out[j])
    {
      PutDigits(out, 2 * i, data[i]);
      assert data[..i + 1][..i] == data[..i];
      i := i + 1;
    }
    ghost var digits := out[..2 * i];
    out[2 * |data|] := 0;
    assert out[..2 * i] == digits;
  }

  /** A digest as text, in a field that holds it. */
  method HexText(data: seq<Byte>) returns (text: seq<Byte>)
    ensures text == Hex(data)
  {
    hide Hex;
    var out := new Byte[2 * |data| + 1];
    HexEncode(data, out, 2 * |data| + 1);
    assert data[..|data|] == data;
    text := out[..2 * |data|];
  }

  const TOKEN_FIELD: nat := 64

  /**
   A token's text is a digest encoded into a wiped field of 64 bytes, one too few: the last byte of
   the digest is dropped and the terminator is written to the byte after the field.
   */
  method TokenText(digest: seq<Byte>) returns (text: seq<Byte>, beyond: Byte)
    requires |digest| == 32
    ensures text == Hex(digest[..31]) && |text| == 62 && beyond == 0
  {
    hide Hex;
    var out := new Byte[TOKEN_FIELD + 1](_ => 0);
    HexEncode(digest, out, TOKEN_FIELD);
    text, beyond := out[..62], out[TOKEN_FIELD];
  }

  // ---------------------------------------------------------------- comparison

  lemma NoDifference(diff: Byte, a: Byte, b: Byte)
    ensures diff | (a ^ b) == 0 <==> diff == 0 && a == b
  {
  }

  /** The constant-time comparison: accumulates the differences of the first `len` bytes. */
  method ConstTimeEq(a: seq<Byte>, b: seq<Byte>, len: nat) returns (equal: bool)
    requires len <= |a| && len <= |b|
    ensures equal <==> a[..len] == b[..len]
  {
    var diff: Byte := 0;
    for i := 0 to len
      invariant diff == 0 <==> a[..i] == b[..i]
    {
      NoDifference(diff, a[i], b[i]);
      diff := diff | (a[i] ^ b[i]);
      assert a[..i + 1] == a[..i] + [a[i]] && b[..i + 1] == b[..i] + [b[i]];
    }
    equal := diff == 0;
  }

  // ---------------------------------------------------------------- signing

  datatype Signature = Rejected | Signed(text: seq<Byte>)

  const SIGN_BUFFER: nat := 4096
  const BAR: Byte := 0x7C

  /** The text that is signed: method, parameters and token separated by bars. */
  function SignData(name: seq<Byte>, params: seq<Byte>, token: seq<Byte>): seq<Byte> {
    name + [BAR] + params + [BAR] + token
  }

  /** The signed text of a request "m" with parameters "p" and token "t" is "m|p|t". */
  lemma SignedText()
    ensures SignData(['m' as Byte], ['p' as Byte], ['t' as Byte])
            == ['m' as Byte, '|' as Byte, 'p' as Byte, '|' as Byte, 't' as Byte]
  {
  }

  predicate UsableSecret(secret: seq<Byte>) { 1 <= |secret| <= 64 }

  function Mix(h: Word, b: Byte): Word { ((h << 5) + h) + (b as Word) }

  /** The 32-bit hash the adapter falls back on: h * 33 + byte, from 5381, with wrap-around. */
  function SimpleHash(data: seq<Byte>): Word {
    if data == [] then 5381
    else Mix(SimpleHash(data[..|data| - 1]), data[|data| - 1])
  }

  method ComputeSimpleHash(data: seq<Byte>) returns (hash: Word)
    ensures hash == SimpleHash(data)
  {
    hide Mix;
    hash := 5381;
    for i := 0 to |data|
      invariant hash == SimpleHash(data[..i])
    {
      hash := Mix(hash, data[i]);
      assert data[..i + 1][..i] == data[..i];
    }
    assert data[..|data|] == data;
  }

  /** The hash of "a" is 33 * 5381 + 97. */
  lemma SimpleHashOfA()
    ensures SimpleHash([0x61]) == 177670
  {
    assert [0x61 as Byte][..0] == [];
    assert Mix(5381, 0x61) == 177670;
  }

  /** The fallback signature: 32 hexadecimal digits, half as many as an HMAC has. */
  function WeakText(hash: Word): (text: seq<Byte>)
    ensures |text| == 32
  {
    Hex(WordBytes(hash)) + Hex(WordBytes(hash ^ 0xA5A5A5A5))
    + Hex(WordBytes(hash ^ 0x5A5A5A5A)) + Hex(WordBytes(hash ^ 0x12345678))
  }

  /** Signs a request; a text or a buffer that does not fit is refused. */
  method SignRequest(secret: seq<Byte>, name: seq<Byte>, params: seq<Byte>, token: seq<Byte>, bufSize: nat)
    returns (r: Signature)
    ensures var data := SignData(name, params, token);
            r == if bufSize < 65 || |data| >= SIGN_BUFFER then Rejected
                 else if UsableSecret(secret) then Signed(Hex(Hmac(secret, data)))
                 else Signed(WeakText(SimpleHash(data)))
  {
    hide Hmac, Hex, SimpleHash, WeakText;
    if bufSize < 65 {
      return Rejected;
    }
    var data := SignData(name, params, token);
    if |data| >= SIGN_BUFFER {
      return Rejected;
    }
    if UsableSecret(secret) {
      var mac := ComputeHmac(secret, data);
      var text := HexText(mac);
      return Signed(text);
    }
    var hash := ComputeSimpleHash(data);
    return Signed(WeakText(hash));
  }

  /**
   Accepts exactly the signatures that start with the hexadecimal HMAC of the request, and nothing
   without a usable secret: the fallback text ends inside the 64 bytes compared, where a C string of
   64 bytes or more has no NUL. `stack` is what the 65-byte buffer held before.
   */
  method VerifySignature(secret: seq<Byte>, name: seq<Byte>, params: seq<Byte>, token: seq<Byte>,
                         signature: seq<Byte>, stack: seq<Byte>) returns (accepted: bool)
    requires 0 !in signature && |stack| == 65
    ensures accepted <==>
              && UsableSecret(secret)
              && |SignData(name, params, token)| < SIGN_BUFFER
              && |signature| >= 64
              && signature[..64] == Hex(Hmac(secret, SignData(name, params, token)))
  {
    hide Hmac, Hex, SimpleHash, WeakText;
    var expected := SignRequest(secret, name, params, token, 65);
    if expected.Rejected? || |signature| < 64 {
      return false;
    }
    var buffer := expected.text + [0] + stack[|expected.text| + 1..];
    accepted := ConstTimeEq(buffer, signature, 64);
    if UsableSecret(secret) {
      assert buffer[..64] == expected.text;
    } else {
      assert buffer[..64][32] == 0 && signature[..64][32] == signature[32];
    }
  }
}
