/**
 C string behaviour that the protocol code relies on.

 Text is a `string` in which one `char` stands for one byte. Nothing below depends on a
 character being at most 255, so every statement covers all byte strings.
 */
module CText {

  datatype Option<+T> = None | Some(value: T)

  const ULONG_MAX: nat := 0xFFFF_FFFF_FFFF_FFFF
  const LONG_MAX: nat := 0x7FFF_FFFF_FFFF_FFFF
  const LONG_MIN: int := -0x8000_0000_0000_0000
  const INT_MAX: nat := 0x7FFF_FFFF
  const INT_MIN: int := -0x8000_0000

  /** What a C string function sees of a buffer: everything before the first NUL. */
  function CString(s: string): (r: string)
    ensures r <= s && '\0' !in r
    ensures |r| < |s| ==> s[|r|] == '\0'
    ensures '\0' !in s ==> r == s
  {
    if s == "" || s[0] == '\0' then "" else [s[0]] + CString(s[1..])
  }

  /** The first `limit` bytes of a text, as snprintf into a buffer of `limit + 1` bytes keeps them. */
  function Truncate(s: string, limit: nat): (r: string)
    ensures r <= s && |r| == (if |s| <= limit then |s| else limit)
    ensures |s| <= limit ==> r == s
  {
    if |s| <= limit then s else s[..limit]
  }

  /** strncmp(a, b, n) == 0, byte by byte, stopping at a shared terminator. */
  predicate StrnEqual(a: string, b: string, n: nat)
    decreases n
  {
    if n == 0 then true
    else if a == "" || b == "" then a == "" && b == ""
    else a[0] == b[0] && StrnEqual(a[1..], b[1..], n - 1)
  }

  lemma TruncateStep(s: string, n: nat)
    requires s != "" && n > 0
    ensures var t := Truncate(s, n);
            t != "" && t[0] == s[0] && t[1..] == Truncate(s[1..], n - 1)
            && t == [s[0]] + Truncate(s[1..], n - 1)
  {
  }

  /** On C strings, strncmp over n bytes compares exactly the first n bytes. */
  lemma {:induction false} StrnEqualIsPrefixEquality(a: string, b: string, n: nat)
    ensures StrnEqual(a, b, n) <==> Truncate(a, n) == Truncate(b, n)
    decreases n
  {
    if n == 0 || a == "" || b == "" {
    } else {
      hide Truncate;
      StrnEqualIsPrefixEquality(a[1..], b[1..], n - 1);
      TruncateStep(a, n);
      TruncateStep(b, n);
    }
  }

  // ---------------------------------------------------------------- substring search

  /** Whether `pat` occurs in `s` at offset `i`. */
  predicate OccursAt(pat: string, s: string, i: int) {
    0 <= i && i + |pat| <= |s| && s[i..i + |pat|] == pat
  }

  function FindFrom(pat: string, s: string, i: nat): (r: Option<nat>)
    requires i <= |s|
    ensures r.Some? ==> i <= r.value && r.value + |pat| <= |s|
    decreases |s| - i
  {
    if OccursAt(pat, s, i) then Some(i)
    else if i < |s| then FindFrom(pat, s, i + 1)
    else None
  }

  /** strstr: the offset of the first occurrence of `pat`. */
  function Find(pat: string, s: string): (r: Option<nat>)
    ensures r.Some? ==> r.value + |pat| <= |s|
  {
    FindFrom(pat, s, 0)
  }

  /** What a search tells: nothing matches before the offset found. */
  lemma {:induction false} FindFromFirst(pat: string, s: string, i: nat)
    requires i <= |s|
    ensures var r := FindFrom(pat, s, i);
            match r
            case None => forall j :: i <= j ==> !OccursAt(pat, s, j)
            case Some(k) => OccursAt(pat, s, k) && forall j :: i <= j < k ==> !OccursAt(pat, s, j)
    decreases |s| - i
  {
    if !OccursAt(pat, s, i) && i < |s| {
      FindFromFirst(pat, s, i + 1);
    }
  }

  /** And back: an occurrence with nothing before it is the one found. */
  lemma {:induction false} FoundAt(pat: string, s: string, i: nat, k: nat)
    requires i <= k && OccursAt(pat, s, k)
    requires forall j :: i <= j < k ==> !OccursAt(pat, s, j)
    ensures FindFrom(pat, s, i) == Some(k)
    decreases k - i
  {
    if i < k {
      FoundAt(pat, s, i + 1, k);
    }
  }

  lemma NotFound(pat: string, s: string, i: nat)
    requires i <= |s| && forall j :: i <= j ==> !OccursAt(pat, s, j)
    ensures FindFrom(pat, s, i).None?
  {
    FindFromFirst(pat, s, i);
  }

  /** A pattern cannot start where its first character does not stand. */
  lemma NoOccurrence(pat: string, s: string, lo: nat, hi: nat)
    requires pat != "" && hi <= |s|
    requires forall j :: lo <= j < hi ==> s[j] != pat[0]
    ensures forall j :: lo <= j < hi ==> !OccursAt(pat, s, j)
  {
    forall j | lo <= j < hi && j + |pat| <= |s|
      ensures !OccursAt(pat, s, j)
    {
      assert s[j..j + |pat|][0] == s[j];
    }
  }

  // ---------------------------------------------------------------- decimal numbers

  predicate IsDigit(c: char) { '0' <= c <= '9' }

  predicate AllDigits(s: string) { forall i :: 0 <= i < |s| ==> IsDigit(s[i]) }

  function DigitValue(c: char): (d: nat)
    requires IsDigit(c)
    ensures d < 10
  {
    (c - '0') as nat
  }

  function DigitChar(d: nat): (c: char)
    requires d < 10
    ensures IsDigit(c) && DigitValue(c) == d
  {
    '0' + d as char
  }

  /** printf("%zu"), printf("%llu"). */
  function Decimal(n: nat): (s: string)
    ensures |s| > 0 && AllDigits(s)
  {
    if n < 10 then [DigitChar(n)] else Decimal(n / 10) + [DigitChar(n % 10)]
  }

  /** printf("%d"). */
  function SignedDecimal(n: int): (s: string)
    ensures |s| > 0
    ensures forall c :: c in s ==> c == '-' || IsDigit(c)
  {
    if n < 0 then "-" + Decimal(-n) else Decimal(n)
  }

  /** The number a run of digits denotes. */
  function Value(s: string): nat
    requires AllDigits(s)
  {
    if s == "" then 0 else Value(s[..|s| - 1]) * 10 + DigitValue(s[|s| - 1])
  }

  /** The digits a text starts with. */
  function LeadingDigits(s: string): (r: string)
    ensures r <= s && AllDigits(r)
    ensures |r| < |s| ==> !IsDigit(s[|r|])
  {
    if s == "" || !IsDigit(s[0]) then "" else [s[0]] + LeadingDigits(s[1..])
  }

  lemma {:induction false} DecimalValue(n: nat)
    ensures Value(Decimal(n)) == n
  {
    if n >= 10 {
      DecimalValue(n / 10);
      var s := Decimal(n);
      assert s[..|s| - 1] == Decimal(n / 10);
    }
  }

  function Pow10(k: nat): (p: nat)
    ensures p > 0
  {
    if k == 0 then 1 else 10 * Pow10(k - 1)
  }

  lemma Scale(x: nat, y: nat)
    ensures 10 * (x * y) == (10 * x) * y
  {
  }

  lemma {:induction false} Pow10Sum(a: nat, b: nat)
    ensures Pow10(a + b) == Pow10(a) * Pow10(b)
  {
    if a > 0 {
      Pow10Sum(a - 1, b);
      Scale(Pow10(a - 1), Pow10(b));
    }
  }

  /** A number below 10^k prints in at most k digits. */
  lemma {:induction false} DecimalLength(n: nat, k: nat)
    requires n < Pow10(k) && k > 0
    ensures |Decimal(n)| <= k
  {
    if n >= 10 {
      assert k > 1;
      DecimalLength(n / 10, k - 1);
    }
  }

  lemma {:induction false} LeadingDigitsOf(d: string, rest: string)
    requires AllDigits(d)
    requires rest == "" || !IsDigit(rest[0])
    ensures LeadingDigits(d + rest) == d
  {
    if d == "" {
      assert d + rest == rest;
    } else {
      assert (d + rest)[1..] == d[1..] + rest;
      LeadingDigitsOf(d[1..], rest);
    }
  }

  // ---------------------------------------------------------------- strtoul and strtol

  predicate IsSpace(c: char) { c == ' ' || '\t' <= c <= '\r' }

  function SkipSpace(s: string): string {
    if s != "" && IsSpace(s[0]) then SkipSpace(s[1..]) else s
  }

  /** The sign and digits that strtol and strtoul recognise, after leading white space. */
  function Numeral(s: string): (bool, nat) {
    var t := SkipSpace(s);
    if t != "" && t[0] == '-' then (true, Value(LeadingDigits(t[1..])))
    else if t != "" && t[0] == '+' then (false, Value(LeadingDigits(t[1..])))
    else (false, Value(LeadingDigits(t)))
  }

  /** strtoul and strtoull, base 10: saturating, with a negative sign taken modulo 2^64. */
  function StrToUL(s: string): (r: nat)
    ensures r <= ULONG_MAX
  {
    var (neg, v) := Numeral(s);
    if v > ULONG_MAX then ULONG_MAX
    else if neg && v != 0 then ULONG_MAX + 1 - v
    else v
  }

  /** strtol and atol, base 10: saturating at both ends of a 64-bit long. */
  function StrToL(s: string): (r: int)
    ensures LONG_MIN <= r <= LONG_MAX
  {
    var (neg, magnitude) := Numeral(s);
    var v: int := magnitude;
    if neg then (if v > LONG_MAX + 1 then LONG_MIN else -v)
    else if v > LONG_MAX then LONG_MAX else v
  }

  /** A printed number followed by a non-digit reads back as itself. */
  lemma NumeralOfDecimal(n: nat, rest: string)
    requires rest == "" || !IsDigit(rest[0])
    ensures Numeral(Decimal(n) + rest) == (false, n)
  {
    hide Value, Decimal, LeadingDigits;
    var d := Decimal(n);
    DecimalValue(n);
    LeadingDigitsOf(d, rest);
    assert IsDigit((d + rest)[0]);
  }

  /** The same for a printed negative number. */
  lemma NumeralOfNegative(n: nat, rest: string)
    requires rest == "" || !IsDigit(rest[0])
    ensures Numeral("-" + Decimal(n) + rest) == (true, n)
  {
    hide Value, Decimal, LeadingDigits;
    var d := Decimal(n);
    DecimalValue(n);
    LeadingDigitsOf(d, rest);
    var u := "-" + d + rest;
    assert u[0] == '-' && u[1..] == d + rest;
  }

  /** A sign as strtol accepts it. */
  predicate IsSign(sign: string) { sign == "" || sign == "+" || sign == "-" }

  lemma {:induction false} SpaceSkipped(space: string, rest: string)
    requires (forall i :: 0 <= i < |space| ==> IsSpace(space[i])) && (rest == "" || !IsSpace(rest[0]))
    ensures SkipSpace(space + rest) == rest
  {
    if space == "" {
      assert space + rest == rest;
    } else {
      assert (space + rest)[1..] == space[1..] + rest;
      SpaceSkipped(space[1..], rest);
    }
  }

  lemma SignedNumeral(space: string, sign: string, n: nat, rest: string)
    requires (forall i :: 0 <= i < |space| ==> IsSpace(space[i])) && IsSign(sign)
    requires rest == "" || !IsDigit(rest[0])
    ensures Numeral(space + sign + Decimal(n) + rest) == (sign == "-", n)
  {
    hide Value, Decimal, LeadingDigits, SkipSpace;
    var d := Decimal(n);
    var t := sign + d + rest;
    DecimalValue(n);
    LeadingDigitsOf(d, rest);
    assert IsDigit(d[0]);
    assert space + sign + d + rest == space + t;
    if sign == "" {
      assert t == d + rest;
      assert t[0] == d[0];
    } else {
      assert t == sign + (d + rest);
      assert t[0] == sign[0] && t[1..] == d + rest;
    }
    SpaceSkipped(space, t);
  }

  /**
   What strtoul and strtol make of white space, an optional sign, a number and anything after it:
   strtoul saturates at 2^64 - 1 and takes a negative number modulo 2^64, strtol saturates at both
   ends of 64 bits.
   */
  lemma NumberTexts(space: string, sign: string, n: nat, rest: string)
    requires (forall i :: 0 <= i < |space| ==> IsSpace(space[i])) && IsSign(sign)
    requires rest == "" || !IsDigit(rest[0])
    ensures var text := space + sign + Decimal(n) + rest;
            && StrToUL(text) == (if n >= 0x1_0000_0000_0000_0000 then 0xFFFF_FFFF_FFFF_FFFF
                                 else if sign == "-" && n > 0 then 0x1_0000_0000_0000_0000 - n else n)
            && StrToL(text) == (if sign == "-" then (if n > 0x8000_0000_0000_0000 then LONG_MIN else 0 - n)
                                else if n > 0x7FFF_FFFF_FFFF_FFFF then 0x7FFF_FFFF_FFFF_FFFF else n)
  {
    hide Numeral, Decimal;
    SignedNumeral(space, sign, n, rest);
  }
}
