/**
 Where the SHA-256 constants come from: sections 4.2.2 and 5.3.3 of FIPS 180-4 define them as the
 first 32 bits of the fractional parts of cube roots and square roots of the first primes.
 */
module Sha256Constants {
  import opened Sha256Spec

  const TWO_32: nat := 0x1_0000_0000

  /** The first 64 prime numbers, in rows of eight. */
  function PrimeRow(r: nat): (row: seq<nat>)
    requires r < 8
    ensures |row| == 8
  {
    match r
    case 0 => [2, 3, 5, 7, 11, 13, 17, 19]
    case 1 => [23, 29, 31, 37, 41, 43, 47, 53]
    case 2 => [59, 61, 67, 71, 73, 79, 83, 89]
    case 3 => [97, 101, 103, 107, 109, 113, 127, 131]
    case 4 => [137, 139, 149, 151, 157, 163, 167, 173]
    case 5 => [179, 181, 191, 193, 197, 199, 211, 223]
    case 6 => [227, 229, 233, 239, 241, 251, 257, 263]
    case _ => [269, 271, 277, 281, 283, 293, 307, 311]
  }

  // ---------------------------------------------------------------- the rows are the primes

  function Product(a: nat, b: nat): nat { a * b }

  ghost predicate Prime(n: nat) {
    n >= 2 && forall a, b :: 2 <= a && 2 <= b ==> Product(a, b) != n
  }

  predicate Divides(d: nat, n: nat)
    requires d > 0
  {
    d < n && n % d == 0
  }

  /** Trial division by the primes up to 17, enough below 19 * 19. */
  predicate NoSmallDivisor(n: nat) {
    && !Divides(2, n) && !Divides(3, n) && !Divides(5, n) && !Divides(7, n)
    && !Divides(11, n) && !Divides(13, n) && !Divides(17, n)
  }

  lemma SquareBound(a: nat, b: nat)
    requires 19 <= a <= b
    ensures Product(a, b) >= 361
  {
    assert a * b >= 19 * b;
  }

  lemma HasDivisor(d: nat, n: nat)
    requires d in {2, 3, 5, 7, 11, 13, 17} && Divides(d, n)
    ensures !NoSmallDivisor(n)
  {
    hide Divides;
  }

  lemma AtLeastOne(d: int, t: int)
    requires d > 0
    ensures t >= 1 ==> d * t >= d
    ensures t <= -1 ==> d * t <= -d
  {
  }

  lemma MultipleDivides(d: nat, m: nat)
    requires d > 0 && m >= 2
    ensures Divides(d, Product(d, m))
  {
    var n := d * m;
    var q := n / d;
    assert n == d * q + n % d;
    assert d * (m - q) == d * m - d * q;
    AtLeastOne(d, m - q);
  }

  lemma Grows(c: nat, b: nat)
    requires 1 <= c && 2 <= b
    ensures Product(c, b) >= 2
  {
    assert c * b >= b;
  }

  lemma SplitFactor(a: nat, d: nat, c: nat, b: nat)
    requires a == d * c
    ensures Product(a, b) == Product(d, Product(c, b))
  {
    assert d * c * b == d * (c * b);
  }

  /** The least factor of a number from 2 to 18. */
  function LeastFactor(a: nat): (d: nat)
    requires 2 <= a <= 18
    ensures d in {2, 3, 5, 7, 11, 13, 17} && a == d * (a / d)
  {
    if a % 2 == 0 then 2 else if a % 3 == 0 then 3 else a
  }

  lemma SmallMultiple(a: nat, b: nat)
    requires 2 <= a <= 18 && 2 <= b
    ensures !NoSmallDivisor(Product(a, b))
  {
    hide NoSmallDivisor, Divides, LeastFactor, Product;
    var d := LeastFactor(a);
    var m := Product(a / d, b);
    SplitFactor(a, d, a / d, b);
    Grows(a / d, b);
    MultipleDivides(d, m);
    HasDivisor(d, Product(a, b));
  }

  lemma DividesMeansProduct(d: nat, n: nat)
    requires 2 <= d && Divides(d, n)
    ensures 2 <= n / d && Product(d, n / d) == n
  {
    var q := n / d;
    assert n == d * q;
    assert q != 0 && q != 1;
  }

  lemma PrimesPass(n: nat, d: nat)
    requires Prime(n) && 2 <= d
    ensures !Divides(d, n)
  {
    if Divides(d, n) {
      DividesMeansProduct(d, n);
    }
  }

  lemma Commutes(a: nat, b: nat)
    ensures Product(a, b) == Product(b, a)
  {
  }

  /** A product of two numbers from 2 on has one of the small divisors. */
  lemma ProductsFail(a: nat, b: nat)
    requires 2 <= a && 2 <= b && Product(a, b) < 361
    ensures !NoSmallDivisor(Product(a, b))
  {
    hide NoSmallDivisor;
    if a <= b {
      if a >= 19 {
        SquareBound(a, b);
      } else {
        SmallMultiple(a, b);
      }
    } else if b >= 19 {
      SquareBound(b, a);
      Commutes(a, b);
    } else {
      SmallMultiple(b, a);
      Commutes(a, b);
    }
  }

  /** Trial division decides primality. */
  lemma TrialDivisionDecides(n: nat)
    requires 2 <= n < 361
    ensures NoSmallDivisor(n) <==> Prime(n)
  {
    if Prime(n) {
      hide Divides, Prime;
      forall d | 2 <= d
        ensures !Divides(d, n)
      {
        PrimesPass(n, d);
      }
    }
    if NoSmallDivisor(n) {
      hide NoSmallDivisor;
      forall a, b | 2 <= a && 2 <= b
        ensures Product(a, b) != n
      {
        if Product(a, b) < 361 {
          ProductsFail(a, b);
        }
      }
    }
  }

  predicate InRow(row: seq<nat>, n: nat)
    requires |row| == 8
    ensures InRow(row, n) <==> n in row
  {
    || n == row[0] || n == row[1] || n == row[2] || n == row[3]
    || n == row[4] || n == row[5] || n == row[6] || n == row[7]
  }

  /** Numbers that share a factor with 30. */
  lemma OffWheel(n: nat)
    requires n > 5
    ensures n % 30 in {1, 7, 11, 13, 17, 19, 23, 29} || !NoSmallDivisor(n)
  {
    hide Divides, NoSmallDivisor;
    var q, k := n / 30, n % 30;
    if k in {0, 2, 4, 6, 8, 10, 12, 14, 16, 18, 20, 22, 24, 26, 28} {
      MultipleDivides(2, 15 * q + k / 2);
      HasDivisor(2, n);
    } else if k in {3, 9, 15, 21, 27} {
      MultipleDivides(3, 10 * q + k / 3);
      HasDivisor(3, n);
    } else if k in {5, 25} {
      MultipleDivides(5, 6 * q + k / 5);
      HasDivisor(5, n);
    }
  }

  lemma PrimeRow0(n: nat)
    requires 2 <= n < 23
    ensures NoSmallDivisor(n) <==> InRow(PrimeRow(0), n)
  {
    match n
    case 2 =>
    case 3 =>
    case 5 =>
    case 7 =>
    case 11 =>
    case 13 =>
    case 17 =>
    case 19 =>
    case _ => assert Divides(2, n) || Divides(3, n);
  }

  lemma PrimeRow1(n: nat)
    requires 23 <= n < 59
    ensures NoSmallDivisor(n) <==> InRow(PrimeRow(1), n)
  {
    match n
    case 23 =>
    case 29 =>
    case 31 =>
    case 37 =>
    case 41 =>
    case 43 =>
    case 47 =>
    case 49 =>
    case 53 =>
    case _ => OffWheel(n);
  }

  lemma PrimeRow2(n: nat)
    requires 59 <= n < 97
    ensures NoSmallDivisor(n) <==> InRow(PrimeRow(2), n)
  {
    match n
    case 59 =>
    case 61 =>
    case 67 =>
    case 71 =>
    case 73 =>
    case 77 =>
    case 79 =>
    case 83 =>
    case 89 =>
    case 91 =>
    case _ => OffWheel(n);
  }

  lemma PrimeRow3(n: nat)
    requires 97 <= n < 137
    ensures NoSmallDivisor(n) <==> InRow(PrimeRow(3), n)
  {
    match n
    case 97 =>
    case 101 =>
    case 103 =>
    case 107 =>
    case 109 =>
    case 113 =>
    case 119 =>
    case 121 =>
    case 127 =>
    case 131 =>
    case 133 =>
    case _ => OffWheel(n);
  }

  lemma PrimeRow4(n: nat)
    requires 137 <= n < 179
    ensures NoSmallDivisor(n) <==> InRow(PrimeRow(4), n)
  {
    match n
    case 137 =>
    case 139 =>
    case 143 =>
    case 149 =>
    case 151 =>
    case 157 =>
    case 161 =>
    case 163 =>
    case 167 =>
    case 169 =>
    case 173 =>
    case _ => OffWheel(n);
  }

  lemma PrimeRow5(n: nat)
    requires 179 <= n < 227
    ensures NoSmallDivisor(n) <==> InRow(PrimeRow(5), n)
  {
    match n
    case 179 =>
    case 181 =>
    case 187 =>
    case 191 =>
    case 193 =>
    case 197 =>
    case 199 =>
    case 203 =>
    case 209 =>
    case 211 =>
    case 217 =>
    case 221 =>
    case 223 =>
    case _ => OffWheel(n);
  }

  lemma PrimeRow6(n: nat)
    requires 227 <= n < 269
    ensures NoSmallDivisor(n) <==> InRow(PrimeRow(6), n)
  {
    match n
    case 227 =>
    case 229 =>
    case 233 =>
    case 239 =>
    case 241 =>
    case 247 =>
    case 251 =>
    case 253 =>
    case 257 =>
    case 259 =>
    case 263 =>
    case _ => OffWheel(n);
  }

  lemma PrimeRow7(n: nat)
    requires 269 <= n < 312
    ensures NoSmallDivisor(n) <==> InRow(PrimeRow(7), n)
  {
    match n
    case 269 =>
    case 271 =>
    case 277 =>
    case 281 =>
    case 283 =>
    case 287 =>
    case 289 =>
    case 293 =>
    case 299 =>
    case 301 =>
    case 307 =>
    case 311 =>
    case _ => OffWheel(n);
  }

  /** Where a row of primes starts. */
  function RowStart(r: nat): nat
    requires r <= 8
  {
    if r == 8 then 312 else PrimeRow(r)[0]
  }

  lemma RowByTrial(r: nat, n: nat)
    requires r < 8 && RowStart(r) <= n < RowStart(r + 1)
    ensures 2 <= n < 312 && (NoSmallDivisor(n) <==> InRow(PrimeRow(r), n))
  {
    hide NoSmallDivisor;
    match r
    case 0 => PrimeRow0(n);
    case 1 => PrimeRow1(n);
    case 2 => PrimeRow2(n);
    case 3 => PrimeRow3(n);
    case 4 => PrimeRow4(n);
    case 5 => PrimeRow5(n);
    case 6 => PrimeRow6(n);
    case _ => PrimeRow7(n);
  }

  predicate SortedRow(row: seq<nat>)
    requires |row| == 8
    ensures SortedRow(row) ==> forall i, j :: 0 <= i < j < 8 ==> row[i] < row[j]
  {
    row[0] < row[1] < row[2] < row[3] < row[4] < row[5] < row[6] < row[7]
  }

  lemma RowRange(r: nat)
    requires r < 8
    ensures SortedRow(PrimeRow(r)) && PrimeRow(r)[0] == RowStart(r) && PrimeRow(r)[7] < RowStart(r + 1)
  {
    match r
    case 0 =>
    case 1 =>
    case 2 =>
    case 3 =>
    case 4 =>
    case 5 =>
    case 6 =>
    case 7 =>
  }

  /** The rows, one after the other, are all the primes below 312 in increasing order. */
  lemma RowsAreThePrimes(r: nat, n: nat)
    requires r < 8
    ensures RowStart(0) == 2 && RowStart(8) == 312
    ensures n in PrimeRow(r) <==> RowStart(r) <= n < RowStart(r + 1) && Prime(n)
    ensures forall i, j :: 0 <= i < j < 8 ==> PrimeRow(r)[i] < PrimeRow(r)[j]
  {
    RowRange(r);
    assert RowStart(0) == 2;
    hide Prime, NoSmallDivisor, PrimeRow, RowStart;
    if RowStart(r) <= n < RowStart(r + 1) {
      RowByTrial(r, n);
      TrialDivisionDecides(n);
    }
  }

  // ---------------------------------------------------------------- the constants are their roots

  /** `whole` and the 32 bits after the binary point `bits` are the leading digits of the root of p. */
  predicate CubeRootBits(p: nat, whole: nat, bits: nat) {
    var x := whole * TWO_32 + bits;
    bits < TWO_32 && x * x * x <= p * (TWO_32 * TWO_32 * TWO_32) < (x + 1) * (x + 1) * (x + 1)
  }

  predicate SquareRootBits(p: nat, whole: nat, bits: nat) {
    var x := whole * TWO_32 + bits;
    bits < TWO_32 && x * x <= p * (TWO_32 * TWO_32) < (x + 1) * (x + 1)
  }

  /** The whole part of the cube root of a number below 343. */
  function WholeCubeRoot(p: nat): nat {
    if p < 8 then 1 else if p < 27 then 2 else if p < 64 then 3
    else if p < 125 then 4 else if p < 216 then 5 else 6
  }

  /** The whole part of the square root of a number below 25. */
  function WholeSquareRoot(p: nat): nat {
    if p < 4 then 1 else if p < 9 then 2 else if p < 16 then 3 else 4
  }

  predicate CubeRootAt(ps: seq<nat>, ks: seq<uint32>, i: nat)
    requires i < |ps| && i < |ks|
  {
    CubeRootBits(ps[i], WholeCubeRoot(ps[i]), ks[i] as nat)
  }

  predicate CubeRootRow(ps: seq<nat>, ks: seq<uint32>)
    requires |ps| == 8 && |ks| == 8
  {
    && CubeRootAt(ps, ks, 0) && CubeRootAt(ps, ks, 1) && CubeRootAt(ps, ks, 2) && CubeRootAt(ps, ks, 3)
    && CubeRootAt(ps, ks, 4) && CubeRootAt(ps, ks, 5) && CubeRootAt(ps, ks, 6) && CubeRootAt(ps, ks, 7)
  }

  lemma CubeRootRow0()
    ensures CubeRootRow(PrimeRow(0), ConstantRow(0))
  {
  }

  lemma CubeRootRow1()
    ensures CubeRootRow(PrimeRow(1), ConstantRow(1))
  {
  }

  lemma CubeRootRow2()
    ensures CubeRootRow(PrimeRow(2), ConstantRow(2))
  {
  }

  lemma CubeRootRow3()
    ensures CubeRootRow(PrimeRow(3), ConstantRow(3))
  {
  }

  lemma CubeRootRow4()
    ensures CubeRootRow(PrimeRow(4), ConstantRow(4))
  {
  }

  lemma CubeRootRow5()
    ensures CubeRootRow(PrimeRow(5), ConstantRow(5))
  {
  }

  lemma CubeRootRow6()
    ensures CubeRootRow(PrimeRow(6), ConstantRow(6))
  {
  }

  lemma CubeRootRow7()
    ensures CubeRootRow(PrimeRow(7), ConstantRow(7))
  {
  }

  /** Every round constant is the fraction of the cube root of its prime. */
  lemma RoundConstantsAreCubeRoots(r: nat)
    requires r < 8
    ensures forall i :: 0 <= i < 8 ==> CubeRootAt(PrimeRow(r), ConstantRow(r), i)
  {
    hide PrimeRow, ConstantRow, CubeRootAt;
    match r
    case 0 => CubeRootRow0();
    case 1 => CubeRootRow1();
    case 2 => CubeRootRow2();
    case 3 => CubeRootRow3();
    case 4 => CubeRootRow4();
    case 5 => CubeRootRow5();
    case 6 => CubeRootRow6();
    case _ => CubeRootRow7();
  }

  predicate SquareRootAt(ps: seq<nat>, ks: seq<uint32>, i: nat)
    requires i < |ps| && i < |ks|
  {
    SquareRootBits(ps[i], WholeSquareRoot(ps[i]), ks[i] as nat)
  }

  /** Every word of the initial hash value is the fraction of the square root of its prime. */
  lemma InitialHashIsSquareRoots()
    ensures forall i :: 0 <= i < 8 ==> SquareRootAt(PrimeRow(0), InitialRow(), i)
  {
    var ps, hs := PrimeRow(0), InitialRow();
    assert SquareRootAt(ps, hs, 0) && SquareRootAt(ps, hs, 1) && SquareRootAt(ps, hs, 2) && SquareRootAt(ps, hs, 3);
    assert SquareRootAt(ps, hs, 4) && SquareRootAt(ps, hs, 5) && SquareRootAt(ps, hs, 6) && SquareRootAt(ps, hs, 7);
  }
}
