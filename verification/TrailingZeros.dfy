/** Trailing-zero removal of the vendored fmt library (format-inl.h).

The loops decide divisibility by 100, 10 and 10^8 without dividing: they multiply by a
modular inverse and rotate, or multiply by ceil(2^90 / 10^8) and look at two bit fields.
Machine words are modelled by `nat` below an explicit modulus. */
module TrailingZeros {
  import opened Arith

  const TWO_26: nat := 0x400_0000
  const TWO_32: nat := 0x1_0000_0000
  const TWO_64: nat := 0x1_0000_0000_0000_0000
  const TWO_90: nat := 0x400_0000_0000_0000_0000_0000
  const TEN_8: nat := 100_000_000
  // ceil(2^90 / 10^8)
  const MAGIC: nat := 12379400392853802749

  function Pow10(e: nat): (p: nat)
    ensures p > 0
  {
    if e == 0 then 1 else 10 * Pow10(e - 1)
  }

  /** The number of trailing decimal zeros, by repeated division: the reference definition. */
  function Zeros(n: nat): nat
    requires n > 0
  {
    if n % 10 != 0 then 0 else 1 + Zeros(n / 10)
  }

  /** What is left of n without its trailing zeros. */
  function Stripped(n: nat): nat
    requires n > 0
  {
    if n % 10 != 0 then n else Stripped(n / 10)
  }

  /** The reference pair is the decimal factorization of n. */
  lemma {:induction false} StrippedFactorsOut(n: nat)
    requires n > 0
    ensures Stripped(n) * Pow10(Zeros(n)) == n && Stripped(n) % 10 != 0
  {
    if n % 10 == 0 {
      StrippedFactorsOut(n / 10);
      var t, p := Stripped(n / 10), Pow10(Zeros(n / 10));
      assert t * (10 * p) == 10 * (t * p);
    }
  }

  /** ... and the only one: m * 10^z == n with m not divisible by 10 determines m and z. */
  lemma {:induction false} FactorizationUnique(n: nat, m: nat, z: nat)
    requires n > 0 && m % 10 != 0 && m * Pow10(z) == n
    ensures m == Stripped(n) && z == Zeros(n)
  {
    if z > 0 {
      var p := Pow10(z - 1);
      assert m * (10 * p) == 10 * (m * p);
      FactorizationUnique(n / 10, m, z - 1);
    }
  }

  /** The word that both loops test: the product with an inverse, cut to the word and rotated. */
  function RotatedProduct(n: nat, inv: nat, modulus: nat, two: nat): (q: nat)
    requires modulus > 0 && modulus % 4 == 0 && (two == 2 || two == 4)
  {
    Rotr(n * inv % modulus, modulus, two)
  }

  /** Rotation of a word of the given modulus to the right by one bit (two == 2) or two bits
      (two == 4): the low bits move to the top, so the two shifted halves share no bit. */
  function Rotr(n: nat, modulus: nat, two: nat): (q: nat)
    requires n < modulus && modulus % 4 == 0 && (two == 2 || two == 4)
    ensures q < modulus
  {
    if two == 2 then n / 2 + n % 2 * (modulus / 2) else n / 4 + n % 4 * (modulus / 4)
  }

  /** Congruent numbers below the modulus are equal. */
  lemma CongruentBelow(a: nat, b: nat, k: int, modulus: nat)
    requires a < modulus && b < modulus && a == b + k * modulus
    ensures a == b
  {
    if k > 0 { MulMono(1, k, modulus); }
    if k < 0 { MulMono(k, -1, modulus); }
  }

  /** Multiplying a multiple of `odd` by the inverse of `odd` divides it exactly. */
  lemma MultipleHasInverse(n: nat, odd: nat, inv: nat, k: nat, modulus: nat)
    requires modulus > 0 && n == odd * k && k < modulus && odd * inv % modulus == 1
    ensures n * inv % modulus == k
  {
    var j := odd * inv / modulus;
    assert odd * inv == j * modulus + 1;
    calc {
      n * inv;
      k * (odd * inv);
      k * (j * modulus + 1);
      k * j * modulus + k;
    }
    QuotientUnique(n * inv, modulus, k * j, k);
  }

  /** Multiplying the product by `odd` again leads back to n, modulo the modulus. */
  lemma InverseUndone(n: nat, odd: nat, inv: nat, m: nat, modulus: nat) returns (k: int)
    requires modulus > 0 && odd * inv % modulus == 1 && m == n * inv % modulus
    ensures odd * m == n + k * modulus
  {
    var j, i := odd * inv / modulus, n * inv / modulus;
    assert odd * inv == j * modulus + 1;
    assert n * inv == i * modulus + m;
    k := n * j - odd * i;
    calc {
      odd * m;
      odd * (n * inv - i * modulus);
      n * (odd * inv) - odd * i * modulus;
      n * (j * modulus + 1) - odd * i * modulus;
      n + k * modulus;
    }
  }

  /** A low bit that moves to the top makes the rotated word large. */
  lemma LowBitsMove(high: nat, low: nat, top: nat)
    requires high + low * top < top
    ensures low == 0
  {
    if low > 0 { MulMono(1, low, top); }
  }

  /** A rotated word that stays small had no low bits to move to the top. */
  lemma RotrSmall(m: nat, modulus: nat, two: nat)
    requires m < modulus && modulus % 4 == 0 && (two == 2 || two == 4)
    requires two * Rotr(m, modulus, two) < modulus
    ensures m == two * Rotr(m, modulus, two)
  {
    var q, top := Rotr(m, modulus, two), modulus / two;
    assert modulus == two * top && q < top;
    if two == 2 {
      RotrParts(m, m / 2, m % 2, top, q);
    } else {
      RotrParts(m, m / 4, m % 4, top, q);
    }
  }

  lemma RotrParts(m: nat, high: nat, low: nat, top: nat, q: nat)
    requires q == high + low * top && q < top
    ensures low == 0 && q == high
  {
    LowBitsMove(high, low, top);
  }

  lemma RotrOfMultiple(k: nat, modulus: nat, two: nat)
    requires two * k < modulus && modulus % 4 == 0 && (two == 2 || two == 4)
    ensures Rotr(two * k, modulus, two) == k
  {
    assert two * k % two == 0 && two * k / two == k;
  }

  lemma Regroup(k: nat, odd: nat, two: nat)
    requires odd > 0
    ensures k * (odd * two) == odd * (two * k) >= two * k
  {
    assert k * (odd * two) == odd * (two * k);
    MulMono(1, odd, two * k);
  }

  /** A multiple passes the rotate-and-compare test with its quotient k. */
  lemma TestAcceptsMultiples(n: nat, odd: nat, inv: nat, modulus: nat, two: nat, d: nat, k: nat)
    requires 0 < n < modulus && modulus % 4 == 0 && (two == 2 || two == 4)
    requires odd > 0 && odd * inv % modulus == 1 && d == odd * two && n == k * d
    ensures RotatedProduct(n, inv, modulus, two) == k <= (modulus - 1) / d
  {
    Regroup(k, odd, two);
    MultipleHasInverse(n, odd, inv, two * k, modulus);
    RotrOfMultiple(k, modulus, two);
    hide Rotr;
    MulMono(1, odd, two);
    QuotientAtLeast(k, d, n, modulus);
  }

  lemma QuotientAtLeast(k: nat, d: nat, n: nat, modulus: nat)
    requires d > 0 && n == k * d < modulus
    ensures k <= (modulus - 1) / d
  {
    var q := (modulus - 1) / d;
    assert modulus - 1 < q * d + d;
    if k > q { MulMono(q + 1, k, d); }
  }

  lemma QuotientBound(q: nat, modulus: nat, d: nat)
    requires modulus > 0 && d > 0 && q <= (modulus - 1) / d
    ensures q * d < modulus
  {
    MulMono(q, (modulus - 1) / d, d);
  }

  /** What passes the test is the multiple of d whose quotient the rotated word is. */
  lemma TestRejectsOthers(n: nat, odd: nat, inv: nat, modulus: nat, two: nat, d: nat, q: nat)
    requires 0 < n < modulus && modulus % 4 == 0 && (two == 2 || two == 4)
    requires odd > 0 && odd * inv % modulus == 1 && d == odd * two
    requires q == RotatedProduct(n, inv, modulus, two) <= (modulus - 1) / d
    ensures n == q * d
  {
    var m := n * inv % modulus;
    QuotientBound(q, modulus, d);
    Regroup(q, odd, two);
    RotrSmall(m, modulus, two);
    var k := InverseUndone(n, odd, inv, m, modulus);
    assert odd * m == q * d;
    CongruentBelow(q * d, n, k, modulus);
  }

  lemma DividePositive(odd: nat, two: nat, d: nat)
    requires odd > 0 && two > 0 && d == odd * two
    ensures d > 0
  {
    MulMono(1, odd, two);
  }

  /** The rotate-and-compare test decides divisibility by d == odd * two exactly, for every
      word size, and yields the quotient. */
  lemma RotateTestExact(n: nat, odd: nat, inv: nat, modulus: nat, two: nat, d: nat)
    requires 0 < n < modulus && modulus % 4 == 0 && (two == 2 || two == 4)
    requires odd > 0 && odd * inv % modulus == 1 && d == odd * two
    ensures d > 0
    ensures var q := RotatedProduct(n, inv, modulus, two);
            && (q <= (modulus - 1) / d <==> n % d == 0)
            && (n % d == 0 ==> q == n / d)
  {
    hide RotatedProduct;
    var q := RotatedProduct(n, inv, modulus, two);
    DividePositive(odd, two, d);
    if n % d == 0 {
      TestAcceptsMultiples(n, odd, inv, modulus, two, d, n / d);
    }
    if q <= (modulus - 1) / d {
      TestRejectsOthers(n, odd, inv, modulus, two, d, q);
      QuotientUnique(n, d, q, 0);
    }
  }

  /** The 2^90 / 10^8 test looks at bits 64..89 and at the low word of the product. Together
      they are the product modulo 2^90, compared with the magic number. */
  lemma MagicProduct(n: nat)
    requires n < TWO_64
    ensures n * MAGIC == n / TEN_8 * TWO_90 + (n / TEN_8 * 875776 + n % TEN_8 * MAGIC)
    ensures n / TEN_8 * 875776 + n % TEN_8 * MAGIC < TWO_90
    ensures n / TEN_8 * 875776 < MAGIC
  {
    assert MAGIC * TEN_8 == TWO_90 + 875776;
    assert n == n / TEN_8 * TEN_8 + n % TEN_8;
  }

  /** The magic test is an exact divisibility test by 10^8 for every 64-bit word, and the
      shifted high word is the whole quotient (before it is cut to 32 bits). */
  lemma MagicTestExact(n: nat)
    requires n < TWO_64
    ensures var hi, lo := n * MAGIC / TWO_64, n * MAGIC % TWO_64;
            && (hi % TWO_26 == 0 && lo < MAGIC <==> n % TEN_8 == 0)
            && (n % TEN_8 == 0 ==> hi / TWO_26 == n / TEN_8)
  {
    MagicProduct(n);
    var k, r := n / TEN_8, n % TEN_8;
    var low := k * 875776 + r * MAGIC;
    QuotientUnique(n * MAGIC, TWO_90, k, low);
    assert TWO_90 == TWO_26 * TWO_64;
    var hi, lo := n * MAGIC / TWO_64, n * MAGIC % TWO_64;
    assert n * MAGIC == hi * TWO_64 + lo;
    var a, b := low / TWO_64, low % TWO_64;
    assert n * MAGIC == (k * TWO_26 + a) * TWO_64 + b;
    QuotientUnique(n * MAGIC, TWO_64, k * TWO_26 + a, b);
    assert a < TWO_26;
    QuotientUnique(hi, TWO_26, k, a);
    if r > 0 { assert low >= MAGIC; }
  }

  /** One round of the loops of both variants takes off exactly two decimal zeros. */
  lemma TwoZeros(n: nat)
    requires n > 0 && n % 100 == 0
    ensures n / 100 > 0 && Stripped(n) == Stripped(n / 100) && Zeros(n) == Zeros(n / 100) + 2
  {
    assert n / 10 % 10 == 0 && n / 10 / 10 == n / 100;
    assert Zeros(n) == 1 + Zeros(n / 10);
  }

  /** The round that both loops repeat: what it tests and what it leaves, in terms of the
      reference definition. */
  lemma HundredRound(n: nat, inv25: nat, modulus: nat)
    requires 0 < n < modulus && modulus % 4 == 0 && 25 * inv25 % modulus == 1
    ensures var q := RotatedProduct(n, inv25, modulus, 4);
            if q <= (modulus - 1) / 100
            then 0 < q < n && Stripped(n) == Stripped(q) && Zeros(n) == Zeros(q) + 2
            else n % 100 != 0
  {
    hide RotatedProduct, Stripped, Zeros;
    RotateTestExact(n, 25, inv25, modulus, 4, 100);
    if n % 100 == 0 { TwoZeros(n); }
  }

  /** The last test, for a number that is not a multiple of 100. */
  lemma TenRound(n: nat, inv5: nat, modulus: nat)
    requires 0 < n < modulus && modulus % 4 == 0 && 5 * inv5 % modulus == 1 && n % 100 != 0
    ensures var q := RotatedProduct(n, inv5, modulus, 2);
            if q <= (modulus - 1) / 10 then q == Stripped(n) && Zeros(n) == 1
            else n == Stripped(n) && Zeros(n) == 0
  {
    hide RotatedProduct;
    RotateTestExact(n, 5, inv5, modulus, 2, 10);
    if n % 10 == 0 {
      assert n / 10 % 10 != 0;
      assert Zeros(n) == 1 + Zeros(n / 10);
    }
  }

  /** `s |= 1` on a C int. */
  function SetLowBit(s: int): int {
    if s % 2 == 0 then s + 1 else s
  }

  /** The overload for `uint32_t& n, int s`. The guard is FMT_ASSERT(n != 0). Starting from an
      even count (the callers pass 0 and 8) the count grows by exactly the number of zeros; an
      odd starting count would swallow the last zero of an odd number of zeros. */
  method RemoveTrailingZeros32(n0: nat, s0: int) returns (n: nat, s: int)
    requires 0 < n0 < TWO_32
    ensures n == Stripped(n0)
    ensures s == if s0 % 2 == 0 || Zeros(n0) % 2 == 0 then s0 + Zeros(n0) else s0 + Zeros(n0) - 1
  {
    hide RotatedProduct, Stripped, Zeros;
    var modInv5, modInv25 := 0xcccccccd, 0xc28f5c29;
    n, s := n0, s0;
    ghost var rounds := 0;
    while true
      invariant 0 < n < TWO_32
      invariant Stripped(n) == Stripped(n0)
      invariant s == s0 + 2 * rounds && Zeros(n0) == Zeros(n) + 2 * rounds
      decreases n
    {
      HundredRound(n, modInv25, TWO_32);
      var q := RotatedProduct(n, modInv25, TWO_32, 4);
      if q > (TWO_32 - 1) / 100 { break; }
      n := q;
      s := s + 2;
      rounds := rounds + 1;
    }
    TenRound(n, modInv5, TWO_32);
    var q := RotatedProduct(n, modInv5, TWO_32, 2);
    if q <= (TWO_32 - 1) / 10 {
      n := q;
      s := SetLowBit(s);
    }
  }

  datatype Outcome =
    | Removed(n: nat, s: int)
    | AssertionFailed       // FMT_ASSERT(n != 0) of the 32-bit variant

  /** The inputs on which the 64-bit variant is right: those it does not divide by 10^8, and
      those whose quotient by 10^8 survives the cast to 32 bits. */
  predicate QuotientFits(n: nat) {
    n % TEN_8 == 0 ==> n / TEN_8 < TWO_32
  }

  /** What the 64-bit variant computes for every input, including those whose quotient by 10^8
      is cut to 32 bits. */
  ghost function Computed64(n: nat): Outcome
    requires 0 < n < TWO_64
  {
    if n % TEN_8 != 0 then Removed(Stripped(n), Zeros(n))
    else
      var n32 := n / TEN_8 % TWO_32;
      if n32 == 0 then AssertionFailed else Removed(Stripped(n32), 8 + Zeros(n32))
  }

  method RemoveTrailingZeros64(n0: nat) returns (r: Outcome)
    requires 0 < n0 < TWO_64
    ensures r == Computed64(n0)
  {
    hide RotatedProduct, Stripped, Zeros;
    var hi, lo := n0 * MAGIC / TWO_64, n0 * MAGIC % TWO_64;
    MagicTestExact(n0);
    if hi % TWO_26 == 0 && lo < MAGIC {
      var n32 := hi / TWO_26 % TWO_32;
      if n32 == 0 { return AssertionFailed; }
      var m, z := RemoveTrailingZeros32(n32, 8);
      return Removed(m, z);
    }
    var modInv5, modInv25 := 0xcccccccccccccccd, 0x8f5c28f5c28f5c29;
    var n, s := n0, 0;
    ghost var rounds := 0;
    while true
      invariant 0 < n < TWO_64
      invariant Stripped(n) == Stripped(n0)
      invariant s == 2 * rounds && Zeros(n0) == Zeros(n) + 2 * rounds
      decreases n
    {
      HundredRound(n, modInv25, TWO_64);
      var q := RotatedProduct(n, modInv25, TWO_64, 4);
      if q > (TWO_64 - 1) / 100 { break; }
      n := q;
      s := s + 2;
      rounds := rounds + 1;
    }
    TenRound(n, modInv5, TWO_64);
    var q := RotatedProduct(n, modInv5, TWO_64, 2);
    if q <= (TWO_64 - 1) / 10 {
      n := q;
      s := SetLowBit(s);
    }
    return Removed(n, s);
  }

  /** Dividing an exact multiple of 10^8 by 10^8 takes off eight zeros. */
  lemma EightZeros(n: nat, k: nat)
    requires n == 100_000_000 * k > 0
    ensures Stripped(n) == Stripped(k) && Zeros(n) == Zeros(k) + 8
  {
    var n6, n4, n2 := 1_000_000 * k, 10_000 * k, 100 * k;
    assert n / 100 == n6 && n6 / 100 == n4 && n4 / 100 == n2 && n2 / 100 == k;
    TwoZeros(n);
    TwoZeros(n6);
    TwoZeros(n4);
    TwoZeros(n2);
  }

  /** A quotient that does not fit loses its high bits, so the product no longer gives n back. */
  lemma TruncationIsWrong(n: nat)
    requires 0 < n < TWO_64 && !QuotientFits(n)
    ensures Computed64(n) != Removed(Stripped(n), Zeros(n))
  {
    hide Stripped, Zeros, Pow10;
    var k := n / TEN_8;
    var n32 := k % TWO_32;
    assert n32 < TWO_32 <= k;
    EightZeros(n, k);
    if n32 != 0 {
      StrippedFactorsOut(k);
      StrippedFactorsOut(n32);
    }
  }

  /** The 64-bit variant returns the decimal factorization of its argument if and only if the
      argument is not a multiple of 10^8 or its quotient by 10^8 is below 2^32. In particular
      it is right for every n below 2^32 * 10^8. */
  lemma RemovalCorrectIff(n: nat)
    requires 0 < n < TWO_64
    ensures QuotientFits(n) <==> Computed64(n) == Removed(Stripped(n), Zeros(n))
    ensures n < TWO_32 * TEN_8 ==> QuotientFits(n)
  {
    hide Stripped, Zeros;
    if n % TEN_8 == 0 {
      EightZeros(n, n / TEN_8);
    }
    if !QuotientFits(n) {
      TruncationIsWrong(n);
    }
  }

  /** The cut quotient can even be zero: 2^32 * 10^8 fails the assertion of the 32-bit variant. */
  lemma TruncatedQuotient()
    ensures Computed64(TWO_32 * TEN_8) == AssertionFailed
    ensures Computed64((TWO_32 + 1) * TEN_8) == Removed(1, 8)
  {
    assert (TWO_32 + 1) * TEN_8 / TEN_8 == TWO_32 + 1;
  }
}
