/** The constants of SHA-256: they are the starts of the fractions of roots of the first primes (sections 4.2.2 and
    5.3.3 of FIPS 180-4). */
module ShaConstants {
  import opened Sha256s
  import Bits

  const PRIMES: seq<nat> :=
    [2, 3, 5, 7, 11, 13, 17, 19] +
    [23, 29, 31, 37, 41, 43, 47, 53] +
    [59, 61, 67, 71, 73, 79, 83, 89] +
    [97, 101, 103, 107, 109, 113, 127, 131] +
    [137, 139, 149, 151, 157, 163, 167, 173] +
    [179, 181, 191, 193, 197, 199, 211, 223] +
    [227, 229, 233, 239, 241, 251, 257, 263] +
    [269, 271, 277, 281, 283, 293, 307, 311]

  ghost predicate IsPrime(p: nat) { p >= 2 && forall d :: 2 <= d < p ==> p % d != 0 }

  /** p is divisible by no prime below 18. */
  predicate Sifted(p: nat) {
    p % 2 != 0 && p % 3 != 0 && p % 5 != 0 && p % 7 != 0 && p % 11 != 0 && p % 13 != 0 && p % 17 != 0
  }

  /** Below 18 * 18 the sieve by these seven finds the primes. */
  lemma SiftedArePrime(p: nat)
    requires 18 <= p < 324
    ensures Sifted(p) <==> IsPrime(p)
  {
    if Sifted(p) {
      forall d | 2 <= d < p ensures p % d != 0 {
        if p % d == 0 { NoFactor(p, d, p / d); }
      }
    }
  }

  lemma NoFactor(p: nat, d: nat, e: nat)
    requires 18 <= p < 324 && 2 <= d < p && p == d * e
    ensures !Sifted(p)
  {
    if d < 18 {
      SmallFactor(p, d, e);
    } else {
      assert e < 18 by { if e >= 18 { Larger(d, e); } }
      assert e >= 2;
      SmallFactor(p, e, d);
    }
  }

  lemma Larger(d: nat, e: nat)
    requires d >= 18 && e >= 18
    ensures d * e >= 324
  {
  }

  lemma SmallFactor(p: nat, d: nat, e: nat)
    requires 2 <= d < 18 && p == d * e
    ensures !Sifted(p)
  {
    var q := if d % 2 == 0 then 2 else if d % 3 == 0 then 3 else d;
    assert q * (d / q) == d;
    Multiple(q, d / q, e);
  }

  lemma Multiple(q: nat, m: nat, e: nat)
    requires q > 0
    ensures (q * m * e) % q == 0
  {
    Bits.ModIs(q * m * e, q, m * e, 0);
  }

  lemma SiftedFrom18(p: nat)
    requires 18 <= p < 48
    ensures Sifted(p) <==>
            p == 19 || p == 23 || p == 29 || p == 31 || p == 37 || p == 41 || p == 43 || p == 47
  {
  }

  lemma SiftedFrom48(p: nat)
    requires 48 <= p < 84
    ensures Sifted(p) <==>
            p == 53 || p == 59 || p == 61 || p == 67 || p == 71 || p == 73 || p == 79 || p == 83
  {
  }

  lemma SiftedFrom84(p: nat)
    requires 84 <= p < 114
    ensures Sifted(p) <==>
            p == 89 || p == 97 || p == 101 || p == 103 || p == 107 || p == 109 || p == 113
  {
  }

  lemma SiftedFrom114(p: nat)
    requires 114 <= p < 152
    ensures Sifted(p) <==>
            p == 127 || p == 131 || p == 137 || p == 139 || p == 149 || p == 151
  {
  }

  lemma SiftedFrom152(p: nat)
    requires 152 <= p < 182
    ensures Sifted(p) <==>
            p == 157 || p == 163 || p == 167 || p == 173 || p == 179 || p == 181
  {
  }

  lemma SiftedFrom182(p: nat)
    requires 182 <= p < 214
    ensures Sifted(p) <==>
            p == 191 || p == 193 || p == 197 || p == 199 || p == 211
  {
  }

  lemma SiftedFrom214(p: nat)
    requires 214 <= p < 246
    ensures Sifted(p) <==>
            p == 223 || p == 227 || p == 229 || p == 233 || p == 239 || p == 241
  {
  }

  lemma SiftedFrom246(p: nat)
    requires 246 <= p < 282
    ensures Sifted(p) <==>
            p == 251 || p == 257 || p == 263 || p == 269 || p == 271 || p == 277 || p == 281
  {
  }

  lemma SiftedFrom282(p: nat)
    requires 282 <= p < 312
    ensures Sifted(p) <==>
            p == 283 || p == 293 || p == 307 || p == 311
  {
  }

  lemma FirstPrimes(p: nat)
    requires p < 18
    ensures IsPrime(p) <==> p == 2 || p == 3 || p == 5 || p == 7 || p == 11 || p == 13 || p == 17
  {
    if p >= 4 && p % 2 == 0 { assert p % 2 == 0; }
    if p == 9 || p == 15 { assert p % 3 == 0; }
  }

  lemma Listed(p: nat)
    ensures p in PRIMES <==>
            p == 2 || p == 3 || p == 5 || p == 7 || p == 11 || p == 13 || p == 17 || p == 19 || p == 23 ||
            p == 29 || p == 31 || p == 37 || p == 41 || p == 43 || p == 47 || p == 53 || p == 59 || p == 61 ||
            p == 67 || p == 71 || p == 73 || p == 79 || p == 83 || p == 89 || p == 97 || p == 101 || p == 103 ||
            p == 107 || p == 109 || p == 113 || p == 127 || p == 131 || p == 137 || p == 139 || p == 149 ||
            p == 151 || p == 157 || p == 163 || p == 167 || p == 173 || p == 179 || p == 181 || p == 191 ||
            p == 193 || p == 197 || p == 199 || p == 211 || p == 223 || p == 227 || p == 229 || p == 233 ||
            p == 239 || p == 241 || p == 251 || p == 257 || p == 263 || p == 269 || p == 271 || p == 277 ||
            p == 281 || p == 283 || p == 293 || p == 307 || p == 311
  {
  }

  lemma PrimesFrom18(p: nat)
    requires 18 <= p < 312
    ensures Sifted(p) <==>
            p == 19 || p == 23 || p == 29 || p == 31 || p == 37 || p == 41 || p == 43 || p == 47 || p == 53 ||
            p == 59 || p == 61 || p == 67 || p == 71 || p == 73 || p == 79 || p == 83 || p == 89 || p == 97 ||
            p == 101 || p == 103 || p == 107 || p == 109 || p == 113 || p == 127 || p == 131 || p == 137 ||
            p == 139 || p == 149 || p == 151 || p == 157 || p == 163 || p == 167 || p == 173 || p == 179 ||
            p == 181 || p == 191 || p == 193 || p == 197 || p == 199 || p == 211 || p == 223 || p == 227 ||
            p == 229 || p == 233 || p == 239 || p == 241 || p == 251 || p == 257 || p == 263 || p == 269 ||
            p == 271 || p == 277 || p == 281 || p == 283 || p == 293 || p == 307 || p == 311
  {
    hide Sifted;
    if p < 48 {
      SiftedFrom18(p);
    } else if p < 84 {
      SiftedFrom48(p);
    } else if p < 114 {
      SiftedFrom84(p);
    } else if p < 152 {
      SiftedFrom114(p);
    } else if p < 182 {
      SiftedFrom152(p);
    } else if p < 214 {
      SiftedFrom182(p);
    } else if p < 246 {
      SiftedFrom214(p);
    } else if p < 282 {
      SiftedFrom246(p);
    } else {
      SiftedFrom282(p);
    }
  }

  /** The list is that of the first sixty-four primes. */
  lemma PrimesExactly(p: nat)
    requires p <= 311
    ensures p in PRIMES <==> IsPrime(p)
  {
    hide IsPrime, Sifted, PRIMES;
    Listed(p);
    if p < 18 {
      FirstPrimes(p);
    } else {
      SiftedArePrime(p);
      PrimesFrom18(p);
    }
  }

  lemma PrimesAscend(i: nat)
    requires i < 63
    ensures |PRIMES| == 64 && PRIMES[i] < PRIMES[i + 1] && PRIMES[63] == 311
  {
  }

  // ----- the roots -----

  function Square(x: nat): nat { x * x }

  function Cube(x: nat): nat { x * x * x }

  /** k is the first thirty-two bits of the fraction of p's cube root, r being the whole part. */
  predicate CubeRootBits(p: nat, r: nat, k: Word) {
    && Cube(r) <= p < Cube(r + 1)
    && Cube(r * 0x1_0000_0000 + k) <= p * 0x1_0000_0000_0000_0000_0000_0000 < Cube(r * 0x1_0000_0000 + k + 1)
  }

  predicate SquareRootBits(p: nat, r: nat, k: Word) {
    && Square(r) <= p < Square(r + 1)
    && Square(r * 0x1_0000_0000 + k) <= p * 0x1_0000_0000_0000_0000 < Square(r * 0x1_0000_0000 + k + 1)
  }

  lemma RootsFrom0(i: nat)
    requires 0 <= i < 4
    ensures CubeRootBits(PRIMES[i], 1, K[i])
  {
  }

  lemma RootsFrom4(i: nat)
    requires 4 <= i < 9
    ensures CubeRootBits(PRIMES[i], 2, K[i])
  {
  }

  lemma RootsFrom9(i: nat)
    requires 9 <= i < 18
    ensures CubeRootBits(PRIMES[i], 3, K[i])
  {
  }

  lemma RootsFrom18(i: nat)
    requires 18 <= i < 27
    ensures CubeRootBits(PRIMES[i], 4, K[i])
  {
  }

  lemma RootsFrom27(i: nat)
    requires 27 <= i < 30
    ensures CubeRootBits(PRIMES[i], 4, K[i])
  {
  }

  lemma RootsFrom30(i: nat)
    requires 30 <= i < 39
    ensures CubeRootBits(PRIMES[i], 5, K[i])
  {
  }

  lemma RootsFrom39(i: nat)
    requires 39 <= i < 47
    ensures CubeRootBits(PRIMES[i], 5, K[i])
  {
  }

  lemma RootsFrom47(i: nat)
    requires 47 <= i < 56
    ensures CubeRootBits(PRIMES[i], 6, K[i])
  {
  }

  lemma RootsFrom56(i: nat)
    requires 56 <= i < 64
    ensures CubeRootBits(PRIMES[i], 6, K[i])
  {
  }

  /** Each round's constant is the start of the fraction of the cube root of its prime. */
  lemma ConstantsAreRoots(i: nat) returns (r: nat)
    requires i < 64
    ensures CubeRootBits(PRIMES[i], r, Constant(i))
  {
    hide CubeRootBits;
    if i < 4 {
      RootsFrom0(i);
      r := 1;
    } else if i < 9 {
      RootsFrom4(i);
      r := 2;
    } else if i < 18 {
      RootsFrom9(i);
      r := 3;
    } else if i < 27 {
      RootsFrom18(i);
      r := 4;
    } else if i < 30 {
      RootsFrom27(i);
      r := 4;
    } else if i < 39 {
      RootsFrom30(i);
      r := 5;
    } else if i < 47 {
      RootsFrom39(i);
      r := 5;
    } else if i < 56 {
      RootsFrom47(i);
      r := 6;
    } else {
      RootsFrom56(i);
      r := 6;
    }
  }

  /** The words the hash starts from are those of the square roots of the first eight primes. */
  lemma InitialAreRoots()
    ensures var h := INITIAL_HASH;
            && SquareRootBits(PRIMES[0], 1, h.a) && SquareRootBits(PRIMES[1], 1, h.b)
            && SquareRootBits(PRIMES[2], 2, h.c) && SquareRootBits(PRIMES[3], 2, h.d)
            && SquareRootBits(PRIMES[4], 3, h.e) && SquareRootBits(PRIMES[5], 3, h.f)
            && SquareRootBits(PRIMES[6], 4, h.g) && SquareRootBits(PRIMES[7], 4, h.h)
  {
  }
}
