/** SHA-256 as FIPS 180-4 writes it, on strings of bits: rotations move bits, the logical functions
    look at one bit of each word, and the constants are roots of primes. */
module Fips180 {
  import opened Bytes

  /** A 32-bit word, most significant bit first. */
  type Word = b: Bits | |b| == 32 witness seq(32, _ => false)

  // ---------------------------------------------------------------------------
  // Numbers and bits
  // ---------------------------------------------------------------------------

  /** The n-bit binary representation of v, most significant bit first. */
  function Binary(v: nat, n: nat): (bits: Bits)
    ensures |bits| == n
    decreases n
  {
    if n == 0 then [] else Binary(v / 2, n - 1) + [v % 2 == 1]
  }

  function Value(bits: Bits): (v: nat)
    ensures v < Pow2(|bits|)
  {
    if |bits| == 0 then 0
    else 2 * Value(bits[..|bits| - 1]) + (if bits[|bits| - 1] then 1 else 0)
  }

  function Zeros(n: nat): (bits: Bits)
    ensures |bits| == n
  {
    seq(n, i => false)
  }

  // ---------------------------------------------------------------------------
  // Sections 3.2 and 4.1.2: operations and functions on words
  // ---------------------------------------------------------------------------

  /** Rotate right. */
  function Rotr(x: Word, n: nat): (r: Word)
    requires n <= 32
  {
    x[32 - n..] + x[..32 - n]
  }

  /** Shift right. */
  function Shr(x: Word, n: nat): (r: Word)
    requires n <= 32
  {
    Zeros(n) + x[..32 - n]
  }

  /** The exclusive or of three words. */
  function Parity(x: Word, y: Word, z: Word): (r: Word) {
    seq(32, i requires 0 <= i < 32 => (x[i] != y[i]) != z[i])
  }

  /** Each bit of x chooses the bit of y or that of z. */
  function Ch(x: Word, y: Word, z: Word): (r: Word) {
    seq(32, i requires 0 <= i < 32 => if x[i] then y[i] else z[i])
  }

  /** Each bit is the one that at least two of the words have. */
  function Maj(x: Word, y: Word, z: Word): (r: Word) {
    seq(32, i requires 0 <= i < 32 => (x[i] && y[i]) || (x[i] && z[i]) || (y[i] && z[i]))
  }

  function BigSigma0(x: Word): (r: Word) { Parity(Rotr(x, 2), Rotr(x, 13), Rotr(x, 22)) }

  function BigSigma1(x: Word): (r: Word) { Parity(Rotr(x, 6), Rotr(x, 11), Rotr(x, 25)) }

  function SmallSigma0(x: Word): (r: Word) { Parity(Rotr(x, 7), Rotr(x, 18), Shr(x, 3)) }

  function SmallSigma1(x: Word): (r: Word) { Parity(Rotr(x, 17), Rotr(x, 19), Shr(x, 10)) }

  /** Addition modulo 2^32. */
  function Plus(x: Word, y: Word): (r: Word) {
    Binary((Value(x) + Value(y)) % 0x1_0000_0000, 32)
  }

  // ---------------------------------------------------------------------------
  // Sections 4.2.2 and 5.3.3: the constants
  // ---------------------------------------------------------------------------

  /** The t-th prime, from 0. */
  function Prime(t: nat): (p: nat)
    requires t < 64
  {
    if t < 16 then Prime1(t) else if t < 32 then Prime2(t) else if t < 48 then Prime3(t) else Prime4(t)
  }

  function Prime1(t: nat): (p: nat) {
    match t
    case 0 => 2
    case 1 => 3
    case 2 => 5
    case 3 => 7
    case 4 => 11
    case 5 => 13
    case 6 => 17
    case 7 => 19
    case 8 => 23
    case 9 => 29
    case 10 => 31
    case 11 => 37
    case 12 => 41
    case 13 => 43
    case 14 => 47
    case _ => 53
  }

  function Prime2(t: nat): (p: nat) {
    match t
    case 16 => 59
    case 17 => 61
    case 18 => 67
    case 19 => 71
    case 20 => 73
    case 21 => 79
    case 22 => 83
    case 23 => 89
    case 24 => 97
    case 25 => 101
    case 26 => 103
    case 27 => 107
    case 28 => 109
    case 29 => 113
    case 30 => 127
    case _ => 131
  }

  function Prime3(t: nat): (p: nat) {
    match t
    case 32 => 137
    case 33 => 139
    case 34 => 149
    case 35 => 151
    case 36 => 157
    case 37 => 163
    case 38 => 167
    case 39 => 173
    case 40 => 179
    case 41 => 181
    case 42 => 191
    case 43 => 193
    case 44 => 197
    case 45 => 199
    case 46 => 211
    case _ => 223
  }

  function Prime4(t: nat): (p: nat) {
    match t
    case 48 => 227
    case 49 => 229
    case 50 => 233
    case 51 => 239
    case 52 => 241
    case 53 => 251
    case 54 => 257
    case 55 => 263
    case 56 => 269
    case 57 => 271
    case 58 => 277
    case 59 => 281
    case 60 => 283
    case 61 => 293
    case 62 => 307
    case _ => 311
  }

  predicate IsPrime(n: nat) {
    n >= 2 && forall d :: 2 <= d < n ==> n % d != 0
  }

  /** The integer cube root. */
  function CubeRoot(n: nat): (c: nat)
    ensures c * c * c <= n < (c + 1) * (c + 1) * (c + 1)
  {
    if n == 0 then 0
    else
      var c := 2 * CubeRoot(n / 8);
      CubeRootStep(n, CubeRoot(n / 8));
      if (c + 1) * (c + 1) * (c + 1) <= n then c + 1 else c
  }

  lemma CubeRootStep(n: nat, d: nat)
    requires d * d * d <= n / 8 < (d + 1) * (d + 1) * (d + 1)
    ensures 2 * d * (2 * d) * (2 * d) <= n < (2 * d + 2) * (2 * d + 2) * (2 * d + 2)
  {
    assert 2 * d * (2 * d) * (2 * d) == 8 * (d * d * d);
    assert (2 * d + 2) * (2 * d + 2) * (2 * d + 2) == 8 * ((d + 1) * (d + 1) * (d + 1));
  }

  /** The integer square root. */
  function SquareRoot(n: nat): (c: nat)
    ensures c * c <= n < (c + 1) * (c + 1)
  {
    if n == 0 then 0
    else
      var c := 2 * SquareRoot(n / 4);
      SquareRootStep(n, SquareRoot(n / 4));
      if (c + 1) * (c + 1) <= n then c + 1 else c
  }

  lemma SquareRootStep(n: nat, d: nat)
    requires d * d <= n / 4 < (d + 1) * (d + 1)
    ensures 2 * d * (2 * d) <= n < (2 * d + 2) * (2 * d + 2)
  {
    assert 2 * d * (2 * d) == 4 * (d * d);
    assert (2 * d + 2) * (2 * d + 2) == 4 * ((d + 1) * (d + 1));
  }

  /** The first 32 bits of the fractional part of the cube root of a number. */
  function CubeRootFraction(p: nat): (k: u32) {
    CubeRoot(p * 0x1_0000_0000_0000_0000_0000_0000) % 0x1_0000_0000
  }

  /** The first 32 bits of the fractional part of the square root of a number. */
  function SquareRootFraction(p: nat): (k: u32) {
    SquareRoot(p * 0x1_0000_0000_0000_0000) % 0x1_0000_0000
  }

  // ---------------------------------------------------------------------------
  // Section 6.2.2: the compression function
  // ---------------------------------------------------------------------------

  type Words = m: seq<Word> | |m| == 16 witness seq(16, _ => Zeros(32))

  type Hash = h: seq<Word> | |h| == 8 witness seq(8, _ => Zeros(32))

  /** Step 1: the message schedule. */
  function W(m: Words, t: nat): (w: Word)
    requires t < 64
  {
    if t < 16 then m[t]
    else Plus(Plus(Plus(SmallSigma1(W(m, t - 2)), W(m, t - 7)), SmallSigma0(W(m, t - 15))), W(m, t - 16))
  }

  /** The eight working variables. */
  datatype Variables = Variables(a: Word, b: Word, c: Word, d: Word, e: Word, f: Word, g: Word, h: Word)

  /** Step 3, one round. */
  function Round(v: Variables, k: Word, w: Word): (v': Variables) {
    var t1 := Plus(Plus(Plus(Plus(v.h, BigSigma1(v.e)), Ch(v.e, v.f, v.g)), k), w);
    var t2 := Plus(BigSigma0(v.a), Maj(v.a, v.b, v.c));
    Variables(Plus(t1, t2), v.a, v.b, v.c, Plus(v.d, t1), v.e, v.f, v.g)
  }

  /** Steps 2 and 3: the working variables after t rounds. */
  function Rounds(h: Hash, m: Words, t: nat): (v: Variables)
    requires t <= 64
  {
    if t == 0 then Variables(h[0], h[1], h[2], h[3], h[4], h[5], h[6], h[7])
    else Round(Rounds(h, m, t - 1), Binary(CubeRootFraction(Prime(t - 1)), 32), W(m, t - 1))
  }

  /** Step 4: the next intermediate hash value. */
  function Compress(h: Hash, m: Words): (h': Hash) {
    AddInto(h, Rounds(h, m, 64))
  }

  function AddInto(h: Hash, v: Variables): (h': Hash) {
    var sums: seq<Word> := [Plus(v.a, h[0]), Plus(v.b, h[1]), Plus(v.c, h[2]), Plus(v.d, h[3]),
                            Plus(v.e, h[4]), Plus(v.f, h[5]), Plus(v.g, h[6]), Plus(v.h, h[7])];
    sums
  }

  // ---------------------------------------------------------------------------
  // Sections 5.1.1, 5.2.1 and 6.2: padding, parsing and hashing
  // ---------------------------------------------------------------------------

  /** The standard's bound on the message length, in bits. */
  const MAX_BITS: nat := 0x1_0000_0000_0000_0000

  /** The smallest k with l + 1 + k congruent to 448 modulo 512: the one below 512. */
  function ZeroCount(l: nat): (k: nat)
    ensures (l + 1 + k) % 512 == 448
    ensures k < 512
  {
    (447 - l) % 512
  }

  /** The padded message: a one, the zeros, and the 64-bit length. */
  function PadBits(m: Bits): (p: Bits)
    requires |m| < MAX_BITS
    ensures |p| == |m| + 1 + ZeroCount(|m|) + 64
  {
    m + [true] + Zeros(ZeroCount(|m|)) + Binary(|m|, 64)
  }

  /** The sixteen words of a 512-bit block. */
  function BlockWords(block: Bits): (m: Words)
    requires |block| == 512
  {
    seq(16, t requires 0 <= t < 16 => WordOf(block, t))
  }

  function WordOf(block: Bits, t: nat): (w: Word)
    requires 32 * t + 32 <= |block|
  {
    block[32 * t..32 * t + 32]
  }

  function BlockBits(p: Bits, i: nat): (block: Bits)
    requires 512 * (i + 1) <= |p|
    ensures |block| == 512
  {
    p[512 * i..512 * (i + 1)]
  }

  /** The initial hash value. */
  function Initial(): (h: Hash) {
    seq(8, j requires 0 <= j < 8 => InitialWord(j))
  }

  function InitialWord(j: nat): (w: Word)
    requires j < 8
  {
    Binary(SquareRootFraction(Prime(j)), 32)
  }

  /** The hash value after the first n blocks. */
  function HashBits(p: Bits, n: nat): (h: Hash)
    requires 512 * n <= |p|
  {
    if n == 0 then Initial() else Compress(HashBits(p, n - 1), BlockWords(BlockBits(p, n - 1)))
  }

  /** The digest of a message: the eight words one after the other. */
  function FipsDigest(m: Bits): (digest: Bits)
    requires |m| < MAX_BITS
    ensures |digest| == 256
  {
    var p := PadBits(m);
    Joined(HashBits(p, |p| / 512), 8)
  }

  /** The first n words of a hash value, joined. */
  function Joined(h: Hash, n: nat): (bits: Bits)
    requires n <= 8
    ensures |bits| == 32 * n
  {
    if n == 0 then [] else Joined(h, n - 1) + h[n - 1]
  }

  // ---------------------------------------------------------------------------
  // The primes are the first sixty-four
  // ---------------------------------------------------------------------------

  /** No prime up to 17 properly divides n. */
  predicate Sieved(n: nat) {
    && (n <= 2 || n % 2 != 0) && (n <= 3 || n % 3 != 0) && (n <= 5 || n % 5 != 0) && (n <= 7 || n % 7 != 0)
    && (n <= 11 || n % 11 != 0) && (n <= 13 || n % 13 != 0) && (n <= 17 || n % 17 != 0)
  }

  /** Below 19 squared the small primes find every composite. */
  lemma SievedArePrime(n: nat)
    requires 2 <= n < 361
    ensures IsPrime(n) <==> Sieved(n)
  {
    if Sieved(n) {
      forall d | 2 <= d < n ensures n % d != 0 {
        if n % d == 0 {
          var e := n / d;
          assert n == d * e && e >= 2;
          if d <= 18 {
            SmallFactor(n, d, e);
          } else {
            assert e <= 18 by {
              if e >= 19 { Product(d, e); }
            }
            SmallFactor(n, e, d);
          }
        }
      }
    }
  }

  lemma Product(d: nat, e: nat)
    requires d >= 19 && e >= 19
    ensures d * e >= 361
  {
    assert d * e >= 19 * e;
  }

  lemma SmallFactor(n: nat, d: nat, e: nat)
    requires n == d * e && 2 <= d <= 18 && e >= 2
    ensures !Sieved(n)
  {
    var q := if d % 2 == 0 then 2 else if d % 3 == 0 then 3 else if d % 5 == 0 then 5 else d;
    assert d == q * (d / q);
    FactorOf(n, q, d / q, e);
    FailsSieve(n, q);
  }

  lemma FailsSieve(n: nat, q: nat)
    requires q == 2 || q == 3 || q == 5 || q == 7 || q == 11 || q == 13 || q == 17
    requires n % q == 0 && n > q
    ensures !Sieved(n)
  {
  }

  lemma FactorOf(n: nat, q: nat, r: nat, e: nat)
    requires n == q * r * e && q > 0 && r >= 1 && e >= 2
    ensures n % q == 0 && n > q
  {
    var m := r * e;
    assert m >= 2 by {
      assert r * e >= e;
    }
    assert n == q * m by {
      assert q * r * e == q * (r * e);
    }
    DividesMultiple(q, m);
    assert q * m >= q * 2;
  }

  lemma DividesMultiple(q: nat, m: nat)
    requires q > 0
    ensures (q * m) % q == 0
  {
    var r, k := (q * m) % q, (q * m) / q;
    assert q * m == q * k + r;
    assert k < m ==> q * m >= q * (k + 1);
  }

  /** Prime(t) is prime, and every number between it and the one before is not. */
  lemma PrimesAreFirst(t: nat)
    requires t < 64
    ensures IsPrime(Prime(t))
    ensures forall n :: (if t == 0 then 0 else Prime(t - 1) + 1) <= n < Prime(t) ==> !IsPrime(n)
  {
    hide IsPrime, Sieved, Gap;
    SieveRow(t);
    SievedArePrime(Prime(t));
    var before := Before(t);
    forall n | before <= n < Prime(t) ensures !IsPrime(n) {
      GapMeans(before, Prime(t), n);
      SievedArePrime(n);
    }
    SmallNotPrime();
  }

  lemma SmallNotPrime()
    ensures !IsPrime(0) && !IsPrime(1)
  {
  }

  function Before(t: nat): (n: nat)
    requires t < 64
  {
    if t == 0 then 2 else Prime(t - 1) + 1
  }

  /** Nothing from a up to b passes the sieve. */
  predicate Gap(a: nat, b: nat)
    decreases b - a
  {
    a >= b || (!Sieved(a) && Gap(a + 1, b))
  }

  lemma {:induction false} GapMeans(a: nat, b: nat, n: nat)
    requires Gap(a, b) && a <= n < b
    ensures !Sieved(n)
    decreases n - a
  {
    if a < n {
      GapMeans(a + 1, b, n);
    }
  }

  predicate SievedPlace(t: nat)
    requires t < 64
  {
    2 <= Before(t) && Prime(t) < 361 && 2 <= Prime(t) && Sieved(Prime(t)) && Gap(Before(t), Prime(t))
  }

  lemma SieveRow(t: nat)
    requires t < 64
    ensures SievedPlace(t)
  {
    hide SievedPlace;
    if t < 8 { SieveRow1(t); } else if t < 16 { SieveRow2(t); }
    else if t < 24 { SieveRow3(t); } else if t < 32 { SieveRow4(t); }
    else if t < 40 { SieveRow5(t); } else if t < 48 { SieveRow6(t); }
    else if t < 56 { SieveRow7(t); } else { SieveRow8(t); }
  }

  lemma SieveRow1(t: nat)
    requires 0 <= t < 8
    ensures SievedPlace(t)
  {
    match t
    case 0 => assert Sieved(2) && Gap(2, 2);
    case 1 => assert Sieved(3) && Gap(3, 3);
    case 2 => assert Sieved(5) && Gap(4, 5);
    case 3 => assert Sieved(7) && Gap(6, 7);
    case 4 => assert Sieved(11) && Gap(8, 11);
    case 5 => assert Sieved(13) && Gap(12, 13);
    case 6 => assert Sieved(17) && Gap(14, 17);
    case _ => assert Sieved(19) && Gap(18, 19);
  }

  lemma SieveRow2(t: nat)
    requires 8 <= t < 16
    ensures SievedPlace(t)
  {
    match t
    case 8 => assert Sieved(23) && Gap(20, 23);
    case 9 => assert Sieved(29) && Gap(24, 29);
    case 10 => assert Sieved(31) && Gap(30, 31);
    case 11 => assert Sieved(37) && Gap(32, 37);
    case 12 => assert Sieved(41) && Gap(38, 41);
    case 13 => assert Sieved(43) && Gap(42, 43);
    case 14 => assert Sieved(47) && Gap(44, 47);
    case _ => assert Sieved(53) && Gap(48, 53);
  }

  lemma SieveRow3(t: nat)
    requires 16 <= t < 24
    ensures SievedPlace(t)
  {
    match t
    case 16 => assert Sieved(59) && Gap(54, 59);
    case 17 => assert Sieved(61) && Gap(60, 61);
    case 18 => assert Sieved(67) && Gap(62, 67);
    case 19 => assert Sieved(71) && Gap(68, 71);
    case 20 => assert Sieved(73) && Gap(72, 73);
    case 21 => assert Sieved(79) && Gap(74, 79);
    case 22 => assert Sieved(83) && Gap(80, 83);
    case _ => assert Sieved(89) && Gap(84, 89);
  }

  lemma SieveRow4(t: nat)
    requires 24 <= t < 32
    ensures SievedPlace(t)
  {
    match t
    case 24 => assert Sieved(97) && Gap(90, 97);
    case 25 => assert Sieved(101) && Gap(98, 101);
    case 26 => assert Sieved(103) && Gap(102, 103);
    case 27 => assert Sieved(107) && Gap(104, 107);
    case 28 => assert Sieved(109) && Gap(108, 109);
    case 29 => assert Sieved(113) && Gap(110, 113);
    case 30 => assert Sieved(127) && Gap(114, 127);
    case _ => assert Sieved(131) && Gap(128, 131);
  }

  lemma SieveRow5(t: nat)
    requires 32 <= t < 40
    ensures SievedPlace(t)
  {
    match t
    case 32 => assert Sieved(137) && Gap(132, 137);
    case 33 => assert Sieved(139) && Gap(138, 139);
    case 34 => assert Sieved(149) && Gap(140, 149);
    case 35 => assert Sieved(151) && Gap(150, 151);
    case 36 => assert Sieved(157) && Gap(152, 157);
    case 37 => assert Sieved(163) && Gap(158, 163);
    case 38 => assert Sieved(167) && Gap(164, 167);
    case _ => assert Sieved(173) && Gap(168, 173);
  }

  lemma SieveRow6(t: nat)
    requires 40 <= t < 48
    ensures SievedPlace(t)
  {
    match t
    case 40 => assert Sieved(179) && Gap(174, 179);
    case 41 => assert Sieved(181) && Gap(180, 181);
    case 42 => assert Sieved(191) && Gap(182, 191);
    case 43 => assert Sieved(193) && Gap(192, 193);
    case 44 => assert Sieved(197) && Gap(194, 197);
    case 45 => assert Sieved(199) && Gap(198, 199);
    case 46 => assert Sieved(211) && Gap(200, 211);
    case _ => assert Sieved(223) && Gap(212, 223);
  }

  lemma SieveRow7(t: nat)
    requires 48 <= t < 56
    ensures SievedPlace(t)
  {
    match t
    case 48 => assert Sieved(227) && Gap(224, 227);
    case 49 => assert Sieved(229) && Gap(228, 229);
    case 50 => assert Sieved(233) && Gap(230, 233);
    case 51 => assert Sieved(239) && Gap(234, 239);
    case 52 => assert Sieved(241) && Gap(240, 241);
    case 53 => assert Sieved(251) && Gap(242, 251);
    case 54 => assert Sieved(257) && Gap(252, 257);
    case _ => assert Sieved(263) && Gap(258, 263);
  }

  lemma SieveRow8(t: nat)
    requires 56 <= t < 64
    ensures SievedPlace(t)
  {
    match t
    case 56 => assert Sieved(269) && Gap(264, 269);
    case 57 => assert Sieved(271) && Gap(270, 271);
    case 58 => assert Sieved(277) && Gap(272, 277);
    case 59 => assert Sieved(281) && Gap(278, 281);
    case 60 => assert Sieved(283) && Gap(282, 283);
    case 61 => assert Sieved(293) && Gap(284, 293);
    case 62 => assert Sieved(307) && Gap(294, 307);
    case _ => assert Sieved(311) && Gap(308, 311);
  }
}
