/** The one-shot SHA-256 implementation on machine words, with its hand-built tail, and its
    agreement with the standard's definition on bits. */
module Sha256 {
  import opened Bytes
  import opened Fips180

  const K: seq<u32> := [
    0x428a2f98, 0x71374491, 0xb5c0fbcf, 0xe9b5dba5, 0x3956c25b, 0x59f111f1, 0x923f82a4, 0xab1c5ed5,
    0xd807aa98, 0x12835b01, 0x243185be, 0x550c7dc3, 0x72be5d74, 0x80deb1fe, 0x9bdc06a7, 0xc19bf174,
    0xe49b69c1, 0xefbe4786, 0x0fc19dc6, 0x240ca1cc, 0x2de92c6f, 0x4a7484aa, 0x5cb0a9dc, 0x76f988da,
    0x983e5152, 0xa831c66d, 0xb00327c8, 0xbf597fc7, 0xc6e00bf3, 0xd5a79147, 0x06ca6351, 0x14292967
  ] + [
    0x27b70a85, 0x2e1b2138, 0x4d2c6dfc, 0x53380d13, 0x650a7354, 0x766a0abb, 0x81c2c92e, 0x92722c85,
    0xa2bfe8a1, 0xa81a664b, 0xc24b8b70, 0xc76c51a3, 0xd192e819, 0xd6990624, 0xf40e3585, 0x106aa070,
    0x19a4c116, 0x1e376c08, 0x2748774c, 0x34b0bcb5, 0x391c0cb3, 0x4ed8aa4a, 0x5b9cca4f, 0x682e6ff3,
    0x748f82ee, 0x78a5636f, 0x84c87814, 0x8cc70208, 0x90befffa, 0xa4506ceb, 0xbef9a3f7, 0xc67178f2
  ]

  const H0: seq<u32> := [
    0x6a09e667, 0xbb67ae85, 0x3c6ef372, 0xa54ff53a, 0x510e527f, 0x9b05688c, 0x1f83d9ab, 0x5be0cd19
  ]

  // Unsigned machine words as numbers: bitwise operations by their low bits, addition and left
  // shift with wrap-around.

  function XorBits(x: nat, y: nat, n: nat): (r: nat)
    ensures r < Pow2(n)
    decreases n
  {
    if n == 0 then 0 else 2 * XorBits(x / 2, y / 2, n - 1) + (if x % 2 != y % 2 then 1 else 0)
  }

  function AndBits(x: nat, y: nat, n: nat): (r: nat)
    ensures r < Pow2(n)
    decreases n
  {
    if n == 0 then 0 else 2 * AndBits(x / 2, y / 2, n - 1) + (if x % 2 == 1 && y % 2 == 1 then 1 else 0)
  }

  function OrBits(x: nat, y: nat, n: nat): (r: nat)
    ensures r < Pow2(n)
    decreases n
  {
    if n == 0 then 0 else 2 * OrBits(x / 2, y / 2, n - 1) + (if x % 2 == 1 || y % 2 == 1 then 1 else 0)
  }

  lemma WordSize()
    ensures Pow2(32) == 0x1_0000_0000
  {
    assert Pow2(8) == 0x100;
    assert Pow2(12) == 0x10 * Pow2(8);
    assert Pow2(16) == 0x10 * Pow2(12);
    assert Pow2(20) == 0x10 * Pow2(16);
    assert Pow2(24) == 0x10 * Pow2(20);
    assert Pow2(28) == 0x10 * Pow2(24);
    assert Pow2(32) == 0x10 * Pow2(28);
  }

  function Add(x: u32, y: u32): u32 { (x + y) % 0x1_0000_0000 }

  function And(x: u32, y: u32): u32 { WordSize(); AndBits(x, y, 32) }

  function Xor(x: u32, y: u32): u32 { WordSize(); XorBits(x, y, 32) }

  function Or(x: u32, y: u32): u32 { WordSize(); OrBits(x, y, 32) }

  function Not(x: u32): u32 { 0xFFFF_FFFF - x }

  function Shr(x: u32, n: nat): (r: u32)
    decreases n
  {
    if n == 0 then x else Shr(x / 2, n - 1)
  }

  function Shl(x: u32, n: nat): (r: u32)
    decreases n
  {
    if n == 0 then x else Shl((2 * x) % 0x1_0000_0000, n - 1)
  }

  function Rotr(x: u32, n: nat): u32
    requires 0 < n < 32
  {
    Or(Shr(x, n), Shl(x, 32 - n))
  }

  function Ch(x: u32, y: u32, z: u32): u32 { Xor(And(x, y), And(Not(x), z)) }

  function Maj(x: u32, y: u32, z: u32): u32 { Xor(Xor(And(x, y), And(x, z)), And(y, z)) }

  function BigSigma0(x: u32): u32 { Xor(Xor(Rotr(x, 2), Rotr(x, 13)), Rotr(x, 22)) }

  function BigSigma1(x: u32): u32 { Xor(Xor(Rotr(x, 6), Rotr(x, 11)), Rotr(x, 25)) }

  function SmallSigma0(x: u32): u32 { Xor(Xor(Rotr(x, 7), Rotr(x, 18)), Shr(x, 3)) }

  function SmallSigma1(x: u32): u32 { Xor(Xor(Rotr(x, 17), Rotr(x, 19)), Shr(x, 10)) }

  // ---------------------------------------------------------------------------
  // The compression function on machine words
  // ---------------------------------------------------------------------------

  /** A 512-bit message block as sixteen words. */
  type Words = m: seq<u32> | |m| == 16 witness seq(16, i => 0)

  type Hash = h: seq<u32> | |h| == 8 witness H0

  /** The message schedule. */
  function W(m: Words, t: nat): u32
    requires t < 64
  {
    if t < 16 then m[t]
    else Add(Add(Add(SmallSigma1(W(m, t - 2)), W(m, t - 7)), SmallSigma0(W(m, t - 15))), W(m, t - 16))
  }

  /** The eight working variables. */
  datatype Working = Working(a: u32, b: u32, c: u32, d: u32, e: u32, f: u32, g: u32, h: u32)

  /** One round. */
  function Round(v: Working, k: u32, w: u32): Working {
    var t1 := Add(Add(Add(Add(v.h, BigSigma1(v.e)), Ch(v.e, v.f, v.g)), k), w);
    var t2 := Add(BigSigma0(v.a), Maj(v.a, v.b, v.c));
    Working(Add(t1, t2), v.a, v.b, v.c, Add(v.d, t1), v.e, v.f, v.g)
  }

  /** The working variables after the first t rounds. */
  function Rounds(h: Hash, m: Words, t: nat): Working
    requires t <= |K|
  {
    if t == 0 then Working(h[0], h[1], h[2], h[3], h[4], h[5], h[6], h[7])
    else Round(Rounds(h, m, t - 1), K[t - 1], W(m, t - 1))
  }

  /** Add the working variables into the previous hash value. */
  function AddInto(h: Hash, v: Working): Hash {
    [Add(h[0], v.a), Add(h[1], v.b), Add(h[2], v.c), Add(h[3], v.d),
     Add(h[4], v.e), Add(h[5], v.f), Add(h[6], v.g), Add(h[7], v.h)]
  }

  /** The intermediate hash value after one block. */
  function Compress(h: Hash, m: Words): Hash {
    AddInto(h, Rounds(h, m, |K|))
  }

  // ---------------------------------------------------------------------------
  // The byte-level digest the implementation computes
  // ---------------------------------------------------------------------------

  function BigEndian(v: nat, n: nat): (bytes: seq<u8>)
    ensures |bytes| == n
    decreases n
  {
    if n == 0 then [] else BigEndian(v / 256, n - 1) + [v % 256]
  }

  function ZeroBytes(n: nat): (bytes: seq<u8>)
    ensures |bytes| == n
  {
    seq(n, i => 0)
  }

  /** Zero bytes between the marker and the length. */
  function ZeroByteCount(len: nat): (z: nat)
    ensures z < 64 && (len + z + 9) % 64 == 0
  {
    (55 - len) % 64
  }

  /** Message, marker byte, zeros and the 64-bit length, which wraps. */
  function PadBytes(msg: seq<u8>): (p: seq<u8>)
    ensures |p| == |msg| + ZeroByteCount(|msg|) + 9
  {
    msg + [0x80] + ZeroBytes(ZeroByteCount(|msg|)) + BigEndian((8 * |msg|) % MAX_BITS, 8)
  }

  function Word(b0: u8, b1: u8, b2: u8, b3: u8): u32 {
    b0 * 0x100_0000 + b1 * 0x1_0000 + b2 * 0x100 + b3
  }

  function BytesToWords(block: seq<u8>): (m: Words)
    requires |block| == 64
  {
    seq(16, t requires 0 <= t < 16 => Word(block[4 * t], block[4 * t + 1], block[4 * t + 2], block[4 * t + 3]))
  }

  function BlockAt(p: seq<u8>, i: nat): (block: seq<u8>)
    requires 64 * (i + 1) <= |p|
    ensures |block| == 64
  {
    p[64 * i..64 * (i + 1)]
  }

  function HashBytes(p: seq<u8>, n: nat): (h: Hash)
    requires 64 * n <= |p|
  {
    if n == 0 then H0 else Compress(HashBytes(p, n - 1), BytesToWords(BlockAt(p, n - 1)))
  }

  function HashWordBytes(h: Hash, n: nat): (bytes: seq<u8>)
    requires n <= 8
    ensures |bytes| == 4 * n
  {
    if n == 0 then [] else HashWordBytes(h, n - 1) + BigEndian(h[n - 1], 4)
  }

  function Digest(msg: seq<u8>): (digest: seq<u8>)
    ensures |digest| == 32
  {
    var p := PadBytes(msg);
    HashWordBytes(HashBytes(p, |p| / 64), |H0|)
  }

  // ---------------------------------------------------------------------------
  // Machine words bit by bit
  // ---------------------------------------------------------------------------

  /** Bit i of a number, the least significant one first. */
  predicate BitAt(x: nat, i: nat)
    decreases i
  {
    if i == 0 then x % 2 == 1 else BitAt(x / 2, i - 1)
  }

  lemma {:induction false} AndAt(x: nat, y: nat, n: nat, i: nat)
    requires i < n
    ensures BitAt(AndBits(x, y, n), i) <==> BitAt(x, i) && BitAt(y, i)
    decreases n
  {
    if i > 0 {
      AndAt(x / 2, y / 2, n - 1, i - 1);
    }
  }

  lemma {:induction false} XorAt(x: nat, y: nat, n: nat, i: nat)
    requires i < n
    ensures BitAt(XorBits(x, y, n), i) <==> BitAt(x, i) != BitAt(y, i)
    decreases n
  {
    if i > 0 {
      XorAt(x / 2, y / 2, n - 1, i - 1);
    }
  }

  lemma {:induction false} OrAt(x: nat, y: nat, n: nat, i: nat)
    requires i < n
    ensures BitAt(OrBits(x, y, n), i) <==> BitAt(x, i) || BitAt(y, i)
    decreases n
  {
    if i > 0 {
      OrAt(x / 2, y / 2, n - 1, i - 1);
    }
  }

  lemma {:induction false} ComplementAt(x: nat, n: nat, i: nat)
    requires x < Pow2(n) && i < n
    ensures BitAt(Pow2(n) - 1 - x, i) <==> !BitAt(x, i)
    decreases n
  {
    if i > 0 {
      ComplementAt(x / 2, n - 1, i - 1);
      assert (Pow2(n) - 1 - x) / 2 == Pow2(n - 1) - 1 - x / 2;
    }
  }

  lemma {:induction false} ShrAt(x: u32, n: nat, i: nat)
    ensures BitAt(Shr(x, n), i) <==> BitAt(x, i + n)
    decreases n
  {
    if n > 0 {
      ShrAt(x / 2, n - 1, i);
    }
  }

  /** Nothing stands above the top bit. */
  lemma {:induction false} HighAt(x: nat, n: nat, i: nat)
    requires x < Pow2(n) && n <= i
    ensures !BitAt(x, i)
    decreases i
  {
    if i > 0 {
      HighAt(x / 2, if n == 0 then 0 else n - 1, i - 1);
    }
  }

  lemma {:induction false} LowAt(v: nat, w: nat, d: nat, n: nat, i: nat)
    requires v == w + d * Pow2(n) && i < n
    ensures BitAt(v, i) <==> BitAt(w, i)
    decreases n
  {
    var e := d * Pow2(n - 1);
    assert v == w + 2 * e;
    if i > 0 {
      LowAt(v / 2, w / 2, d, n - 1, i - 1);
    }
  }

  lemma DoubleAt(x: u32, i: nat)
    requires i < 32
    ensures BitAt((2 * x) % 0x1_0000_0000, i) <==> i > 0 && BitAt(x, i - 1)
  {
    var v: nat := 2 * x;
    var w: nat, d: nat := v % 0x1_0000_0000, v / 0x1_0000_0000;
    WordSize();
    hide Pow2;
    LowAt(v, w, d, 32, i);
    assert v / 2 == x;
  }

  lemma {:induction false} ShlAt(x: u32, n: nat, i: nat)
    requires i < 32
    ensures BitAt(Shl(x, n), i) <==> i >= n && BitAt(x, i - n)
    decreases n
  {
    if n > 0 {
      hide BitAt;
      ShlAt((2 * x) % 0x1_0000_0000, n - 1, i);
      if i >= n - 1 {
        DoubleAt(x, i - (n - 1));
      }
    }
  }

  /** Rotation takes bit i from n places above, around the end. */
  lemma RotrAt(x: u32, n: nat, i: nat)
    requires 0 < n < 32 && i < 32
    ensures BitAt(Rotr(x, n), i) <==> BitAt(x, (i + n) % 32)
  {
    WordSize();
    hide BitAt, OrBits, Shr, Shl, Pow2;
    OrAt(Shr(x, n), Shl(x, 32 - n), 32, i);
    ShrAt(x, n, i);
    ShlAt(x, 32 - n, i);
    if i + n >= 32 {
      HighAt(x, 32, i + n);
    }
  }

  /** Each bit of x chooses between y and z. */
  lemma ChAt(x: u32, y: u32, z: u32, i: nat)
    requires i < 32
    ensures BitAt(Ch(x, y, z), i) <==> if BitAt(x, i) then BitAt(y, i) else BitAt(z, i)
  {
    WordSize();
    hide BitAt, AndBits, XorBits, Pow2;
    XorAt(And(x, y), And(Not(x), z), 32, i);
    AndAt(x, y, 32, i);
    AndAt(Not(x), z, 32, i);
    ComplementAt(x, 32, i);
  }

  /** Each bit is set when it is in at least two of the words. */
  lemma MajAt(x: u32, y: u32, z: u32, i: nat)
    requires i < 32
    ensures BitAt(Maj(x, y, z), i)
            <==> (BitAt(x, i) && BitAt(y, i)) || (BitAt(x, i) && BitAt(z, i)) || (BitAt(y, i) && BitAt(z, i))
  {
    hide BitAt, AndBits, XorBits;
    XorAt(Xor(And(x, y), And(x, z)), And(y, z), 32, i);
    XorAt(And(x, y), And(x, z), 32, i);
    AndAt(x, y, 32, i);
    AndAt(x, z, 32, i);
    AndAt(y, z, 32, i);
  }

  lemma ParityAt(x: u32, y: u32, z: u32, i: nat)
    requires i < 32
    ensures BitAt(Xor(Xor(x, y), z), i) <==> (BitAt(x, i) != BitAt(y, i)) != BitAt(z, i)
  {
    hide BitAt, XorBits;
    XorAt(Xor(x, y), z, 32, i);
    XorAt(x, y, 32, i);
  }

  /** Each sigma is the parity of three bits of its argument, a shifted-out one counting as unset. */
  lemma SigmasAt(x: u32, i: nat)
    requires i < 32
    ensures BitAt(BigSigma0(x), i) <==> (BitAt(x, (i + 2) % 32) != BitAt(x, (i + 13) % 32)) != BitAt(x, (i + 22) % 32)
    ensures BitAt(BigSigma1(x), i) <==> (BitAt(x, (i + 6) % 32) != BitAt(x, (i + 11) % 32)) != BitAt(x, (i + 25) % 32)
    ensures BitAt(SmallSigma0(x), i) <==> (BitAt(x, (i + 7) % 32) != BitAt(x, (i + 18) % 32)) != BitAt(x, i + 3)
    ensures BitAt(SmallSigma1(x), i) <==> (BitAt(x, (i + 17) % 32) != BitAt(x, (i + 19) % 32)) != BitAt(x, i + 10)
  {
    hide BitAt, Rotr, Shr, Xor;
    ParityAt(Rotr(x, 2), Rotr(x, 13), Rotr(x, 22), i);
    ParityAt(Rotr(x, 6), Rotr(x, 11), Rotr(x, 25), i);
    ParityAt(Rotr(x, 7), Rotr(x, 18), Shr(x, 3), i);
    ParityAt(Rotr(x, 17), Rotr(x, 19), Shr(x, 10), i);
    RotrAt(x, 2, i);
    RotrAt(x, 13, i);
    RotrAt(x, 22, i);
    RotrAt(x, 6, i);
    RotrAt(x, 11, i);
    RotrAt(x, 25, i);
    RotrAt(x, 7, i);
    RotrAt(x, 18, i);
    RotrAt(x, 17, i);
    RotrAt(x, 19, i);
    ShrAt(x, 3, i);
    ShrAt(x, 10, i);
  }

  // ---------------------------------------------------------------------------
  // Machine words as the standard's words
  // ---------------------------------------------------------------------------

  /** A machine word written out, most significant bit first. */
  function Lift(x: u32): (w: Fips180.Word)
    ensures forall j :: 0 <= j < 32 ==> (w[j] <==> BitAt(x, 31 - j))
  {
    forall j | 0 <= j < 32 ensures Binary(x, 32)[j] <==> BitAt(x, 31 - j) {
      BinaryAt(x, 32, 31 - j);
    }
    Binary(x, 32)
  }

  lemma {:induction false} BinaryAt(v: nat, n: nat, j: nat)
    requires j < n
    ensures Binary(v, n)[n - 1 - j] <==> BitAt(v, j)
    decreases n
  {
    if j > 0 {
      BinaryAt(v / 2, n - 1, j - 1);
    }
  }

  function LiftAll(h: seq<u32>): (r: seq<Fips180.Word>)
    ensures |r| == |h|
  {
    seq(|h|, j requires 0 <= j < |h| => Lift(h[j]))
  }

  lemma RotrLifts(x: u32, n: nat)
    requires 0 < n < 32
    ensures Lift(Rotr(x, n)) == Fips180.Rotr(Lift(x), n)
  {
    hide Lift, BitAt, Rotr;
    var a, b := Lift(Rotr(x, n)), Fips180.Rotr(Lift(x), n);
    forall j | 0 <= j < 32 ensures a[j] == b[j] {
      RotrAt(x, n, 31 - j);
      assert b[j] == Lift(x)[if j < n then 32 - n + j else j - n];
    }
  }

  lemma ShrLifts(x: u32, n: nat)
    requires n <= 32
    ensures Lift(Shr(x, n)) == Fips180.Shr(Lift(x), n)
  {
    WordSize();
    hide Lift, BitAt, Shr, Pow2;
    var a, b := Lift(Shr(x, n)), Fips180.Shr(Lift(x), n);
    forall j | 0 <= j < 32 ensures a[j] == b[j] {
      ShrAt(x, n, 31 - j);
      if j < n {
        HighAt(x, 32, 31 - j + n);
      }
    }
  }

  lemma ChLifts(x: u32, y: u32, z: u32)
    ensures Lift(Ch(x, y, z)) == Fips180.Ch(Lift(x), Lift(y), Lift(z))
  {
    hide Lift, BitAt, Ch;
    forall j | 0 <= j < 32 ensures Lift(Ch(x, y, z))[j] == Fips180.Ch(Lift(x), Lift(y), Lift(z))[j] {
      ChAt(x, y, z, 31 - j);
    }
  }

  lemma MajLifts(x: u32, y: u32, z: u32)
    ensures Lift(Maj(x, y, z)) == Fips180.Maj(Lift(x), Lift(y), Lift(z))
  {
    hide Lift, BitAt, Maj;
    forall j | 0 <= j < 32 ensures Lift(Maj(x, y, z))[j] == Fips180.Maj(Lift(x), Lift(y), Lift(z))[j] {
      MajAt(x, y, z, 31 - j);
    }
  }

  lemma ParityLifts(x: u32, y: u32, z: u32)
    ensures Lift(Xor(Xor(x, y), z)) == Parity(Lift(x), Lift(y), Lift(z))
  {
    hide Lift, BitAt, Xor;
    forall j | 0 <= j < 32 ensures Lift(Xor(Xor(x, y), z))[j] == Parity(Lift(x), Lift(y), Lift(z))[j] {
      ParityAt(x, y, z, 31 - j);
    }
  }

  lemma SigmasLift(x: u32)
    ensures Lift(BigSigma0(x)) == Fips180.BigSigma0(Lift(x)) && Lift(BigSigma1(x)) == Fips180.BigSigma1(Lift(x))
    ensures Lift(SmallSigma0(x)) == Fips180.SmallSigma0(Lift(x)) && Lift(SmallSigma1(x)) == Fips180.SmallSigma1(Lift(x))
  {
    hide Lift, Rotr, Fips180.Rotr, Shr, Fips180.Shr, Xor, Parity;
    ParityLifts(Rotr(x, 2), Rotr(x, 13), Rotr(x, 22));
    ParityLifts(Rotr(x, 6), Rotr(x, 11), Rotr(x, 25));
    ParityLifts(Rotr(x, 7), Rotr(x, 18), Shr(x, 3));
    ParityLifts(Rotr(x, 17), Rotr(x, 19), Shr(x, 10));
    RotrLifts(x, 2);
    RotrLifts(x, 13);
    RotrLifts(x, 22);
    RotrLifts(x, 6);
    RotrLifts(x, 11);
    RotrLifts(x, 25);
    RotrLifts(x, 7);
    RotrLifts(x, 18);
    RotrLifts(x, 17);
    RotrLifts(x, 19);
    ShrLifts(x, 3);
    ShrLifts(x, 10);
  }

  lemma {:induction false} ValueOfBinary(v: nat, n: nat)
    requires v < Pow2(n)
    ensures Value(Binary(v, n)) == v
    decreases n
  {
    if n > 0 {
      ValueOfBinary(v / 2, n - 1);
      var bits := Binary(v, n);
      assert bits[..|bits| - 1] == Binary(v / 2, n - 1);
    }
  }

  lemma AddLifts(x: u32, y: u32)
    ensures Lift(Add(x, y)) == Plus(Lift(x), Lift(y))
  {
    WordSize();
    hide Binary, Value, Pow2, BitAt;
    ValueOfBinary(x, 32);
    ValueOfBinary(y, 32);
  }

  lemma {:induction false} ScheduleLifts(m: Words, t: nat)
    requires t < 64
    ensures Lift(W(m, t)) == Fips180.W(LiftAll(m), t)
  {
    hide Lift, Add, Plus, SmallSigma0, SmallSigma1, Fips180.SmallSigma0, Fips180.SmallSigma1;
    if t >= 16 {
      ScheduleLifts(m, t - 2);
      ScheduleLifts(m, t - 7);
      ScheduleLifts(m, t - 15);
      ScheduleLifts(m, t - 16);
      ExpansionLifts(W(m, t - 2), W(m, t - 7), W(m, t - 15), W(m, t - 16));
    }
  }

  lemma ExpansionLifts(a: u32, b: u32, c: u32, d: u32)
    ensures Lift(Add(Add(Add(SmallSigma1(a), b), SmallSigma0(c)), d))
            == Plus(Plus(Plus(Fips180.SmallSigma1(Lift(a)), Lift(b)), Fips180.SmallSigma0(Lift(c))), Lift(d))
  {
    hide Lift, Add, Plus, SmallSigma0, SmallSigma1, Fips180.SmallSigma0, Fips180.SmallSigma1;
    SigmasLift(a);
    SigmasLift(c);
    AddLifts(SmallSigma1(a), b);
    AddLifts(Add(SmallSigma1(a), b), SmallSigma0(c));
    AddLifts(Add(Add(SmallSigma1(a), b), SmallSigma0(c)), d);
  }

  function LiftWorking(v: Working): (r: Variables) {
    Variables(Lift(v.a), Lift(v.b), Lift(v.c), Lift(v.d), Lift(v.e), Lift(v.f), Lift(v.g), Lift(v.h))
  }

  lemma RoundLifts(v: Working, k: u32, w: u32)
    ensures LiftWorking(Round(v, k, w)) == Fips180.Round(LiftWorking(v), Lift(k), Lift(w))
  {
    hide Lift, Add, Plus, Ch, Maj, BigSigma0, BigSigma1, Fips180.Ch, Fips180.Maj, Fips180.BigSigma0, Fips180.BigSigma1;
    SigmasLift(v.e);
    SigmasLift(v.a);
    ChLifts(v.e, v.f, v.g);
    MajLifts(v.a, v.b, v.c);
    var s1, s2, s3 := Add(v.h, BigSigma1(v.e)), Add(Add(v.h, BigSigma1(v.e)), Ch(v.e, v.f, v.g)),
                      Add(Add(Add(v.h, BigSigma1(v.e)), Ch(v.e, v.f, v.g)), k);
    AddLifts(v.h, BigSigma1(v.e));
    AddLifts(s1, Ch(v.e, v.f, v.g));
    AddLifts(s2, k);
    AddLifts(s3, w);
    AddLifts(BigSigma0(v.a), Maj(v.a, v.b, v.c));
    AddLifts(Add(s3, w), Add(BigSigma0(v.a), Maj(v.a, v.b, v.c)));
    AddLifts(v.d, Add(s3, w));
  }

  lemma {:induction false} RoundsLift(h: Hash, m: Words, t: nat)
    requires t <= 64
    ensures |K| == 64 && LiftWorking(Rounds(h, m, t)) == Fips180.Rounds(LiftAll(h), LiftAll(m), t)
  {
    hide Lift, Round, Fips180.Round, W, Fips180.W, CubeRootFraction, Prime;
    if t > 0 {
      RoundsLift(h, m, t - 1);
      ScheduleLifts(m, t - 1);
      ConstantIsRoot(t - 1);
      RoundLifts(Rounds(h, m, t - 1), K[t - 1], W(m, t - 1));
      assert Binary(K[t - 1], 32) == Lift(K[t - 1]) by { LiftIsBinary(K[t - 1]); }
    }
  }

  lemma LiftIsBinary(x: u32)
    ensures Lift(x) == Binary(x, 32)
  {
  }

  lemma CompressLifts(h: Hash, m: Words)
    ensures LiftAll(Compress(h, m)) == Fips180.Compress(LiftAll(h), LiftAll(m))
  {
    hide Lift, Rounds, Fips180.Rounds, Add, Plus;
    RoundsLift(h, m, 64);
    var v := Rounds(h, m, 64);
    AddLifts(h[0], v.a);
    AddLifts(h[1], v.b);
    AddLifts(h[2], v.c);
    AddLifts(h[3], v.d);
    AddLifts(h[4], v.e);
    AddLifts(h[5], v.f);
    AddLifts(h[6], v.g);
    AddLifts(h[7], v.h);
    PlusCommutes();
  }

  lemma PlusCommutes()
    ensures forall x: Fips180.Word, y: Fips180.Word :: Plus(x, y) == Plus(y, x)
  {
  }

  /** The initial hash value is the fractional parts of square roots. */
  lemma InitialIsRoots()
    ensures LiftAll(H0) == Initial()
  {
    hide Lift, SquareRootFraction, Binary, Prime;
    forall j | 0 <= j < 8 ensures LiftAll(H0)[j] == Initial()[j] {
      InitialRoot(j);
      LiftIsBinary(H0[j]);
    }
  }

  lemma InitialRoot(j: nat)
    requires j < 8
    ensures H0[j] == SquareRootFraction(Prime(j))
  {
    hide SquareRoot;
    match j
    case 0 => SquareRootIs(2 * 0x1_0000_0000_0000_0000, 0x1_6a09e667);
    case 1 => SquareRootIs(3 * 0x1_0000_0000_0000_0000, 0x1_bb67ae85);
    case 2 => SquareRootIs(5 * 0x1_0000_0000_0000_0000, 0x2_3c6ef372);
    case 3 => SquareRootIs(7 * 0x1_0000_0000_0000_0000, 0x2_a54ff53a);
    case 4 => SquareRootIs(11 * 0x1_0000_0000_0000_0000, 0x3_510e527f);
    case 5 => SquareRootIs(13 * 0x1_0000_0000_0000_0000, 0x3_9b05688c);
    case 6 => SquareRootIs(17 * 0x1_0000_0000_0000_0000, 0x4_1f83d9ab);
    case _ => SquareRootIs(19 * 0x1_0000_0000_0000_0000, 0x4_5be0cd19);
  }

  lemma SquareRootIs(n: nat, c: nat)
    requires c * c <= n < (c + 1) * (c + 1)
    ensures SquareRoot(n) == c
  {
    var r := SquareRoot(n);
    hide SquareRoot;
    if r < c {
      SquaresGrow(r + 1, c);
    } else if c < r {
      SquaresGrow(c + 1, r);
    }
  }

  lemma SquaresGrow(a: nat, b: nat)
    requires a <= b
    ensures a * a <= b * b
  {
    assert a * a <= a * b <= b * b;
  }

  lemma CubeRootIs(n: nat, c: nat)
    requires c * c * c <= n < (c + 1) * (c + 1) * (c + 1)
    ensures CubeRoot(n) == c
  {
    var r := CubeRoot(n);
    hide CubeRoot;
    if r < c {
      CubesGrow(r + 1, c);
    } else if c < r {
      CubesGrow(c + 1, r);
    }
  }

  lemma CubesGrow(a: nat, b: nat)
    requires a <= b
    ensures a * a * a <= b * b * b
  {
    SquaresGrow(a, b);
    ProductsGrow(a * a, b * b, a, b);
  }

  lemma ProductsGrow(a: nat, b: nat, c: nat, d: nat)
    requires a <= b && c <= d
    ensures a * c <= b * d
  {
    assert a * c <= b * c <= b * d;
  }

  /** Round constant t is the fractional part of the cube root of the t-th prime. */
  lemma ConstantIsRoot(t: nat)
    requires t < 64
    ensures |K| == 64 && K[t] == CubeRootFraction(Prime(t))
  {
    hide CubeRootFraction, Prime;
    if t < 8 { ConstantRoots1(t); } else if t < 16 { ConstantRoots2(t); }
    else if t < 24 { ConstantRoots3(t); } else if t < 32 { ConstantRoots4(t); }
    else if t < 40 { ConstantRoots5(t); } else if t < 48 { ConstantRoots6(t); }
    else if t < 56 { ConstantRoots7(t); } else { ConstantRoots8(t); }
  }

  lemma FractionIs(p: nat, r: nat, k: u32, c: nat)
    requires c == r * 0x1_0000_0000 + k
    requires c * c * c <= p * 0x1_0000_0000_0000_0000_0000_0000 < (c + 1) * (c + 1) * (c + 1)
    ensures CubeRootFraction(p) == k
  {
    hide CubeRoot;
    CubeRootIs(p * 0x1_0000_0000_0000_0000_0000_0000, c);
    assert c % 0x1_0000_0000 == k;
  }

  lemma ConstantRoots1(t: nat)
    requires 0 <= t < 8
    ensures K[t] == CubeRootFraction(Prime(t))
  {
    hide CubeRootFraction;
    match t
    case 0 => FractionIs(2, 1, 0x428a2f98, 0x1_428a2f98);
    case 1 => FractionIs(3, 1, 0x71374491, 0x1_71374491);
    case 2 => FractionIs(5, 1, 0xb5c0fbcf, 0x1_b5c0fbcf);
    case 3 => FractionIs(7, 1, 0xe9b5dba5, 0x1_e9b5dba5);
    case 4 => FractionIs(11, 2, 0x3956c25b, 0x2_3956c25b);
    case 5 => FractionIs(13, 2, 0x59f111f1, 0x2_59f111f1);
    case 6 => FractionIs(17, 2, 0x923f82a4, 0x2_923f82a4);
    case _ => FractionIs(19, 2, 0xab1c5ed5, 0x2_ab1c5ed5);
  }

  lemma ConstantRoots2(t: nat)
    requires 8 <= t < 16
    ensures K[t] == CubeRootFraction(Prime(t))
  {
    hide CubeRootFraction;
    match t
    case 8 => FractionIs(23, 2, 0xd807aa98, 0x2_d807aa98);
    case 9 => FractionIs(29, 3, 0x12835b01, 0x3_12835b01);
    case 10 => FractionIs(31, 3, 0x243185be, 0x3_243185be);
    case 11 => FractionIs(37, 3, 0x550c7dc3, 0x3_550c7dc3);
    case 12 => FractionIs(41, 3, 0x72be5d74, 0x3_72be5d74);
    case 13 => FractionIs(43, 3, 0x80deb1fe, 0x3_80deb1fe);
    case 14 => FractionIs(47, 3, 0x9bdc06a7, 0x3_9bdc06a7);
    case _ => FractionIs(53, 3, 0xc19bf174, 0x3_c19bf174);
  }

  lemma ConstantRoots3(t: nat)
    requires 16 <= t < 24
    ensures K[t] == CubeRootFraction(Prime(t))
  {
    hide CubeRootFraction;
    match t
    case 16 => FractionIs(59, 3, 0xe49b69c1, 0x3_e49b69c1);
    case 17 => FractionIs(61, 3, 0xefbe4786, 0x3_efbe4786);
    case 18 => FractionIs(67, 4, 0x0fc19dc6, 0x4_0fc19dc6);
    case 19 => FractionIs(71, 4, 0x240ca1cc, 0x4_240ca1cc);
    case 20 => FractionIs(73, 4, 0x2de92c6f, 0x4_2de92c6f);
    case 21 => FractionIs(79, 4, 0x4a7484aa, 0x4_4a7484aa);
    case 22 => FractionIs(83, 4, 0x5cb0a9dc, 0x4_5cb0a9dc);
    case _ => FractionIs(89, 4, 0x76f988da, 0x4_76f988da);
  }

  lemma ConstantRoots4(t: nat)
    requires 24 <= t < 32
    ensures K[t] == CubeRootFraction(Prime(t))
  {
    hide CubeRootFraction;
    match t
    case 24 => FractionIs(97, 4, 0x983e5152, 0x4_983e5152);
    case 25 => FractionIs(101, 4, 0xa831c66d, 0x4_a831c66d);
    case 26 => FractionIs(103, 4, 0xb00327c8, 0x4_b00327c8);
    case 27 => FractionIs(107, 4, 0xbf597fc7, 0x4_bf597fc7);
    case 28 => FractionIs(109, 4, 0xc6e00bf3, 0x4_c6e00bf3);
    case 29 => FractionIs(113, 4, 0xd5a79147, 0x4_d5a79147);
    case 30 => FractionIs(127, 5, 0x06ca6351, 0x5_06ca6351);
    case _ => FractionIs(131, 5, 0x14292967, 0x5_14292967);
  }

  lemma ConstantRoots5(t: nat)
    requires 32 <= t < 40
    ensures K[t] == CubeRootFraction(Prime(t))
  {
    hide CubeRootFraction;
    match t
    case 32 => FractionIs(137, 5, 0x27b70a85, 0x5_27b70a85);
    case 33 => FractionIs(139, 5, 0x2e1b2138, 0x5_2e1b2138);
    case 34 => FractionIs(149, 5, 0x4d2c6dfc, 0x5_4d2c6dfc);
    case 35 => FractionIs(151, 5, 0x53380d13, 0x5_53380d13);
    case 36 => FractionIs(157, 5, 0x650a7354, 0x5_650a7354);
    case 37 => FractionIs(163, 5, 0x766a0abb, 0x5_766a0abb);
    case 38 => FractionIs(167, 5, 0x81c2c92e, 0x5_81c2c92e);
    case _ => FractionIs(173, 5, 0x92722c85, 0x5_92722c85);
  }

  lemma ConstantRoots6(t: nat)
    requires 40 <= t < 48
    ensures K[t] == CubeRootFraction(Prime(t))
  {
    hide CubeRootFraction;
    match t
    case 40 => FractionIs(179, 5, 0xa2bfe8a1, 0x5_a2bfe8a1);
    case 41 => FractionIs(181, 5, 0xa81a664b, 0x5_a81a664b);
    case 42 => FractionIs(191, 5, 0xc24b8b70, 0x5_c24b8b70);
    case 43 => FractionIs(193, 5, 0xc76c51a3, 0x5_c76c51a3);
    case 44 => FractionIs(197, 5, 0xd192e819, 0x5_d192e819);
    case 45 => FractionIs(199, 5, 0xd6990624, 0x5_d6990624);
    case 46 => FractionIs(211, 5, 0xf40e3585, 0x5_f40e3585);
    case _ => FractionIs(223, 6, 0x106aa070, 0x6_106aa070);
  }

  lemma ConstantRoots7(t: nat)
    requires 48 <= t < 56
    ensures K[t] == CubeRootFraction(Prime(t))
  {
    hide CubeRootFraction;
    match t
    case 48 => FractionIs(227, 6, 0x19a4c116, 0x6_19a4c116);
    case 49 => FractionIs(229, 6, 0x1e376c08, 0x6_1e376c08);
    case 50 => FractionIs(233, 6, 0x2748774c, 0x6_2748774c);
    case 51 => FractionIs(239, 6, 0x34b0bcb5, 0x6_34b0bcb5);
    case 52 => FractionIs(241, 6, 0x391c0cb3, 0x6_391c0cb3);
    case 53 => FractionIs(251, 6, 0x4ed8aa4a, 0x6_4ed8aa4a);
    case 54 => FractionIs(257, 6, 0x5b9cca4f, 0x6_5b9cca4f);
    case _ => FractionIs(263, 6, 0x682e6ff3, 0x6_682e6ff3);
  }

  lemma ConstantRoots8(t: nat)
    requires 56 <= t < 64
    ensures K[t] == CubeRootFraction(Prime(t))
  {
    hide CubeRootFraction;
    match t
    case 56 => FractionIs(269, 6, 0x748f82ee, 0x6_748f82ee);
    case 57 => FractionIs(271, 6, 0x78a5636f, 0x6_78a5636f);
    case 58 => FractionIs(277, 6, 0x84c87814, 0x6_84c87814);
    case 59 => FractionIs(281, 6, 0x8cc70208, 0x6_8cc70208);
    case 60 => FractionIs(283, 6, 0x90befffa, 0x6_90befffa);
    case 61 => FractionIs(293, 6, 0xa4506ceb, 0x6_a4506ceb);
    case 62 => FractionIs(307, 6, 0xbef9a3f7, 0x6_bef9a3f7);
    case _ => FractionIs(311, 6, 0xc67178f2, 0x6_c67178f2);
  }

  // ---------------------------------------------------------------------------
  // Bytes and bits agree
  // ---------------------------------------------------------------------------

  /** A byte string as a bit string. */
  function BitsOf(bytes: seq<u8>): (bits: Bits)
    ensures |bits| == 8 * |bytes|
  {
    if |bytes| == 0 then [] else BitsOf(bytes[..|bytes| - 1]) + Binary(bytes[|bytes| - 1], 8)
  }

  lemma {:induction false} BitsOfConcat(a: seq<u8>, b: seq<u8>)
    ensures BitsOf(a + b) == BitsOf(a) + BitsOf(b)
  {
    hide Binary;
    if |b| == 0 {
      assert a + b == a;
    } else {
      var front := b[..|b| - 1];
      BitsOfConcat(a, front);
      assert (a + b)[..|a + b| - 1] == a + front;
      assert BitsOf(a + b) == (BitsOf(a) + BitsOf(front)) + Binary(b[|b| - 1], 8);
    }
  }

  lemma BitsOfPrefix(bytes: seq<u8>, j: nat)
    requires j <= |bytes|
    ensures BitsOf(bytes[..j]) == BitsOf(bytes)[..8 * j]
  {
    hide BitsOf;
    BitsOfConcat(bytes[..j], bytes[j..]);
    assert bytes[..j] + bytes[j..] == bytes;
  }

  lemma BackOfPrefix<T>(front: seq<T>, back: seq<T>, whole: seq<T>, n: nat)
    requires n <= |whole| && front + back == whole[..n]
    ensures |front| <= n && back == whole[|front|..n]
  {
    assert back == (front + back)[|front|..];
  }

  lemma Regroup<T>(a: seq<T>, b: seq<T>, c: seq<T>, d: seq<T>)
    ensures (a + (b + c)) + d == a + b + c + d
  {
    assert a + (b + c) == a + b + c;
  }

  lemma JoinSlices<T>(s: seq<T>, i: nat, j: nat)
    requires i <= j <= |s|
    ensures s[..i] + s[i..j] == s[..j]
  {
  }

  lemma BitsOfSlice(bytes: seq<u8>, i: nat, j: nat)
    requires i <= j <= |bytes|
    ensures BitsOf(bytes[i..j]) == BitsOf(bytes)[8 * i..8 * j]
  {
    hide BitsOf;
    BitsOfPrefix(bytes, j);
    BitsOfConcat(bytes[..i], bytes[i..j]);
    JoinSlices(bytes, i, j);
    BackOfPrefix(BitsOf(bytes[..i]), BitsOf(bytes[i..j]), BitsOf(bytes), 8 * j);
  }

  function Halved(v: nat, j: nat): (r: nat)
    decreases j
  {
    if j == 0 then v else Halved(v / 2, j - 1)
  }

  lemma BinaryStep(v: nat, n: nat)
    requires n > 0
    ensures Binary(v, n) == Binary(v / 2, n - 1) + [v % 2 == 1]
  {
  }

  lemma BinaryNone(v: nat)
    ensures Binary(v, 0) == []
  {
  }

  lemma {:induction false} BinarySplits(v: nat, n: nat, j: nat)
    ensures Binary(v, n + j) == Binary(Halved(v, j), n) + Binary(v, j)
    decreases j
  {
    hide Binary;
    if j == 0 {
      BinaryNone(v);
    } else {
      BinarySplits(v / 2, n, j - 1);
      BinaryStep(v, n + j);
      BinaryStep(v, j);
      assert Halved(v, j) == Halved(v / 2, j - 1);
    }
  }

  /** Only the low j bits show in j places. */
  lemma {:induction false} BinaryIsLow(v: nat, w: nat, j: nat, d: nat)
    requires v == w + d * Pow2(j)
    ensures Binary(v, j) == Binary(w, j)
    decreases j
  {
    if j > 0 {
      var e := d * Pow2(j - 1);
      assert v == w + 2 * e;
      BinaryIsLow(v / 2, w / 2, j - 1, d);
    }
  }

  /** Eight more binary places are one more byte. */
  lemma BinaryByte(v: nat, n: nat)
    ensures Binary(v, n + 8) == Binary(v / 256, n) + Binary(v % 256, 8)
  {
    BinarySplits(v, n, 8);
    assert Halved(v, 8) == v / 256;
    assert Pow2(8) == 256;
    hide Binary, Halved, Pow2;
    BinaryIsLow(v, v % 256, 8, v / 256);
  }

  lemma {:induction false} BigEndianBits(v: nat, n: nat)
    ensures BitsOf(BigEndian(v, n)) == Binary(v, 8 * n)
  {
    hide Binary;
    if n == 0 {
      assert Binary(v, 0) == [];
    } else {
      BigEndianBits(v / 256, n - 1);
      BinaryByte(v, 8 * (n - 1));
    }
  }

  lemma ZeroByte()
    ensures Binary(0, 8) == Zeros(8)
  {
  }

  lemma {:induction false} ZeroByteBits(n: nat)
    ensures BitsOf(ZeroBytes(n)) == Zeros(8 * n)
  {
    hide Binary;
    if n > 0 {
      ZeroByteBits(n - 1);
      ZeroByte();
      assert ZeroBytes(n)[..n - 1] == ZeroBytes(n - 1);
      assert Zeros(8 * n) == Zeros(8 * (n - 1)) + Zeros(8);
    }
  }

  lemma MarkerByte()
    ensures Binary(0x80, 8) == [true] + Zeros(7)
  {
  }

  lemma SingleByte(b: u8)
    ensures BitsOf([b]) == Binary(b, 8)
  {
    assert [b][..0] == [];
  }

  lemma ZeroCountsAgree(len: nat)
    ensures ZeroCount(8 * len) == 8 * ZeroByteCount(len) + 7
  {
    hide ZeroCount, ZeroByteCount;
    var k, z := ZeroCount(8 * len), ZeroByteCount(len);
    OneResidue(8 * len + 1, k, 8 * z + 7, (len + z + 9) / 64);
  }

  lemma OneResidue(l: nat, k: nat, k': nat, q: nat)
    requires k < 512 && k' < 512
    requires (l + k) % 512 == 448 && l + k' + 64 == 512 * q
    ensures k == k'
  {
  }

  lemma ZerosConcat(a: nat, b: nat)
    ensures Zeros(a) + Zeros(b) == Zeros(a + b)
  {
  }

  /** The marker byte starts the run of zeros. */
  lemma MarkerAndZeros(z: nat)
    ensures BitsOf([0x80] + ZeroBytes(z)) == [true] + Zeros(8 * z + 7)
  {
    hide Binary, BitsOf, ZeroBytes, Zeros;
    BitsOfConcat([0x80], ZeroBytes(z));
    SingleByte(0x80);
    MarkerByte();
    ZeroByteBits(z);
    ZerosConcat(7, 8 * z);
    assert ([true] + Zeros(7)) + Zeros(8 * z) == [true] + (Zeros(7) + Zeros(8 * z));
  }

  lemma NoWrap(l: nat)
    requires l < MAX_BITS
    ensures l % MAX_BITS == l
  {
  }

  /** Byte padding is bit padding. */
  lemma PaddingAgrees(msg: seq<u8>)
    requires 8 * |msg| < MAX_BITS
    ensures BitsOf(PadBytes(msg)) == PadBits(BitsOf(msg))
  {
    hide Binary, BitsOf, ZeroBytes, Zeros, BigEndian, ZeroCount, ZeroByteCount;
    var z, m := ZeroByteCount(|msg|), BitsOf(msg);
    var marker, length := [0x80] + ZeroBytes(z), BigEndian(8 * |msg|, 8);
    assert PadBytes(msg) == (msg + marker) + length by {
      NoWrap(8 * |msg|);
      Regroup(msg, [0x80], ZeroBytes(z), length);
    }
    assert BitsOf(PadBytes(msg)) == (m + ([true] + Zeros(8 * z + 7))) + Binary(8 * |msg|, 64) by {
      BitsOfConcat(msg + marker, length);
      BitsOfConcat(msg, marker);
      MarkerAndZeros(z);
      BigEndianBits(8 * |msg|, 8);
    }
    ZeroCountsAgree(|msg|);
    Regroup(m, [true], Zeros(8 * z + 7), Binary(8 * |msg|, 64));
  }

  lemma FourOf(p: seq<u8>, j: nat)
    requires 4 * (j + 1) <= |p|
    ensures p[4 * j..4 * (j + 1)] == [p[4 * j], p[4 * j + 1], p[4 * j + 2], p[4 * j + 3]]
  {
  }

  lemma WordSlice(p: seq<u8>, j: nat)
    requires 4 * (j + 1) <= |p|
    ensures BitsOf(p[4 * j..4 * (j + 1)]) == BitsOf(p)[32 * j..32 * (j + 1)]
  {
    hide BitsOf;
    BitsOfSlice(p, 4 * j, 4 * (j + 1));
    assert 8 * (4 * j) == 32 * j && 8 * (4 * (j + 1)) == 32 * (j + 1);
  }

  /** A word read byte by byte is the word cut out bit by bit. */
  lemma WordsAgree(p: seq<u8>, j: nat)
    requires 4 * (j + 1) <= |p|
    ensures WordOf(BitsOf(p), j) == Lift(Word(p[4 * j], p[4 * j + 1], p[4 * j + 2], p[4 * j + 3]))
  {
    hide BitsOf, Binary, BigEndian, Word;
    WordSlice(p, j);
    FourOf(p, j);
    var v := Word(p[4 * j], p[4 * j + 1], p[4 * j + 2], p[4 * j + 3]);
    BigEndianWord(p[4 * j], p[4 * j + 1], p[4 * j + 2], p[4 * j + 3]);
    BigEndianBits(v, 4);
  }

  lemma BigEndianSnoc(v: nat, b: u8, n: nat)
    ensures BigEndian(256 * v + b, n + 1) == BigEndian(v, n) + [b]
  {
    var w: nat := 256 * v + b;
    assert w / 256 == v && w % 256 == b;
  }

  lemma BigEndianNone(v: nat)
    ensures BigEndian(v, 0) == []
  {
  }

  lemma BigEndianWord(b0: u8, b1: u8, b2: u8, b3: u8)
    ensures BigEndian(Word(b0, b1, b2, b3), 4) == [b0, b1, b2, b3]
  {
    hide BigEndian;
    BigEndianNone(0);
    BigEndianSnoc(0, b0, 0);
    BigEndianSnoc(b0, b1, 1);
    BigEndianSnoc(256 * b0 + b1, b2, 2);
    BigEndianSnoc(256 * (256 * b0 + b1) + b2, b3, 3);
  }

  /** The words of a block are the same read from bytes or from bits. */
  lemma BlockWordsAgree(block: seq<u8>)
    requires |block| == 64
    ensures BlockWords(BitsOf(block)) == LiftAll(BytesToWords(block))
  {
    hide BitsOf, Word, WordOf, Lift;
    forall t | 0 <= t < 16
      ensures BlockWords(BitsOf(block))[t] == LiftAll(BytesToWords(block))[t]
    {
      WordsAgree(block, t);
    }
  }

  lemma {:induction false} HashesAgree(p: seq<u8>, n: nat)
    requires 64 * n <= |p|
    ensures HashBits(BitsOf(p), n) == LiftAll(HashBytes(p, n))
  {
    hide BitsOf, Compress, Fips180.Compress, BlockWords, BytesToWords, LiftAll, Initial;
    if n == 0 {
      InitialIsRoots();
    } else {
      HashesAgree(p, n - 1);
      BitsOfSlice(p, 64 * (n - 1), 64 * n);
      assert 8 * (64 * (n - 1)) == 512 * (n - 1) && 8 * (64 * n) == 512 * n;
      assert BlockBits(BitsOf(p), n - 1) == BitsOf(BlockAt(p, n - 1));
      BlockWordsAgree(BlockAt(p, n - 1));
      CompressLifts(HashBytes(p, n - 1), BytesToWords(BlockAt(p, n - 1)));
    }
  }

  lemma {:induction false} OutputsAgree(h: Hash, n: nat)
    requires n <= 8
    ensures BitsOf(HashWordBytes(h, n)) == Joined(LiftAll(h), n)
  {
    hide BitsOf, Binary, BigEndian;
    if n == 0 {
      assert |BitsOf([])| == 0;
    } else {
      OutputsAgree(h, n - 1);
      BitsOfConcat(HashWordBytes(h, n - 1), BigEndian(h[n - 1], 4));
      BigEndianBits(h[n - 1], 4);
    }
  }

  /** Main result: on every message short enough for the standard, the byte-level digest with
      its hand-built tail is the digest of FIPS 180-4 over the message's bits. */
  lemma DigestIsFips(msg: seq<u8>)
    requires 8 * |msg| < MAX_BITS
    ensures BitsOf(Digest(msg)) == FipsDigest(BitsOf(msg))
  {
    hide BitsOf, HashBits, HashBytes, HashWordBytes, Joined, PadBits, PadBytes, LiftAll;
    var p := PadBytes(msg);
    PaddingAgrees(msg);
    assert |BitsOf(p)| / 512 == |p| / 64;
    HashesAgree(p, |p| / 64);
    OutputsAgree(HashBytes(p, |p| / 64), 8);
  }

  // ---------------------------------------------------------------------------
  // The implementation
  // ---------------------------------------------------------------------------

  /** The 64 scheduled words of a block. */
  method Schedule(block: seq<u8>) returns (w: array<u32>)
    requires |block| == 64
    ensures fresh(w) && w.Length == 64
    ensures forall t :: 0 <= t < 64 ==> w[t] == W(BytesToWords(block), t)
  {
    hide SmallSigma0, SmallSigma1, Add;
    ghost var m := BytesToWords(block);
    w := new u32[64];
    for t := 0 to 16
      invariant forall k :: 0 <= k < t ==> w[k] == W(m, k)
    {
      w[t] := Word(block[t * 4], block[t * 4 + 1], block[t * 4 + 2], block[t * 4 + 3]);
    }
    for t := 16 to 64
      invariant forall k :: 0 <= k < t ==> w[k] == W(m, k)
    {
      w[t] := Add(Add(Add(SmallSigma1(w[t - 2]), w[t - 7]), SmallSigma0(w[t - 15])), w[t - 16]);
    }
  }

  /** Sixty-four rounds over eight local variables, shifted one place a round. */
  method RunRounds(h0: Hash, ghost m: Words, w: array<u32>) returns (v: Working)
    requires w.Length == 64 && forall t :: 0 <= t < 64 ==> w[t] == W(m, t)
    ensures v == Rounds(h0, m, |K|)
  {
    hide BigSigma0, BigSigma1, Ch, Maj, Add, W;
    var a, b, c, d := h0[0], h0[1], h0[2], h0[3];
    var e, f, g, h := h0[4], h0[5], h0[6], h0[7];
    for t := 0 to |K|
      invariant Working(a, b, c, d, e, f, g, h) == Rounds(h0, m, t)
    {
      var t1 := Add(Add(Add(Add(h, BigSigma1(e)), Ch(e, f, g)), K[t]), w[t]);
      var t2 := Add(BigSigma0(a), Maj(a, b, c));
      h := g; g := f; f := e; e := Add(d, t1);
      d := c; c := b; b := a; a := Add(t1, t2);
    }
    v := Working(a, b, c, d, e, f, g, h);
  }

  method CompressBlock(H: array<u32>, block: seq<u8>)
    requires H.Length == 8 && |block| == 64
    modifies H
    ensures H[..] == Compress(old(H[..]), BytesToWords(block))
  {
    hide Rounds, W, Add, BytesToWords;
    ghost var h0, m := H[..], BytesToWords(block);
    var w := Schedule(block);
    var v := RunRounds(H[..], m, w);
    AddInPlace(H, v);
  }

  /** Add the working variables to the hash value. */
  method AddInPlace(H: array<u32>, v: Working)
    requires H.Length == 8
    modifies H
    ensures H[..] == AddInto(old(H[..]), v)
  {
    hide Add;
    H[0] := Add(H[0], v.a); H[1] := Add(H[1], v.b); H[2] := Add(H[2], v.c); H[3] := Add(H[3], v.d);
    H[4] := Add(H[4], v.e); H[5] := Add(H[5], v.f); H[6] := Add(H[6], v.g); H[7] := Add(H[7], v.h);
  }

  lemma {:induction false} BigEndianAt(v: nat, n: nat, i: nat)
    requires i < n
    ensures BigEndian(v, n)[n - 1 - i] == Bytewise(v, i) % 256
    decreases n
  {
    if i > 0 {
      BigEndianAt(v / 256, n - 1, i - 1);
    }
  }

  /** v shifted right by i bytes. */
  function Bytewise(v: nat, i: nat): (r: nat)
    decreases i
  {
    if i == 0 then v else Bytewise(v / 256, i - 1)
  }

  lemma {:induction false} BytewiseStep(v: nat, i: nat)
    ensures Bytewise(v, i + 1) == Bytewise(v, i) / 256
    decreases i
  {
    if i > 0 {
      BytewiseStep(v / 256, i - 1);
    }
  }

  lemma PaddedLength(len: nat, off: nat)
    requires off % 64 == 0 && off <= len < off + 64
    ensures len + ZeroByteCount(len) + 9 == off + (if len - off < 56 then 64 else 128)
  {
    assert len % 64 == len - off;
  }

  lemma SplitPadding(msg: seq<u8>, off: nat, rest: seq<u8>)
    requires off <= |msg|
    ensures (msg + rest)[off..] == msg[off..] + rest && (msg + rest)[..off] == msg[..off]
  {
  }

  /** The padded message is its whole blocks and the tail built behind them. */
  lemma TailOfPadding(msg: seq<u8>, off: nat)
    requires off % 64 == 0 && off <= |msg| < off + 64
    ensures |PadBytes(msg)| == off + (if |msg| - off < 56 then 64 else 128)
    ensures PadBytes(msg)[off..] == msg[off..] + [0x80] + ZeroBytes(ZeroByteCount(|msg|))
                                    + BigEndian((8 * |msg|) % MAX_BITS, 8)
    ensures PadBytes(msg)[..off] == msg[..off]
  {
    hide BigEndian, ZeroByteCount, ZeroBytes;
    PaddedLength(|msg|, off);
    SplitPadding(msg, off, [0x80]);
    SplitPadding(msg + [0x80], off, ZeroBytes(ZeroByteCount(|msg|)));
    SplitPadding(msg + [0x80] + ZeroBytes(ZeroByteCount(|msg|)), off, BigEndian((8 * |msg|) % MAX_BITS, 8));
  }

  lemma {:induction false} HashOfPrefix(p: seq<u8>, q: seq<u8>, n: nat)
    requires 64 * n <= |p| && 64 * n <= |q| && p[..64 * n] == q[..64 * n]
    ensures HashBytes(p, n) == HashBytes(q, n)
  {
    hide Compress, BytesToWords;
    if n > 0 {
      assert p[..64 * n][..64 * (n - 1)] == p[..64 * (n - 1)] && q[..64 * n][..64 * (n - 1)] == q[..64 * (n - 1)];
      assert p[..64 * n][64 * (n - 1)..] == BlockAt(p, n - 1) && q[..64 * n][64 * (n - 1)..] == BlockAt(q, n - 1);
      HashOfPrefix(p, q, n - 1);
    }
  }

  /** Write the 64-bit length, big-endian, at the end of the tail. */
  method WriteLength(tail: array<u8>, tailLen: nat, bitLen: nat)
    requires 8 <= tailLen <= tail.Length
    modifies tail
    ensures tail[tailLen - 8..tailLen] == BigEndian(bitLen, 8)
    ensures forall k :: 0 <= k < tail.Length && !(tailLen - 8 <= k < tailLen) ==> tail[k] == old(tail[k])
  {
    hide BigEndian;
    ghost var length := BigEndian(bitLen, 8);
    var shifted := bitLen;
    for i := 0 to 8
      invariant shifted == Bytewise(bitLen, i)
      invariant forall k :: tailLen - i <= k < tailLen ==> tail[k] == length[k - (tailLen - 8)]
      invariant forall k :: 0 <= k < tail.Length && !(tailLen - 8 <= k < tailLen) ==> tail[k] == old(tail[k])
    {
      BigEndianAt(bitLen, 8, i);
      BytewiseStep(bitLen, i);
      tail[tailLen - 1 - i] := shifted % 256;
      shifted := shifted / 256;
    }
  }

  /** The final one or two blocks: leftover bytes, marker, zeros, bit length. */
  method BuildTail(msg: seq<u8>, off: nat) returns (tail: array<u8>, tailLen: nat)
    requires off % 64 == 0 && off <= |msg| < off + 64
    ensures fresh(tail) && tail.Length == 128 && (tailLen == 64 || tailLen == 128)
    ensures tail[..tailLen] == PadBytes(msg)[off..]
  {
    hide BigEndian, ZeroByteCount, PadBytes, ZeroBytes;
    tail := new u8[128](i => 0);
    var leftover := |msg| - off;
    for i := 0 to leftover
      invariant forall k :: 0 <= k < i ==> tail[k] == msg[off + k]
      invariant forall k :: i <= k < 128 ==> tail[k] == 0
    {
      tail[i] := msg[off + i];
    }
    tail[leftover] := 0x80;
    tailLen := if leftover < 56 then 64 else 128;
    ghost var filled := tail[..];
    ghost var z := ZeroByteCount(|msg|);
    TailOfPadding(msg, off);
    MarkedTail(filled, msg[off..], z);
    WriteLength(tail, tailLen, (8 * |msg|) % MAX_BITS);
    WrittenTail(filled, tail[..], tailLen, BigEndian((8 * |msg|) % MAX_BITS, 8));
    assert tail[..tailLen] == tail[..][..tailLen];
  }

  /** Leftover, marker and what stays zero behind it. */
  lemma MarkedTail(tail: seq<u8>, rest: seq<u8>, z: nat)
    requires |rest| + 1 + z <= |tail| && tail[|rest|] == 0x80
    requires forall k :: 0 <= k < |rest| ==> tail[k] == rest[k]
    requires forall k :: |rest| < k < |tail| ==> tail[k] == 0
    ensures tail[..|rest| + 1 + z] == rest + [0x80] + ZeroBytes(z)
  {
  }

  lemma WrittenTail(filled: seq<u8>, tail: seq<u8>, n: nat, length: seq<u8>)
    requires 8 <= n <= |tail| == |filled| && |length| == 8 && tail[n - 8..n] == length
    requires forall k :: 0 <= k < n - 8 ==> tail[k] == filled[k]
    ensures tail[..n] == filled[..n - 8] + length
  {
    assert tail[..n] == tail[..n - 8] + tail[n - 8..n];
    assert tail[..n - 8] == filled[..n - 8];
  }

  lemma TailBlocks(p: seq<u8>, n: nat, tail: seq<u8>)
    requires 64 * n <= |p| && p[64 * n..] == tail && (|tail| == 64 || |tail| == 128)
    ensures BlockAt(p, n) == tail[..64]
    ensures |tail| == 128 ==> BlockAt(p, n + 1) == tail[64..128]
    ensures |p| / 64 == n + |tail| / 64
  {
  }

  /** One-shot hash: whole blocks straight from the message, then the tail. */
  method Sha256(msg: seq<u8>, out: array<u8>)
    requires out.Length == 32
    modifies out
    ensures out[..] == Digest(msg)
  {
    hide Compress, BytesToWords, PadBytes, BigEndian;
    var H := new u32[8](i requires 0 <= i < 8 => H0[i]);
    assert H[..] == H0;
    var off := 0;
    while |msg| - off >= 64
      invariant off % 64 == 0 && 0 <= off <= |msg|
      invariant H[..] == HashBytes(msg, off / 64)
    {
      CompressBlock(H, msg[off..off + 64]);
      off := off + 64;
    }
    CompressTail(H, msg, off);
    WriteOut(H, out);
  }

  /** Absorb the tail's one or two blocks. */
  method CompressTail(H: array<u32>, msg: seq<u8>, off: nat)
    requires H.Length == 8 && off % 64 == 0 && off <= |msg| < off + 64
    requires H[..] == HashBytes(msg, off / 64)
    modifies H
    ensures H[..] == HashBytes(PadBytes(msg), |PadBytes(msg)| / 64)
  {
    hide Compress, BytesToWords, PadBytes, BigEndian;
    ghost var n, p := off / 64, PadBytes(msg);
    TailOfPadding(msg, off);
    HashOfPrefix(msg, p, n);
    var tail, tailLen := BuildTail(msg, off);
    TailBlocks(p, n, tail[..tailLen]);
    assert tail[..tailLen][..64] == tail[..64];
    CompressBlock(H, tail[..64]);
    if tailLen == 128 {
      assert tail[..tailLen][64..128] == tail[64..128];
      CompressBlock(H, tail[64..128]);
    }
  }

  /** Serialise the hash value, big-endian. */
  method WriteOut(H: array<u32>, out: array<u8>)
    requires H.Length == 8 && out.Length == 32
    modifies out
    ensures out[..] == HashWordBytes(H[..], 8)
  {
    hide BigEndian;
    for i := 0 to 8
      invariant out[..4 * i] == HashWordBytes(H[..], i)
    {
      StoreWord(H[i], out, 4 * i);
      assert out[..4 * (i + 1)] == out[..4 * i] + out[4 * i..4 * (i + 1)];
    }
    assert out[..32] == out[..];
  }

  /** Write one word high byte first. */
  method StoreWord(v: u32, out: array<u8>, at: nat)
    requires at + 4 <= out.Length
    modifies out
    ensures out[..at] == old(out[..at]) && out[at..at + 4] == BigEndian(v, 4)
  {
    hide BigEndian;
    out[at] := v / 0x100_0000;
    out[at + 1] := v / 0x1_0000 % 0x100;
    out[at + 2] := v / 0x100 % 0x100;
    out[at + 3] := v % 0x100;
    FourBytes(v);
  }

  lemma FourBytes(v: u32)
    ensures BigEndian(v, 4) == [v / 0x100_0000, v / 0x1_0000 % 0x100, v / 0x100 % 0x100, v % 0x100]
  {
    var b1: nat := v / 0x100;
    var b2: nat := b1 / 0x100;
    var b3: nat := b2 / 0x100;
    assert BigEndian(v, 4) == BigEndian(b1, 3) + [v % 0x100];
    assert BigEndian(b1, 3) == BigEndian(b2, 2) + [b1 % 0x100];
    assert BigEndian(b2, 2) == BigEndian(b3, 1) + [b2 % 0x100];
    assert BigEndian(b3, 1) == [b3 % 0x100];
  }
}
