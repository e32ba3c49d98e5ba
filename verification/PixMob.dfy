/** The PixMob infrared encoder: 6-to-8-bit mapping, checksum, LSB-first bits, zero trimming and
    run-length coding, with a decoder that shows nothing a bracelet needs is lost. */
module PixMob {
  import opened Bytes

  const PULSE_US: nat := 694

  /** The code byte of each 6-bit value, eight to a row. */
  const ENCODING_MAP: seq<seq<u8>> := [
    [0x21, 0x32, 0x54, 0x65, 0xa9, 0x9a, 0x6d, 0x29],
    [0x56, 0x92, 0xa1, 0xb4, 0xb2, 0x84, 0x66, 0x2a],
    [0x4c, 0x6a, 0xa6, 0x95, 0x62, 0x51, 0x42, 0x24],
    [0x35, 0x46, 0x8a, 0xac, 0x8c, 0x6c, 0x2c, 0x4a],
    [0x59, 0x86, 0xa4, 0xa2, 0x91, 0x64, 0x55, 0x44],
    [0x22, 0x31, 0xb1, 0x52, 0x85, 0x96, 0xa5, 0x69],
    [0x5a, 0x2d, 0x4d, 0x89, 0x45, 0x34, 0x61, 0x25],
    [0x36, 0xad, 0x94, 0xaa, 0x8d, 0x49, 0x99, 0x26]
  ]

  function Code(x: nat): (c: u8)
    requires x < 64
  {
    ENCODING_MAP[x / 8][x % 8]
  }

  // ---------------------------------------------------------------------------
  // The unbounded reference encoder
  // ---------------------------------------------------------------------------

  /** The code bytes of the payload fields. */
  function Codes(fields: seq<u8>): (codes: seq<u8>)
    ensures |codes| == |fields|
    ensures forall i :: 0 <= i < |fields| ==> codes[i] == Code(fields[i] % 64)
  {
    if |fields| == 0 then [] else Codes(fields[..|fields| - 1]) + [Code(fields[|fields| - 1] % 64)]
  }

  function Sum(s: seq<nat>): (n: nat) {
    if |s| == 0 then 0 else Sum(s[..|s| - 1]) + s[|s| - 1]
  }

  /** The bytes put on air: start byte, coded checksum, coded fields. */
  function Mapped(buf: seq<u8>): (bytes: seq<u8>)
    requires |buf| >= 2
    ensures |bytes| == |buf|
  {
    var codes := Codes(buf[2..]);
    [buf[0], Code(Sum(codes) / 4 % 64)] + codes
  }

  /** The low n bits of b, least significant first. */
  function LowBits(b: nat, n: nat): (bits: Bits)
    ensures |bits| == n
    decreases n
  {
    if n == 0 then [] else [b % 2 == 1] + LowBits(b / 2, n - 1)
  }

  function Stream(bytes: seq<u8>): (bits: Bits)
    ensures |bits| == 8 * |bytes|
  {
    if |bytes| == 0 then [] else Stream(bytes[..|bytes| - 1]) + LowBits(bytes[|bytes| - 1], 8)
  }

  /** The first one at or behind place i, or the length. */
  function FirstOne(bits: Bits, i: nat): (k: nat)
    requires i <= |bits|
    ensures i <= k <= |bits| && (k < |bits| ==> bits[k])
    ensures forall j :: i <= j < k ==> !bits[j]
    decreases |bits| - i
  {
    if i == |bits| || bits[i] then i else FirstOne(bits, i + 1)
  }

  /** One behind the last one before place n, or zero. */
  function LastOne(bits: Bits, n: nat): (k: nat)
    requires n <= |bits|
    ensures k <= n && (k > 0 ==> bits[k - 1])
    ensures forall j :: k <= j < n ==> !bits[j]
  {
    if n == 0 || bits[n - 1] then n else LastOne(bits, n - 1)
  }

  function DropLeading(bits: Bits): (r: Bits)
    ensures |r| > 0 ==> r[0]
    ensures |r| <= |bits| && r == bits[|bits| - |r|..]
    ensures forall i :: 0 <= i < |bits| - |r| ==> !bits[i]
  {
    bits[FirstOne(bits, 0)..]
  }

  function DropTrailing(bits: Bits): (r: Bits)
    ensures |r| > 0 ==> r[|r| - 1]
    ensures |r| <= |bits| && r == bits[..|r|]
    ensures forall i :: |r| <= i < |bits| ==> !bits[i]
  {
    bits[..LastOne(bits, |bits|)]
  }

  /** Length of the run a bit string starts with. */
  function RunLength(bits: Bits): (n: nat)
    requires |bits| > 0
    ensures 0 < n <= |bits|
    ensures forall i :: 0 <= i < n ==> bits[i] == bits[0]
    ensures n < |bits| ==> bits[n] != bits[0]
  {
    if |bits| == 1 || bits[1] != bits[0] then 1 else 1 + RunLength(bits[1..])
  }

  function Runs(bits: Bits): (runs: seq<nat>) {
    if |bits| == 0 then [] else [RunLength(bits)] + Runs(bits[RunLength(bits)..])
  }

  function Durations(runs: seq<nat>): (train: seq<nat>)
    ensures |train| == |runs|
    ensures forall i :: 0 <= i < |runs| ==> train[i] == runs[i] * PULSE_US
  {
    seq(|runs|, i requires 0 <= i < |runs| => runs[i] * PULSE_US)
  }

  function Trimmed(buf: seq<u8>): (bits: Bits)
    requires |buf| >= 2
  {
    DropTrailing(DropLeading(Stream(Mapped(buf))))
  }

  /** The pulse train of a raw buffer, in microseconds: mark, space, mark, ... */
  function Train(buf: seq<u8>): (train: seq<nat>)
    requires |buf| >= 2
  {
    Durations(Runs(Trimmed(buf)))
  }

  // ---------------------------------------------------------------------------
  // Bits and bytes
  // ---------------------------------------------------------------------------

  function BitValue(b: bool): (n: nat) { if b then 1 else 0 }

  function LowValue(bits: Bits): (v: nat)
    ensures v < Pow2(|bits|)
  {
    if |bits| == 0 then 0 else BitValue(bits[0]) + 2 * LowValue(bits[1..])
  }

  lemma {:induction false} BitsOfValue(bits: Bits)
    ensures LowBits(LowValue(bits), |bits|) == bits
  {
    if |bits| > 0 {
      BitsOfValue(bits[1..]);
      assert LowValue(bits) / 2 == LowValue(bits[1..]);
    }
  }

  lemma {:induction false} ValueOfBits(b: nat, n: nat)
    requires b < Pow2(n)
    ensures LowValue(LowBits(b, n)) == b
    decreases n
  {
    if n > 0 {
      ValueOfBits(b / 2, n - 1);
      assert LowBits(b, n)[1..] == LowBits(b / 2, n - 1);
    }
  }

  lemma ByteRoundTrip(b: u8)
    ensures LowValue(LowBits(b, 8)) == b
  {
    assert Pow2(8) == 0x100;
    ValueOfBits(b, 8);
  }

  /** The bits of a byte, one by one, least significant first. */
  function Peeled(b: u8): (bits: Bits)
    ensures |bits| == 8
  {
    [b % 2 == 1, b / 2 % 2 == 1, b / 4 % 2 == 1, b / 8 % 2 == 1,
     b / 16 % 2 == 1, b / 32 % 2 == 1, b / 64 % 2 == 1, b / 128 % 2 == 1]
  }

  lemma LowBitsStep(b: nat, n: nat)
    requires n > 0
    ensures LowBits(b, n) == [b % 2 == 1] + LowBits(b / 2, n - 1)
  {
  }

  lemma LowBitsNone(b: nat)
    ensures LowBits(b, 0) == []
  {
  }

  lemma TwoBits(b: nat, n: nat)
    ensures LowBits(b, n + 2) == [b % 2 == 1, b / 2 % 2 == 1] + LowBits(b / 4, n)
  {
    hide LowBits;
    LowBitsStep(b, n + 2);
    LowBitsStep(b / 2, n + 1);
    assert b / 2 / 2 == b / 4;
  }

  lemma FourBits(b: nat, n: nat)
    ensures LowBits(b, n + 4) == [b % 2 == 1, b / 2 % 2 == 1, b / 4 % 2 == 1, b / 8 % 2 == 1] + LowBits(b / 16, n)
  {
    hide LowBits;
    TwoBits(b, n + 2);
    TwoBits(b / 4, n);
    assert b / 4 / 2 == b / 8 && b / 4 / 4 == b / 16;
  }

  lemma PeeledIsLowBits(b: u8)
    ensures Peeled(b) == LowBits(b, 8)
  {
    hide LowBits;
    FourBits(b, 4);
    FourBits(b / 16, 0);
    LowBitsNone(b / 16 / 16);
    SixteenthHalves(b);
  }

  lemma SixteenthHalves(b: nat)
    ensures b / 16 / 2 == b / 32 && b / 16 / 4 == b / 64 && b / 16 / 8 == b / 128
  {
  }

  // ---------------------------------------------------------------------------
  // What the code table guarantees
  // ---------------------------------------------------------------------------

  /** A code's bits: no three ones or five zeros in a row, at most one 1 and two 0s at an end. */
  predicate Gentle(s: Bits)
    requires |s| == 8
  {
    && (s[0] || s[1] || s[2]) && !(s[0] && s[1])
    && (s[7] || s[6] || s[5]) && !(s[7] && s[6])
    && !(s[1] && s[2] && s[3]) && !(s[2] && s[3] && s[4]) && !(s[3] && s[4] && s[5]) && !(s[4] && s[5] && s[6])
    && (s[1] || s[2] || s[3] || s[4] || s[5]) && (s[2] || s[3] || s[4] || s[5] || s[6])
  }

  /** The 6-bit value of each code byte, sixteen to a row; 64 marks a byte that is no code. */
  const DECODING_MAP: seq<seq<nat>> := [
    [64, 64, 64, 64, 64, 64, 64, 64, 64, 64, 64, 64, 64, 64, 64, 64],
    [64, 64, 64, 64, 64, 64, 64, 64, 64, 64, 64, 64, 64, 64, 64, 64],
    [64,  0, 40, 64, 23, 55, 63, 64, 64,  7, 15, 64, 30, 49, 64, 64],
    [64, 41,  1, 64, 53, 24, 56, 64, 64, 64, 64, 64, 64, 64, 64, 64],
    [64, 64, 22, 64, 39, 52, 25, 64, 64, 61, 31, 64, 16, 50, 64, 64],
    [64, 21, 43, 64,  2, 38,  8, 64, 64, 32, 48, 64, 64, 64, 64, 64],
    [64, 54, 20, 64, 37,  3, 14, 64, 64, 47, 17, 64, 29,  6, 64, 64],
    [64, 64, 64, 64, 64, 64, 64, 64, 64, 64, 64, 64, 64, 64, 64, 64],
    [64, 64, 64, 64, 13, 44, 33, 64, 64, 51, 26, 64, 28, 60, 64, 64],
    [64, 36,  9, 64, 58, 19, 45, 64, 64, 62,  5, 64, 64, 64, 64, 64],
    [64, 10, 35, 64, 34, 46, 18, 64, 64,  4, 59, 64, 27, 57, 64, 64],
    [64, 42, 12, 64, 11, 64, 64, 64, 64, 64, 64, 64, 64, 64, 64, 64],
    [64, 64, 64, 64, 64, 64, 64, 64, 64, 64, 64, 64, 64, 64, 64, 64],
    [64, 64, 64, 64, 64, 64, 64, 64, 64, 64, 64, 64, 64, 64, 64, 64],
    [64, 64, 64, 64, 64, 64, 64, 64, 64, 64, 64, 64, 64, 64, 64, 64],
    [64, 64, 64, 64, 64, 64, 64, 64, 64, 64, 64, 64, 64, 64, 64, 64]
  ]

  function Decoded(c: u8): (x: nat) {
    DECODING_MAP[c / 16][c % 16]
  }

  lemma FirstRowIsGentle(x: nat)
    requires 0 <= x < 8
    ensures Gentle(Peeled(Code(x)))
  {
  }

  lemma SecondRowIsGentle(x: nat)
    requires 8 <= x < 16
    ensures Gentle(Peeled(Code(x)))
  {
  }

  lemma ThirdRowIsGentle(x: nat)
    requires 16 <= x < 24
    ensures Gentle(Peeled(Code(x)))
  {
  }

  lemma FourthRowIsGentle(x: nat)
    requires 24 <= x < 32
    ensures Gentle(Peeled(Code(x)))
  {
  }

  lemma FifthRowIsGentle(x: nat)
    requires 32 <= x < 40
    ensures Gentle(Peeled(Code(x)))
  {
  }

  lemma SixthRowIsGentle(x: nat)
    requires 40 <= x < 48
    ensures Gentle(Peeled(Code(x)))
  {
  }

  lemma SeventhRowIsGentle(x: nat)
    requires 48 <= x < 56
    ensures Gentle(Peeled(Code(x)))
  {
  }

  lemma EighthRowIsGentle(x: nat)
    requires 56 <= x < 64
    ensures Gentle(Peeled(Code(x)))
  {
  }

  lemma CodesAreGentle(x: nat)
    requires x < 64
    ensures Gentle(LowBits(Code(x), 8))
  {
    hide Gentle, Code, Peeled, LowBits;
    if x < 8 {
      FirstRowIsGentle(x);
    } else if x < 16 {
      SecondRowIsGentle(x);
    } else if x < 24 {
      ThirdRowIsGentle(x);
    } else if x < 32 {
      FourthRowIsGentle(x);
    } else if x < 40 {
      FifthRowIsGentle(x);
    } else if x < 48 {
      SixthRowIsGentle(x);
    } else if x < 56 {
      SeventhRowIsGentle(x);
    } else {
      EighthRowIsGentle(x);
    }
    PeeledIsLowBits(Code(x));
  }

  lemma FirstRowDecodes(x: nat)
    requires 0 <= x < 8
    ensures Decoded(Code(x)) == x
  {
  }

  lemma SecondRowDecodes(x: nat)
    requires 8 <= x < 16
    ensures Decoded(Code(x)) == x
  {
  }

  lemma ThirdRowDecodes(x: nat)
    requires 16 <= x < 24
    ensures Decoded(Code(x)) == x
  {
  }

  lemma FourthRowDecodes(x: nat)
    requires 24 <= x < 32
    ensures Decoded(Code(x)) == x
  {
  }

  lemma FifthRowDecodes(x: nat)
    requires 32 <= x < 40
    ensures Decoded(Code(x)) == x
  {
  }

  lemma SixthRowDecodes(x: nat)
    requires 40 <= x < 48
    ensures Decoded(Code(x)) == x
  {
  }

  lemma SeventhRowDecodes(x: nat)
    requires 48 <= x < 56
    ensures Decoded(Code(x)) == x
  {
  }

  lemma EighthRowDecodes(x: nat)
    requires 56 <= x < 64
    ensures Decoded(Code(x)) == x
  {
  }

  /** No two 6-bit values share a code byte. */
  lemma DecodeInvertsCode(x: nat)
    requires x < 64
    ensures Decoded(Code(x)) == x
  {
    hide Decoded, Code;
    if x < 8 {
      FirstRowDecodes(x);
    } else if x < 16 {
      SecondRowDecodes(x);
    } else if x < 24 {
      ThirdRowDecodes(x);
    } else if x < 32 {
      FourthRowDecodes(x);
    } else if x < 40 {
      FifthRowDecodes(x);
    } else if x < 48 {
      SixthRowDecodes(x);
    } else if x < 56 {
      SeventhRowDecodes(x);
    } else {
      EighthRowDecodes(x);
    }
  }

  // ---------------------------------------------------------------------------
  // Run lengths on air
  // ---------------------------------------------------------------------------

  predicate Ones(s: Bits, i: nat)
    requires i + 3 <= |s|
  {
    s[i] && s[i + 1] && s[i + 2]
  }

  predicate Zeros5(s: Bits, i: nat)
    requires i + 5 <= |s|
  {
    !s[i] && !s[i + 1] && !s[i + 2] && !s[i + 3] && !s[i + 4]
  }

  /** No three ones and no five zeros in a row. */
  predicate Bounded(s: Bits) {
    && (forall i: nat :: i + 3 <= |s| ==> !Ones(s, i))
    && (forall i: nat :: i + 5 <= |s| ==> !Zeros5(s, i))
  }

  /** The end of s tolerates another code: not two ones, not three zeros. */
  predicate EndsWell(s: Bits) {
    var n := |s|;
    && n > 0
    && !(n >= 2 && s[n - 1] && s[n - 2])
    && (s[n - 1] || (n >= 2 && s[n - 2]) || (n >= 3 && s[n - 3]))
  }

  lemma AppendedOnes(s: Bits, c: Bits, i: nat)
    requires Bounded(s) && EndsWell(s) && |c| == 8 && Gentle(c) && i + 3 <= |s + c|
    ensures !Ones(s + c, i)
  {
    var t, n := s + c, |s|;
    if i + 3 <= n {
      assert !Ones(s, i);
    } else if i >= n {
      assert t[i] == c[i - n] && t[i + 1] == c[i - n + 1] && t[i + 2] == c[i - n + 2];
    }
  }

  lemma AppendedZeros(s: Bits, c: Bits, i: nat)
    requires Bounded(s) && EndsWell(s) && |c| == 8 && Gentle(c) && i + 5 <= |s + c|
    ensures !Zeros5(s + c, i)
  {
    var t, n := s + c, |s|;
    if i + 5 <= n {
      assert !Zeros5(s, i);
    } else if i >= n {
      assert t[i] == c[i - n] && t[i + 1] == c[i - n + 1] && t[i + 2] == c[i - n + 2] && t[i + 3] == c[i - n + 3];
      assert t[i + 4] == c[i - n + 4];
    }
  }

  lemma AppendCode(s: Bits, c: Bits)
    requires Bounded(s) && EndsWell(s) && |c| == 8 && Gentle(c)
    ensures Bounded(s + c) && EndsWell(s + c)
  {
    assert EndsWell(s + c) by {
      GentleEnd(s, c);
    }
    hide Gentle, EndsWell, Ones, Zeros5;
    forall i: nat | i + 3 <= |s + c| ensures !Ones(s + c, i) {
      AppendedOnes(s, c, i);
    }
    forall i: nat | i + 5 <= |s + c| ensures !Zeros5(s + c, i) {
      AppendedZeros(s, c, i);
    }
  }

  lemma GentleEnd(s: Bits, c: Bits)
    requires |c| == 8 && Gentle(c)
    ensures EndsWell(s + c)
  {
    var t := s + c;
    assert t[|t| - 1] == c[7] && t[|t| - 2] == c[6] && t[|t| - 3] == c[5];
  }

  lemma {:induction false} CodedStreamIsBounded(fields: seq<u8>)
    ensures Bounded([true] + Stream(Codes(fields))) && EndsWell([true] + Stream(Codes(fields)))
  {
    hide Gentle, Code, LowBits;
    if |fields| == 0 {
      assert [true] + Stream([]) == [true];
    } else {
      hide Bounded, EndsWell;
      var front, last := fields[..|fields| - 1], fields[|fields| - 1] % 64;
      CodedStreamIsBounded(front);
      CodesAreGentle(last);
      var s := [true] + Stream(Codes(front));
      AppendCode(s, LowBits(Code(last), 8));
      assert Codes(fields)[..|fields| - 1] == Codes(front);
      assert [true] + Stream(Codes(fields)) == s + LowBits(Code(last), 8);
    }
  }

  lemma BoundedSlice(s: Bits, i: nat, j: nat)
    requires Bounded(s) && i <= j <= |s|
    ensures Bounded(s[i..j])
  {
    var t := s[i..j];
    forall k: nat | k + 3 <= |t| ensures !Ones(t, k) {
      assert !Ones(s, i + k);
    }
    forall k: nat | k + 5 <= |t| ensures !Zeros5(t, k) {
      assert !Zeros5(s, i + k);
    }
  }

  /** The longest run of a kind that a bracelet has to read. */
  function MaxRun(mark: bool): (n: nat) { if mark then 2 else 4 }

  lemma FirstRunIsBounded(s: Bits)
    requires Bounded(s) && |s| > 0
    ensures RunLength(s) <= MaxRun(s[0])
  {
    var n := RunLength(s);
    if s[0] && n >= 3 {
      assert Ones(s, 0);
    }
    if !s[0] && n >= 5 {
      assert Zeros5(s, 0);
    }
  }

  lemma {:induction false} RunsAreBounded(s: Bits)
    requires Bounded(s)
    ensures forall i :: 0 <= i < |Runs(s)| ==> 0 < Runs(s)[i] <= MaxRun(s[0] == (i % 2 == 0))
    decreases |s|
  {
    hide Bounded, MaxRun, Runs, RunLength;
    if |s| > 0 {
      var n := RunLength(s);
      RunsStep(s);
      FirstRunIsBounded(s);
      BoundedSlice(s, n, |s|);
      assert s[n..|s|] == s[n..];
      RunsAreBounded(s[n..]);
      forall i | 0 < i < |Runs(s)| ensures 0 < Runs(s)[i] <= MaxRun(s[0] == (i % 2 == 0)) {
        assert Runs(s)[i] == Runs(s[n..])[i - 1];
        OtherParity(i);
      }
    } else {
      NoRunsAtAll();
    }
  }

  lemma OtherParity(i: nat)
    requires i > 0
    ensures (i % 2 == 0) == !((i - 1) % 2 == 0)
  {
  }

  lemma NoRunsAtAll()
    ensures Runs([]) == []
  {
  }

  lemma {:induction false} SumOfRuns(s: Bits)
    ensures Sum(Durations(Runs(s))) == PULSE_US * |s|
    decreases |s|
  {
    if |s| > 0 {
      var n := RunLength(s);
      SumOfRuns(s[n..]);
      SumOfCons(n * PULSE_US, Durations(Runs(s[n..])));
      assert Durations(Runs(s)) == [n * PULSE_US] + Durations(Runs(s[n..]));
    }
  }

  lemma {:induction false} SumOfCons(x: nat, s: seq<nat>)
    ensures Sum([x] + s) == x + Sum(s)
  {
    if |s| > 0 {
      var t := [x] + s;
      SumOfCons(x, s[..|s| - 1]);
      assert t[..|t| - 1] == [x] + s[..|s| - 1];
    } else {
      assert ([x] + s)[..0] == [];
      assert Sum([x] + s) == Sum([]) + x;
    }
  }

  /** The last run has the value of the last bit. */
  lemma {:induction false} LastRun(s: Bits)
    requires |s| > 0
    ensures |Runs(s)| > 0 && (s[|s| - 1] == s[0] <==> |Runs(s)| % 2 == 1)
    decreases |s|
  {
    hide RunLength, Runs;
    var n := RunLength(s);
    RunsStep(s);
    if n < |s| {
      LastRun(s[n..]);
      assert s[n..][|s| - n - 1] == s[|s| - 1] && s[n..][0] == s[n];
    }
  }

  lemma RunsStep(s: Bits)
    requires |s| > 0
    ensures var n := RunLength(s);
            Runs(s) == [n] + Runs(s[n..]) && (n == |s| ==> Runs(s[n..]) == [])
  {
  }

  // ---------------------------------------------------------------------------
  // Decoding
  // ---------------------------------------------------------------------------

  function Repeat(b: bool, n: nat): (bits: Bits)
    ensures |bits| == n
  {
    seq(n, i => b)
  }

  /** The bits a train of runs stands for, starting with a run of the given value. */
  function Expand(runs: seq<nat>, first: bool): (bits: Bits) {
    if |runs| == 0 then [] else Repeat(first, runs[0]) + Expand(runs[1..], !first)
  }

  lemma FirstRunSplits(s: Bits)
    requires |s| > 0
    ensures s == Repeat(s[0], RunLength(s)) + s[RunLength(s)..]
  {
    hide RunLength, Repeat;
    EvenPrefix(s, RunLength(s));
    SplitAt(s, RunLength(s));
  }

  lemma EvenPrefix(s: Bits, n: nat)
    requires 0 < n <= |s| && forall i :: 0 <= i < n ==> s[i] == s[0]
    ensures s[..n] == Repeat(s[0], n)
  {
  }

  lemma SplitAt<T>(s: seq<T>, n: nat)
    requires n <= |s|
    ensures s == s[..n] + s[n..]
  {
  }

  lemma {:induction false} ExpandInvertsRuns(s: Bits, first: bool)
    requires |s| > 0 ==> first == s[0]
    ensures Expand(Runs(s), first) == s
    decreases |s|
  {
    if |s| > 0 {
      hide Repeat;
      var rest := s[RunLength(s)..];
      FirstRunSplits(s);
      ExpandInvertsRuns(rest, !first);
      assert Runs(s)[1..] == Runs(rest);
    }
  }

  /** A receiver's count of pulses in each run: a pulse is 694 microseconds. */
  function Counts(train: seq<nat>): (runs: seq<nat>) {
    seq(|train|, i requires 0 <= i < |train| => train[i] / 694)
  }

  lemma CountsOfDurations(runs: seq<nat>)
    ensures Counts(Durations(runs)) == runs
  {
  }

  function Pack(bits: Bits): (bytes: seq<u8>)
    ensures |bytes| == |bits| / 8
  {
    if |bits| < 8 then []
    else
      assert Pow2(8) == 0x100;
      [LowValue(bits[..8])] + Pack(bits[8..])
  }

  /** A frame a command builder hands to the encoder. */
  predicate IsFrame(buf: seq<u8>) {
    (|buf| == 6 || |buf| == 9) && buf[0] == 0x80
  }

  /** The payload bits the encoder keeps. */
  function Fields(buf: seq<u8>): (fields: seq<nat>)
    requires |buf| >= 2
  {
    seq(|buf| - 2, i requires 0 <= i < |buf| - 2 => buf[i + 2] % 64)
  }

  /** The bytes behind a train: restore the zeros trimmed off both ends and cut. */
  function Restored(train: seq<nat>): (bytes: seq<u8>) {
    var bits := Repeat(false, 7) + Expand(Counts(train), true);
    var size := if |bits| <= 48 then 48 else 72;
    Pack(bits + (if |bits| <= size then Repeat(false, size - |bits|) else []))
  }

  /** All of a sequence added up. */
  function Total(s: seq<nat>): (n: nat) {
    if |s| == 0 then 0 else s[0] + Total(s[1..])
  }

  /** A receiver's check of a frame's bytes: the start byte, only code bytes, and a checksum that is
      a quarter of what the bytes behind it add up to, in six bits. */
  predicate Checked(bytes: seq<u8>) {
    && |bytes| >= 2 && bytes[0] == 0x80
    && (forall i :: 1 <= i < |bytes| ==> Decoded(bytes[i]) < 64)
    && Decoded(bytes[1]) == Total(bytes[2..]) / 4 % 64
  }

  /** What a receiver makes of a train: the decoded fields, if the bytes pass its check. */
  function Decode(train: seq<nat>): (fields: Option<seq<nat>>) {
    var bytes := Restored(train);
    if Checked(bytes) then Some(Lookup(bytes)) else None
  }

  function Lookup(bytes: seq<u8>): (fields: seq<nat>)
    requires |bytes| >= 2
  {
    seq(|bytes| - 2, i requires 0 <= i < |bytes| - 2 => Decoded(bytes[i + 2]))
  }

  lemma {:induction false} PackInvertsStream(bytes: seq<u8>)
    ensures Pack(Stream(bytes)) == bytes
  {
    if |bytes| > 0 {
      StreamOfCons(bytes);
      ByteRoundTrip(bytes[0]);
      PackInvertsStream(bytes[1..]);
      var s := Stream(bytes);
      assert s[..8] == LowBits(bytes[0], 8) && s[8..] == Stream(bytes[1..]);
    }
  }

  lemma {:induction false} StreamOfCons(bytes: seq<u8>)
    requires |bytes| > 0
    ensures Stream(bytes) == LowBits(bytes[0], 8) + Stream(bytes[1..])
  {
    hide LowBits;
    var front, last := bytes[..|bytes| - 1], bytes[|bytes| - 1];
    if |bytes| == 1 {
      assert front == [] && bytes[1..] == [];
    } else {
      StreamOfCons(front);
      assert bytes[1..][..|bytes| - 2] == front[1..];
      assert Stream(bytes[1..]) == Stream(front[1..]) + LowBits(last, 8);
    }
  }

  // ---------------------------------------------------------------------------
  // Main results
  // ---------------------------------------------------------------------------

  lemma StartByte()
    ensures LowBits(0x80, 8) == Repeat(false, 7) + [true]
  {
    PeeledIsLowBits(0x80);
    hide LowBits, Peeled, Repeat;
    StartBits();
    SevenFalses();
  }

  lemma StartBits()
    ensures Peeled(0x80) == [false, false, false, false, false, false, false, true]
  {
  }

  lemma SevenFalses()
    ensures Repeat(false, 7) == [false, false, false, false, false, false, false]
  {
  }

  lemma LeadIs(t: Bits, k: nat)
    requires k <= |t| && (k == |t| || t[k]) && forall i :: 0 <= i < k ==> !t[i]
    ensures DropLeading(t) == t[k..]
  {
    hide FirstOne;
  }

  lemma DropFalses(n: nat, s: Bits)
    requires |s| > 0 && s[0]
    ensures DropLeading(Repeat(false, n) + s) == s
  {
    LeadIs(Repeat(false, n) + s, n);
  }

  /** Only the start byte's seven zeros are trimmed in front. */
  lemma FrameBits(buf: seq<u8>)
    requires IsFrame(buf)
    ensures var codes := Mapped(buf)[1..];
            && Stream(Mapped(buf)) == Repeat(false, 7) + ([true] + Stream(codes))
            && Trimmed(buf) == DropTrailing([true] + Stream(codes))
  {
    hide LowBits, DropTrailing;
    var bytes := Mapped(buf);
    StreamOfCons(bytes);
    StartByte();
    assert LowBits(bytes[0], 8) + Stream(bytes[1..]) == Repeat(false, 7) + ([true] + Stream(bytes[1..]));
    DropFalses(7, [true] + Stream(bytes[1..]));
  }

  /** The coded part of a frame codes its checksum value and its fields. */
  lemma MappedIsCoded(buf: seq<u8>)
    requires |buf| >= 2
    ensures exists c: u8 :: c < 64 && Mapped(buf)[1..] == Codes([c] + buf[2..])
  {
    hide Code;
    var c := Sum(Codes(buf[2..])) / 4 % 64;
    assert c % 64 == c;
    var a, b := Mapped(buf)[1..], Codes([c] + buf[2..]);
    forall i | 0 <= i < |a| ensures a[i] == b[i] {
    }
    assert a == b;
  }

  /** Every frame's train starts and ends with a mark, has an odd number of strictly alternating
      runs, marks of one or two pulses and spaces of one to four, and lasts one pulse per bit. */
  lemma TrainShape(buf: seq<u8>)
    requires IsFrame(buf)
    ensures var train, bits := Train(buf), Trimmed(buf);
            && |train| % 2 == 1
            && (forall i :: 0 <= i < |train| ==>
                  train[i] % 694 == 0 && 694 <= train[i] <= (if i % 2 == 0 then 2 else 4) * 694)
            && Expand(Counts(train), true) == bits
            && Sum(train) == 694 * |bits|
  {
    hide Bounded, EndsWell, Runs, LowBits, Stream, Codes, Expand, Sum;
    var codes, bits := Mapped(buf)[1..], Trimmed(buf);
    FrameBits(buf);
    var c: u8 :| c < 64 && codes == Codes([c] + buf[2..]) by { MappedIsCoded(buf); }
    CodedStreamIsBounded([c] + buf[2..]);
    var s := [true] + Stream(codes);
    assert s[0] && bits == s[0..|bits|];
    BoundedSlice(s, 0, |bits|);
    TrimKeepsFirst(s);
    RunsAreBounded(bits);
    LastRun(bits);
    ExpandInvertsRuns(bits, true);
    CountsOfDurations(Runs(bits));
    SumOfRuns(bits);
  }

  lemma TrimKeepsFirst(s: Bits)
    requires |s| > 0 && s[0]
    ensures |DropTrailing(s)| > 0
  {
  }

  /** A trimmed string that ends in a code still reaches into it. */
  lemma TrimStopsInCode(s: Bits, c: Bits)
    requires |c| == 8 && Gentle(c)
    ensures |s| < |DropTrailing(s + c)|
  {
    var t, n := s + c, |s|;
    assert t[n] == c[0] && t[n + 1] == c[1] && t[n + 2] == c[2];
    TrimReaches(t, if c[0] then n else if c[1] then n + 1 else n + 2);
  }

  /** The last byte of a frame is a code, so it holds a one. */
  lemma LastByteShows(buf: seq<u8>)
    requires IsFrame(buf)
    ensures 8 * (|buf| - 1) < 7 + |Trimmed(buf)| <= 8 * |buf|
  {
    hide LowBits, Codes, DropTrailing, Gentle, Code;
    FrameBits(buf);
    var codes, last := Mapped(buf)[1..], buf[|buf| - 1] % 64;
    CodesAreGentle(last);
    assert codes[|codes| - 1] == Code(last);
    var front, c := [true] + Stream(codes[..|codes| - 1]), LowBits(Code(last), 8);
    assert [true] + Stream(codes) == front + c;
    TrimStopsInCode(front, c);
  }

  lemma TrimReaches(s: Bits, i: nat)
    requires i < |s| && s[i]
    ensures |DropTrailing(s)| > i
  {
  }

  /** Putting the trimmed zeros back gives the frame's bit stream. */
  lemma TrimmedRestores(buf: seq<u8>)
    requires IsFrame(buf)
    ensures var all := Repeat(false, 7) + Trimmed(buf);
            |all| <= 8 * |buf| && all + Repeat(false, 8 * |buf| - |all|) == Stream(Mapped(buf))
  {
    hide LowBits, Codes, DropTrailing, Stream;
    LastByteShows(buf);
    FrameBits(buf);
    var bits, s := Trimmed(buf), [true] + Stream(Mapped(buf)[1..]);
    assert |s| == 8 * |buf| - 7;
    TrimPadsBack(s);
    var pad := Repeat(false, |s| - |bits|);
    assert Repeat(false, 7) + (bits + pad) == (Repeat(false, 7) + bits) + pad;
  }

  lemma RestoredIsMapped(buf: seq<u8>)
    requires IsFrame(buf)
    ensures Restored(Train(buf)) == Mapped(buf)
  {
    hide LowBits, Codes, Trimmed, Runs, Expand, Pack, Stream, Train, Counts, Repeat, Mapped;
    TrainShape(buf);
    LastByteShows(buf);
    TrimmedRestores(buf);
    PackInvertsStream(Mapped(buf));
  }

  lemma {:induction false} TotalSnoc(s: seq<nat>, x: nat)
    ensures Total(s + [x]) == Total(s) + x
  {
    if |s| > 0 {
      TotalSnoc(s[1..], x);
      assert (s + [x])[1..] == s[1..] + [x];
    } else {
      assert (s + [x])[1..] == [];
    }
  }

  lemma {:induction false} SumIsTotal(s: seq<nat>)
    ensures Sum(s) == Total(s)
  {
    if |s| > 0 {
      SumIsTotal(s[..|s| - 1]);
      TotalSnoc(s[..|s| - 1], s[|s| - 1]);
      assert s[..|s| - 1] + [s[|s| - 1]] == s;
    }
  }

  /** The bytes a train stands for are the start byte, the right checksum and the coded fields. */
  lemma MappedIsChecked(buf: seq<u8>)
    requires IsFrame(buf)
    ensures Checked(Mapped(buf)) && Lookup(Mapped(buf)) == Fields(buf)
  {
    hide Decoded, Code, Sum, Total;
    var bytes, codes := Mapped(buf), Codes(buf[2..]);
    forall i | 2 <= i < |bytes| ensures Decoded(bytes[i]) == buf[i] % 64 {
      DecodeInvertsCode(buf[i] % 64);
    }
    assert bytes[2..] == codes;
    SumIsTotal(codes);
    DecodeInvertsCode(Total(codes) / 4 % 64);
  }

  /** Main result: from the train alone a receiver that checks start byte and checksum accepts any 6-
      or 9-byte frame and recovers its payload. */
  lemma DecodeInvertsTrain(buf: seq<u8>)
    requires IsFrame(buf)
    ensures Decode(Train(buf)) == Some(Fields(buf))
  {
    hide Train, Restored, Checked, Lookup;
    RestoredIsMapped(buf);
    MappedIsChecked(buf);
  }

  /** The checksum byte on air, from the other bytes on air. */
  lemma ChecksumOnAir(buf: seq<u8>)
    requires IsFrame(buf)
    ensures var bytes := Restored(Train(buf));
            |bytes| == |buf| && bytes[0] == 0x80 && Decoded(bytes[1]) == Total(bytes[2..]) / 4 % 64
  {
    hide Train, Restored, Mapped, Decoded, Total;
    RestoredIsMapped(buf);
    MappedIsChecked(buf);
  }

  lemma {:induction false} TotalOfChanged(s: seq<nat>, i: nat, x: nat)
    requires i < |s|
    ensures Total(s[i := x]) == Total(s) - s[i] + x
  {
    if i > 0 {
      TotalOfChanged(s[1..], i - 1, x);
      assert s[i := x][1..] == s[1..][i - 1 := x];
    } else {
      assert s[i := x][1..] == s[1..];
    }
  }

  lemma QuartersDiffer(a: nat, b: nat)
    requires a + 4 <= b <= a + 252
    ensures a / 4 % 64 != b / 4 % 64
  {
    var p, q := a / 4, b / 4;
    assert p + 1 <= q <= p + 63;
  }

  /** The receiver rejects a frame with one payload byte altered by four or more. */
  lemma ChecksumCatches(bytes: seq<u8>, i: nat, x: u8)
    requires Checked(bytes) && 2 <= i < |bytes|
    requires Decoded(x) < 64 && (x >= bytes[i] + 4 || bytes[i] >= x + 4)
    ensures !Checked(bytes[i := x])
  {
    CodesAreClose(x);
    CodesAreClose(bytes[i]);
    hide Decoded, Total;
    var t := bytes[2..];
    TotalOfChanged(t, i - 2, x);
    assert bytes[i := x][2..] == t[i - 2 := x];
    if x > bytes[i] {
      QuartersDiffer(Total(t), Total(t[i - 2 := x]));
    } else {
      QuartersDiffer(Total(t[i - 2 := x]), Total(t));
    }
  }

  /** Every code byte lies between 0x20 and 0xbf. */
  lemma CodesAreClose(c: u8)
    requires Decoded(c) < 64
    ensures 0x20 <= c <= 0xbf
  {
  }

  lemma TrimPadsBack(s: Bits)
    ensures var t := DropTrailing(s); s == t + Repeat(false, |s| - |t|)
  {
  }

  /** A frame's train depends on its masked payload only. */
  lemma FieldsFixTrain(a: seq<u8>, b: seq<u8>)
    requires IsFrame(a) && IsFrame(b) && Fields(a) == Fields(b)
    ensures Train(a) == Train(b)
  {
    hide Code, Sum, Runs, Trimmed;
    assert |Fields(a)| == |a| - 2 && |Fields(b)| == |b| - 2;
    var ca, cb := Codes(a[2..]), Codes(b[2..]);
    forall i | 0 <= i < |ca| ensures ca[i] == cb[i] {
      assert Fields(a)[i] == Fields(b)[i];
    }
    assert ca == cb;
    assert Mapped(a) == Mapped(b);
    SameBytesSameTrain(a, b);
  }

  lemma SameBytesSameTrain(a: seq<u8>, b: seq<u8>)
    requires |a| >= 2 && |b| >= 2 && Mapped(a) == Mapped(b)
    ensures Train(a) == Train(b)
  {
  }

  /** The encoder loses exactly what it masks: trains agree if and only if payloads do. */
  lemma TrainIsInjective(a: seq<u8>, b: seq<u8>)
    requires IsFrame(a) && IsFrame(b)
    ensures Train(a) == Train(b) <==> Fields(a) == Fields(b)
  {
    hide Train, Fields, Decode;
    DecodeInvertsTrain(a);
    DecodeInvertsTrain(b);
    if Fields(a) == Fields(b) {
      FieldsFixTrain(a, b);
    }
  }

  // ---------------------------------------------------------------------------
  // Commands
  // ---------------------------------------------------------------------------

  /** The commands the builders offer, with arguments as the callers pass them. */
  datatype Command =
    | SingleColor(r: u8, g: u8, b: u8, attack: u8, sustain: u8, release: u8, chance: u8, restrictGroupId: u8)
    | TwoColors(r1: u8, g1: u8, b1: u8, r2: u8, g2: u8, b2: u8)
    | CycleProfiles(profileMask: u8, random: bool, attack: u8, sustain: u8, release: u8)
    | SetColor(r: u8, g: u8, b: u8, profileId: u8, isBackground: bool, skipDisplay: bool, restrictGroupId: u8)
    | SetGroupId(groupSel: u8, newGroupId: u8, restrictGroupId: u8)
    | SetGroupSel(groupSel: u8, restrictGroupId: u8)

  /** Two levels in one byte: the first shifted up three bits, the low three bits of the second. */
  function Levels(hi: u8, lo: u8): (b: u8) {
    ShiftedLevel(hi);
    hi * 8 % 0x100 + lo % 8
  }

  /** The raw frame each builder fills in. */
  function Frame(c: Command): (buf: seq<u8>)
    ensures IsFrame(buf)
  {
    match c
    case SingleColor(r, g, b, attack, sustain, release, chance, group) =>
      [0x80, 0x00, 0x00, g / 4, r / 4, b / 4, Levels(attack, chance), Levels(release, sustain), group % 32]
    case TwoColors(r1, g1, b1, r2, g2, b2) =>
      [0x80, 0x00, 0x04, g1 / 4, r1 / 4, b1 / 4, g2 / 4, r2 / 4, b2 / 4]
    case CycleProfiles(mask, random, attack, sustain, release) =>
      [0x80, 0x00, 0x02, mask % 64, mask / 64 + 4 * BitValue(random) + attack % 8 * 8, sustain % 8 + release % 8 * 8]
    case SetColor(r, g, b, profile, background, skip, group) =>
      [0x80, 0x00, 0x0f, g / 4, r / 4, b / 4, profile % 16 + 16 * BitValue(background) + 32 * BitValue(skip), 0, group % 32]
    case SetGroupId(sel, id, group) =>
      [0x80, 0x00, 0x0f, 0, 0, sel % 8, id % 32, 2, group % 32]
    case SetGroupSel(sel, group) =>
      [0x80, 0x00, 0x0f, 0, 0, sel % 8, 0, 1, group % 32]
  }

  /** What of a command reaches the bracelet: colours to 6 bits, levels to 3, groups to 5. */
  function Quantised(c: Command): (q: Command) {
    match c
    case SingleColor(r, g, b, attack, sustain, release, chance, group) =>
      SingleColor(r / 4, g / 4, b / 4, attack % 8, sustain % 8, release % 8, chance % 8, group % 32)
    case TwoColors(r1, g1, b1, r2, g2, b2) => TwoColors(r1 / 4, g1 / 4, b1 / 4, r2 / 4, g2 / 4, b2 / 4)
    case CycleProfiles(mask, random, attack, sustain, release) =>
      CycleProfiles(mask, random, attack % 8, sustain % 8, release % 8)
    case SetColor(r, g, b, profile, background, skip, group) =>
      SetColor(r / 4, g / 4, b / 4, profile % 16, background, skip, group % 32)
    case SetGroupId(sel, id, group) => SetGroupId(sel % 8, id % 32, group % 32)
    case SetGroupSel(sel, group) => SetGroupSel(sel % 8, group % 32)
  }

  /** The payload fields of a quantised command. */
  function Payload(q: Command): (fields: seq<nat>) {
    match q
    case SingleColor(r, g, b, attack, sustain, release, chance, group) =>
      [0, g, r, b, 8 * attack + chance, 8 * release + sustain, group]
    case TwoColors(r1, g1, b1, r2, g2, b2) => [4, g1, r1, b1, g2, r2, b2]
    case CycleProfiles(mask, random, attack, sustain, release) =>
      [2, mask % 64, mask / 64 + 4 * BitValue(random) + 8 * attack, sustain + 8 * release]
    case SetColor(r, g, b, profile, background, skip, group) =>
      [15, g, r, b, profile + 16 * BitValue(background) + 32 * BitValue(skip), 0, group]
    case SetGroupId(sel, id, group) => [15, 0, 0, sel, id, 2, group]
    case SetGroupSel(sel, group) => [15, 0, 0, sel, 0, 1, group]
  }

  /** How a bracelet reads payload fields back into a command. */
  function Understood(f: seq<nat>): (c: Option<Command>) {
    if |f| == 4 && f[1] < 64 && f[2] < 64 && f[3] < 64 then
      Some(CycleProfiles(f[1] + 64 * (f[2] % 4), f[2] / 4 % 2 == 1, f[2] / 8, f[3] % 8, f[3] / 8))
    else if |f| != 7 || exists i :: 0 <= i < 7 && f[i] >= 64 then None
    else if f[0] == 0 then Some(SingleColor(f[2], f[1], f[3], f[4] / 8, f[5] % 8, f[5] / 8, f[4] % 8, f[6]))
    else if f[0] == 4 then Some(TwoColors(f[2], f[1], f[3], f[5], f[4], f[6]))
    else if f[5] == 0 then Some(SetColor(f[2], f[1], f[3], f[4] % 16, f[4] / 16 % 2 == 1, f[4] / 32 == 1, f[6]))
    else if f[5] == 2 then Some(SetGroupId(f[3], f[4], f[6]))
    else Some(SetGroupSel(f[3], f[6]))
  }

  lemma ShiftedLevel(hi: u8)
    ensures hi * 8 % 0x100 == 8 * (hi % 32) && hi % 32 % 8 == hi % 8
  {
    var q := hi / 32;
    assert hi == 32 * q + hi % 32;
  }

  lemma MaskedLevels(a: nat, l: nat)
    requires a < 32 && l < 8
    ensures (8 * a + l) % 64 == 8 * (a % 8) + l
  {
    var q := a / 8;
    assert 8 * a + l == 64 * q + (8 * (a % 8) + l);
  }

  lemma LevelField(hi: u8, lo: u8)
    ensures Levels(hi, lo) % 64 == 8 * (hi % 8) + lo % 8 < 64
  {
    ShiftedLevel(hi);
    MaskedLevels(hi % 32, lo % 8);
  }

  lemma NineByteFields(b: seq<u8>)
    requires |b| == 9
    ensures Fields(b) == [b[2] % 64, b[3] % 64, b[4] % 64, b[5] % 64, b[6] % 64, b[7] % 64, b[8] % 64]
  {
  }

  lemma SixByteFields(b: seq<u8>)
    requires |b| == 6
    ensures Fields(b) == [b[2] % 64, b[3] % 64, b[4] % 64, b[5] % 64]
  {
  }

  lemma SmallField(x: u8)
    requires x < 64
    ensures x % 64 == x
  {
  }

  lemma SingleColorFrame(c: Command)
    requires c.SingleColor?
    ensures Frame(c) == [0x80, 0x00, 0x00, c.g / 4, c.r / 4, c.b / 4, Levels(c.attack, c.chance),
                         Levels(c.release, c.sustain), c.restrictGroupId % 32]
  {
    hide Levels;
  }

  lemma FieldsOfSingleColor(c: Command)
    requires c.SingleColor?
    ensures Fields(Frame(c)) == Payload(Quantised(c))
  {
    hide Fields, Levels, Frame;
    SingleColorFrame(c);
    NineByteFields(Frame(c));
    SmallField(c.g / 4);
    SmallField(c.r / 4);
    SmallField(c.b / 4);
    SmallField(c.restrictGroupId % 32);
    LevelField(c.attack, c.chance);
    LevelField(c.release, c.sustain);
  }

  lemma FieldsOfCycleProfiles(c: Command)
    requires c.CycleProfiles?
    ensures Fields(Frame(c)) == Payload(Quantised(c))
  {
    hide Fields;
    var b := Frame(c);
    SixByteFields(b);
    assert b[3] < 64 && b[4] < 64 && b[5] < 64;
  }

  lemma FieldsOfTwoColors(c: Command)
    requires c.TwoColors?
    ensures Fields(Frame(c)) == Payload(Quantised(c))
  {
    hide Fields;
    NineByteFields(Frame(c));
    SmallField(c.r1 / 4);
    SmallField(c.g1 / 4);
    SmallField(c.b1 / 4);
    SmallField(c.r2 / 4);
    SmallField(c.g2 / 4);
    SmallField(c.b2 / 4);
  }

  lemma FieldsOfSetColor(c: Command)
    requires c.SetColor?
    ensures Fields(Frame(c)) == Payload(Quantised(c))
  {
    hide Fields;
    NineByteFields(Frame(c));
    SmallField(c.r / 4);
    SmallField(c.g / 4);
    SmallField(c.b / 4);
    SmallField(c.restrictGroupId % 32);
  }

  lemma FieldsOfGroupWrite(c: Command)
    requires c.SetGroupId? || c.SetGroupSel?
    ensures Fields(Frame(c)) == Payload(Quantised(c))
  {
    hide Fields;
    NineByteFields(Frame(c));
  }

  lemma FieldsOfFrame(c: Command)
    ensures Fields(Frame(c)) == Payload(Quantised(c))
  {
    hide Fields, Frame, Payload, Quantised;
    match c
    case SingleColor(_, _, _, _, _, _, _, _) => FieldsOfSingleColor(c);
    case CycleProfiles(_, _, _, _, _) => FieldsOfCycleProfiles(c);
    case TwoColors(_, _, _, _, _, _) => FieldsOfTwoColors(c);
    case SetColor(_, _, _, _, _, _, _) => FieldsOfSetColor(c);
    case SetGroupId(_, _, _) => FieldsOfGroupWrite(c);
    case SetGroupSel(_, _) => FieldsOfGroupWrite(c);
  }

  lemma UnpackLevels(hi: nat, lo: nat)
    requires hi < 8 && lo < 8
    ensures (8 * hi + lo) / 8 == hi && (8 * hi + lo) % 8 == lo && 8 * hi + lo < 64
  {
  }

  lemma UnpackFlags(p: nat, b: bool, s: bool)
    requires p < 16
    ensures var f := p + 16 * BitValue(b) + 32 * BitValue(s);
            f < 64 && f % 16 == p && (f / 16 % 2 == 1 <==> b) && (f / 32 == 1 <==> s)
  {
  }

  lemma UnpackMask(mask: u8, random: bool, attack: nat)
    requires attack < 8
    ensures var f := mask / 64 + 4 * BitValue(random) + 8 * attack;
            f < 64 && mask % 64 + 64 * (f % 4) == mask && (f / 4 % 2 == 1 <==> random) && f / 8 == attack
  {
    var q := mask / 64;
    assert mask == 64 * q + mask % 64;
  }

  lemma SingleColorUnderstood(c: Command)
    requires c.SingleColor?
    ensures Understood(Payload(Quantised(c))) == Some(Quantised(c))
  {
    hide BitValue;
    UnpackLevels(c.attack % 8, c.chance % 8);
    UnpackLevels(c.release % 8, c.sustain % 8);
  }

  lemma CycleProfilesUnderstood(c: Command)
    requires c.CycleProfiles?
    ensures Understood(Payload(Quantised(c))) == Some(Quantised(c))
  {
    hide BitValue;
    UnpackMask(c.profileMask, c.random, c.attack % 8);
    UnpackLevels(c.release % 8, c.sustain % 8);
  }

  lemma SetColorUnderstood(c: Command)
    requires c.SetColor?
    ensures Understood(Payload(Quantised(c))) == Some(Quantised(c))
  {
    hide BitValue;
    UnpackFlags(c.profileId % 16, c.isBackground, c.skipDisplay);
  }

  lemma PlainUnderstood(c: Command)
    requires c.TwoColors? || c.SetGroupId? || c.SetGroupSel?
    ensures Understood(Payload(Quantised(c))) == Some(Quantised(c))
  {
    hide BitValue;
  }

  lemma PayloadIsUnderstood(c: Command)
    ensures Understood(Payload(Quantised(c))) == Some(Quantised(c))
  {
    hide Understood, Payload, Quantised;
    match c
    case SingleColor(_, _, _, _, _, _, _, _) => SingleColorUnderstood(c);
    case CycleProfiles(_, _, _, _, _) => CycleProfilesUnderstood(c);
    case SetColor(_, _, _, _, _, _, _) => SetColorUnderstood(c);
    case TwoColors(_, _, _, _, _, _) => PlainUnderstood(c);
    case SetGroupId(_, _, _) => PlainUnderstood(c);
    case SetGroupSel(_, _) => PlainUnderstood(c);
  }

  /** Main result: whatever command is built, the train on air tells a receiver that command,
      quantised, and nothing else. */
  lemma TrainTellsCommand(c: Command)
    ensures Decode(Train(Frame(c))).Some? && Understood(Decode(Train(Frame(c))).value) == Some(Quantised(c))
  {
    hide Train, Fields, Frame, Decode, Understood, Payload, Quantised;
    DecodeInvertsTrain(Frame(c));
    FieldsOfFrame(c);
    PayloadIsUnderstood(c);
  }

  /** Two commands of any kind sound the same if and only if they agree after quantisation. */
  lemma CommandsAreDistinct(c: Command, d: Command)
    ensures Train(Frame(c)) == Train(Frame(d)) <==> Quantised(c) == Quantised(d)
  {
    hide Train, Fields, Frame, Decode, Understood, Payload, Quantised;
    TrainTellsCommand(c);
    TrainTellsCommand(d);
    if Quantised(c) == Quantised(d) {
      FieldsOfFrame(c);
      FieldsOfFrame(d);
      FieldsFixTrain(Frame(c), Frame(d));
    }
  }

  // ---------------------------------------------------------------------------
  // The encoders
  // ---------------------------------------------------------------------------

  /** One more bit behind the started flag: leading zeros are skipped. */
  function Feed(acc: Bits, bit: bool): (r: Bits) {
    if acc == [] && !bit then [] else acc + [bit]
  }

  lemma DropLeadingSnoc(s: Bits, x: bool)
    ensures DropLeading(s + [x]) == Feed(DropLeading(s), x)
  {
    var lead := DropLeading(s);
    hide DropLeading;
    LeadOfSnoc(s, x, |s| - |lead|);
  }

  lemma LeadOfSnoc(s: Bits, x: bool, k: nat)
    requires k <= |s| && (k < |s| ==> s[k]) && forall i :: 0 <= i < k ==> !s[i]
    ensures DropLeading(s + [x]) == if k == |s| && !x then [] else s[k..] + [x]
  {
    hide DropLeading;
    var t := s + [x];
    if k < |s| {
      assert t[k] == s[k];
      LeadIs(t, k);
    } else {
      assert t[k] == x;
      LeadIs(t, if x then k else |t|);
    }
  }

  lemma {:induction false} LowBitsSnoc(b: nat, k: nat)
    ensures LowBits(b, k + 1) == LowBits(b, k) + [Shifted(b, k) % 2 == 1]
    decreases k
  {
    if k > 0 {
      LowBitsSnoc(b / 2, k - 1);
    }
  }

  /** b shifted right by k. */
  function Shifted(b: nat, k: nat): (r: nat)
    decreases k
  {
    if k == 0 then b else Shifted(b / 2, k - 1)
  }

  lemma {:induction false} ShiftedStep(b: nat, k: nat)
    ensures Shifted(b, k + 1) == Shifted(b, k) / 2
    decreases k
  {
    if k > 0 {
      ShiftedStep(b / 2, k - 1);
    }
  }

  /** The trimmed stream after k bits of a byte. */
  function Fed(done: Bits, b: nat, k: nat): (r: Bits) {
    DropLeading(done + LowBits(b, k))
  }

  /** Feeding a byte's k-th bit extends the trimmed stream by that bit. */
  lemma FeedStep(done: Bits, b: nat, k: nat)
    ensures Fed(done, b, k + 1) == Feed(Fed(done, b, k), Shifted(b, k) % 2 == 1)
    ensures Shifted(b, k + 1) == Shifted(b, k) / 2
  {
    hide DropLeading, LowBits, Feed;
    LowBitsSnoc(b, k);
    ShiftedStep(b, k);
    DropLeadingSnoc(done + LowBits(b, k), Shifted(b, k) % 2 == 1);
    assert done + (LowBits(b, k) + [Shifted(b, k) % 2 == 1]) == (done + LowBits(b, k)) + [Shifted(b, k) % 2 == 1];
  }

  lemma NoBits(done: Bits, b: nat)
    ensures done + LowBits(b, 0) == done
    ensures DropLeading([]) == [] && Stream([]) == []
  {
  }

  lemma StreamSnoc(bytes: seq<u8>, i: nat)
    requires i < |bytes|
    ensures Stream(bytes[..i + 1]) == Stream(bytes[..i]) + LowBits(bytes[i], 8)
  {
    assert bytes[..i + 1][..i] == bytes[..i];
  }

  /** Coding one more field. */
  lemma CodesSnoc(fields: seq<u8>, x: u8)
    ensures Codes(fields + [x]) == Codes(fields) + [Code(x % 64)]
    ensures Sum(Codes(fields + [x])) == Sum(Codes(fields)) + Code(x % 64)
  {
    hide Code;
    assert (fields + [x])[..|fields|] == fields;
    assert Codes(fields + [x])[..|fields|] == Codes(fields);
  }

  /** Code the fields in place and store the coded checksum. */
  method MapBuffer(buf: array<u8>)
    requires buf.Length >= 2
    modifies buf
    ensures buf[..] == Mapped(old(buf[..]))
  {
    hide Code, Codes, Sum;
    ghost var was := buf[..];
    var checksumSum: nat := 0;
    assert was[2..2] == [];
    NoCodes();
    for i := 2 to buf.Length
      invariant buf[0] == was[0]
      invariant forall k :: i <= k < buf.Length ==> buf[k] == was[k]
      invariant buf[2..i] == Codes(was[2..i])
      invariant checksumSum == Sum(Codes(was[2..i]))
    {
      ghost var before := buf[2..i];
      CodesSnoc(was[2..i], was[i]);
      assert was[2..i + 1] == was[2..i] + [was[i]];
      buf[i] := Code(buf[i] % 64);
      checksumSum := checksumSum + buf[i];
      assert buf[2..i + 1] == before + [buf[i]];
    }
    assert was[2..buf.Length] == was[2..];
    buf[1] := Code(checksumSum / 4 % 64);
    assert buf[..] == [buf[0], buf[1]] + buf[2..];
  }

  lemma NoCodes()
    ensures Codes([]) == [] && Sum([]) == 0
  {
  }

  /** Append one byte's bits, least significant first, skipping zeros until a one was seen. */
  method FeedByte(byte: u8, bits: array<bool>, count: nat, seen: bool, ghost done: Bits)
    returns (bitCount: nat, started: bool)
    requires count + 8 <= bits.Length && bits[..count] == DropLeading(done) && (seen <==> count > 0)
    modifies bits
    ensures bitCount <= count + 8 && bits[..bitCount] == Fed(done, byte, 8)
    ensures started <==> bitCount > 0
  {
    hide DropLeading, LowBits, Shifted, Feed, Fed;
    bitCount, started := count, seen;
    var b: nat := byte;
    NothingFed(done, byte);
    for k := 0 to 8
      invariant bitCount <= count + k && (started <==> bitCount > 0)
      invariant b == Shifted(byte, k)
      invariant bits[..bitCount] == Fed(done, byte, k)
    {
      FeedStep(done, byte, k);
      bitCount, started := FeedBit(b % 2 != 0, bits, bitCount, started);
      b := b / 2;
    }
  }

  /** Append a bit unless it is a zero before the first one. */
  method FeedBit(bit: bool, bits: array<bool>, count: nat, seen: bool) returns (bitCount: nat, started: bool)
    requires count < bits.Length && (seen <==> count > 0)
    modifies bits
    ensures bitCount <= count + 1 && bits[..bitCount] == Feed(old(bits[..count]), bit)
    ensures started <==> bitCount > 0
  {
    bitCount, started := count, seen;
    ghost var acc := bits[..count];
    if started || bit {
      bits[count] := bit;
      assert bits[..count + 1] == acc + [bit];
      bitCount, started := count + 1, true;
    }
  }

  lemma NothingFed(done: Bits, b: nat)
    ensures Shifted(b, 0) == b && Fed(done, b, 0) == DropLeading(done)
  {
    NoBits(done, b);
  }

  /** Serialise the buffer into a bit buffer. */
  method FillBits(buf: array<u8>, bits: array<bool>) returns (bitCount: nat)
    requires 8 * buf.Length <= bits.Length
    modifies bits
    ensures bitCount <= bits.Length && bits[..bitCount] == DropLeading(Stream(buf[..]))
  {
    hide DropLeading, LowBits, Stream;
    bitCount := 0;
    var started := false;
    NoBits([], 0);
    for i := 0 to buf.Length
      invariant bitCount <= 8 * i && (started <==> bitCount > 0)
      invariant bits[..bitCount] == DropLeading(Stream(buf[..i]))
    {
      StreamSnoc(buf[..], i);
      assert buf[..][..i] == buf[..i] && buf[..][..i + 1] == buf[..i + 1];
      bitCount, started := FeedByte(buf[i], bits, bitCount, started, Stream(buf[..i]));
    }
    assert buf[..buf.Length] == buf[..];
  }

  lemma RunLengthIs(s: Bits, n: nat)
    requires 0 < n <= |s|
    requires forall i :: 0 <= i < n ==> s[i] == s[0]
    requires n < |s| ==> s[n] != s[0]
    ensures RunLength(s) == n
  {
  }

  /** The train from bit i on starts with the run from i to j. */
  lemma NextRun(all: Bits, i: nat, j: nat)
    requires i < j <= |all| && (forall k :: i <= k < j ==> all[k] == all[i])
    requires j < |all| ==> all[j] != all[i]
    ensures Durations(Runs(all[i..])) == [(j - i) * PULSE_US] + Durations(Runs(all[j..]))
  {
    var rest := all[i..];
    RunLengthIs(rest, j - i);
    hide RunLength;
    assert rest[j - i..] == all[j..];
    assert Runs(rest) == [j - i] + Runs(all[j..]);
  }

  lemma NoRuns()
    ensures Durations(Runs([])) == []
  {
  }

  /** The first few entries of the reference train, as many as fit. */
  function Fitting(train: seq<nat>, capacity: nat): (p: seq<nat>) {
    if |train| <= capacity then train else train[..capacity]
  }

  /** End of the run that starts at i. */
  method ScanRun(bits: array<bool>, bitCount: nat, i: nat) returns (j: nat)
    requires i < bitCount <= bits.Length
    ensures i < j <= bitCount && (forall k :: i <= k < j ==> bits[k] == bits[i])
    ensures j < bitCount ==> bits[j] != bits[i]
  {
    j := i;
    while j < bitCount && bits[j] == bits[i]
      invariant i <= j <= bitCount
      invariant forall k :: i <= k < j ==> bits[k] == bits[i]
    {
      j := j + 1;
    }
  }

  lemma FittingPrefix(done: seq<nat>, rest: seq<nat>, capacity: nat)
    requires |done| <= capacity && (rest == [] || |done| == capacity)
    ensures Fitting(done + rest, capacity) == done
  {
  }

  /** Run-length code the first bitCount bits until done or out of room. */
  method EncodeRuns(bits: array<bool>, bitCount: nat, outBuf: array<u16>) returns (outIdx: nat)
    requires bitCount <= bits.Length && bitCount * PULSE_US < 0x1_0000
    modifies outBuf
    ensures outIdx <= outBuf.Length
    ensures outBuf[..outIdx] == Fitting(Durations(Runs(bits[..bitCount])), outBuf.Length)
    ensures forall k :: outIdx <= k < outBuf.Length ==> outBuf[k] == old(outBuf[k])
  {
    hide Durations, Runs, Fitting;
    ghost var all := bits[..bitCount];
    ghost var train := Durations(Runs(all));
    outIdx := 0;
    var i := 0;
    assert all[0..] == all;
    NoRuns();
    while i < bitCount && outIdx < outBuf.Length
      invariant i <= bitCount && outIdx <= outBuf.Length
      invariant bits[..bitCount] == all
      invariant train == outBuf[..outIdx] + Durations(Runs(all[i..]))
      invariant forall k :: outIdx <= k < outBuf.Length ==> outBuf[k] == old(outBuf[k])
    {
      var j := ScanRun(bits, bitCount, i);
      assert forall k :: 0 <= k < bitCount ==> all[k] == bits[k];
      NextRun(all, i, j);
      ghost var done := outBuf[..outIdx];
      assert (j - i) * PULSE_US <= bitCount * PULSE_US;
      outBuf[outIdx] := (j - i) * PULSE_US;
      assert outBuf[..outIdx + 1] == done + [(j - i) * PULSE_US];
      outIdx := outIdx + 1;
      i := j;
    }
    assert i == bitCount ==> all[i..] == [];
    FittingPrefix(outBuf[..outIdx], Durations(Runs(all[i..])), outBuf.Length);
  }

  lemma {:induction false} TrimStep(s: Bits, n: nat)
    requires 0 < n <= |s| && !s[n - 1]
    ensures DropTrailing(s[..n]) == DropTrailing(s[..n - 1])
  {
    assert s[..n][..n - 1] == s[..n - 1];
  }

  lemma TrimDone(s: Bits)
    requires s == [] || s[|s| - 1]
    ensures DropTrailing(s) == s
  {
  }

  /** Drop the trailing zeros of a bit buffer. */
  method TrimTail(bits: array<bool>, count: nat) returns (bitCount: nat)
    requires count <= bits.Length
    ensures bitCount <= count && bits[..bitCount] == DropTrailing(bits[..count])
  {
    hide DropTrailing;
    ghost var s := bits[..count];
    bitCount := count;
    while bitCount > 0 && !bits[bitCount - 1]
      invariant bitCount <= count && DropTrailing(s[..bitCount]) == DropTrailing(s)
    {
      TrimStep(s, bitCount);
      bitCount := bitCount - 1;
    }
    TrimDone(s[..bitCount]);
    assert s[..bitCount] == bits[..bitCount];
  }

  /** The firmware's encoder: with enough room the reference train, with less a prefix of it. */
  method EncodeBufferToUs(buf: array<u8>, outBuf: array<u16>) returns (n: nat)
    requires 2 <= buf.Length <= 10 && buf as object != outBuf
    modifies buf, outBuf
    ensures buf[..] == Mapped(old(buf[..]))
    ensures n <= outBuf.Length && outBuf[..n] == Fitting(Train(old(buf[..])), outBuf.Length)
    ensures forall k :: n <= k < outBuf.Length ==> outBuf[k] == old(outBuf[k])
  {
    hide Runs, Mapped, DropLeading, DropTrailing, Stream, Durations, RunLength;
    MapBuffer(buf);
    var bits := new bool[80];
    var count := FillBits(buf, bits);
    var bitCount := TrimTail(bits, count);
    assert bits[..bitCount] == Trimmed(old(buf[..]));
    if bitCount == 0 || outBuf.Length == 0 {
      NoRuns();
      return 0;
    }
    n := EncodeRuns(bits, bitCount, outBuf);
  }

  lemma {:induction false} FewRuns(s: Bits)
    ensures |Runs(s)| <= |s|
    decreases |s|
  {
    if |s| > 0 {
      RunsStep(s);
      FewRuns(s[RunLength(s)..]);
    }
  }

  lemma TrainIsShort(buf: seq<u8>)
    requires IsFrame(buf)
    ensures |Train(buf)| <= 65
  {
    hide Runs, Trimmed;
    LastByteShows(buf);
    FewRuns(Trimmed(buf));
  }

  /** With 65 places the whole train of any frame fits, so what is put out decodes to its fields. */
  lemma RoomIsEnough(buf: seq<u8>, capacity: nat)
    requires IsFrame(buf) && capacity >= 65
    ensures Fitting(Train(buf), capacity) == Train(buf)
    ensures Decode(Fitting(Train(buf), capacity)) == Some(Fields(buf))
  {
    hide Train, Decode, Fields;
    TrainIsShort(buf);
    DecodeInvertsTrain(buf);
  }

  /** Build a command's frame and encode it. */
  method Build(c: Command, outBuf: array<u16>) returns (n: nat)
    modifies outBuf
    ensures n <= outBuf.Length && outBuf[..n] == Fitting(Train(Frame(c)), outBuf.Length)
    ensures outBuf.Length >= 65 ==> Decode(outBuf[..n]).Some? && Understood(Decode(outBuf[..n]).value) == Some(Quantised(c))
    ensures forall k :: n <= k < outBuf.Length ==> outBuf[k] == old(outBuf[k])
  {
    hide Train, Mapped, Understood, Decode, Quantised;
    var frame := Frame(c);
    hide Frame;
    var buf := new u8[|frame|](i requires 0 <= i < |frame| => frame[i]);
    assert buf[..] == frame;
    n := EncodeBufferToUs(buf, outBuf);
    if outBuf.Length >= 65 {
      RoomIsEnough(frame, outBuf.Length);
      TrainTellsCommand(c);
    }
  }

  /** The parity tool's encoder over growing lists, with no bound on the output. */
  method ReferenceEncode(buf: seq<u8>) returns (out: seq<nat>)
    requires |buf| >= 2
    ensures out == Train(buf)
  {
    hide Code, Codes, Sum, DropLeading, DropTrailing, LowBits, Stream, Runs, Durations;
    var bytes := buf;
    var checksumSum: nat := 0;
    assert buf[2..2] == [];
    NoCodes();
    for i := 2 to |buf|
      invariant |bytes| == |buf| && bytes[0] == buf[0]
      invariant forall k :: i <= k < |buf| ==> bytes[k] == buf[k]
      invariant bytes[2..i] == Codes(buf[2..i])
      invariant checksumSum == Sum(Codes(buf[2..i]))
    {
      ghost var before := bytes[2..i];
      CodesSnoc(buf[2..i], buf[i]);
      assert buf[2..i + 1] == buf[2..i] + [buf[i]];
      bytes := bytes[i := Code(bytes[i] % 64)];
      checksumSum := checksumSum + bytes[i];
      assert bytes[2..i + 1] == before + [bytes[i]];
    }
    assert buf[2..|buf|] == buf[2..];
    bytes := bytes[1 := Code(checksumSum / 4 % 64)];
    assert bytes == [bytes[0], bytes[1]] + bytes[2..];
    assert bytes == Mapped(buf);
    var bits := ReferenceBits(bytes);
    ghost var lead := bits;
    while bits != [] && !bits[|bits| - 1]
      invariant DropTrailing(bits) == DropTrailing(lead)
    {
      TrimStep(bits, |bits|);
      assert bits[..|bits|] == bits;
      bits := bits[..|bits| - 1];
    }
    TrimDone(bits);
    out := ReferenceRuns(bits);
  }

  method ReferenceBits(bytes: seq<u8>) returns (bits: Bits)
    ensures bits == DropLeading(Stream(bytes))
  {
    hide DropLeading, LowBits, Stream;
    bits := [];
    var started := false;
    NoBits([], 0);
    for i := 0 to |bytes|
      invariant bits == DropLeading(Stream(bytes[..i])) && (started <==> bits != [])
    {
      ghost var done := Stream(bytes[..i]);
      var b: nat := bytes[i];
      NoBits(done, bytes[i]);
      for k := 0 to 8
        invariant b == Shifted(bytes[i], k)
        invariant bits == DropLeading(done + LowBits(bytes[i], k)) && (started <==> bits != [])
      {
        FeedStep(done, bytes[i], k);
        var bit := b % 2 != 0;
        if started || bit {
          bits := bits + [bit];
          started := true;
        }
        b := b / 2;
      }
      StreamSnoc(bytes, i);
    }
    assert bytes[..|bytes|] == bytes;
  }

  method ReferenceRuns(bits: Bits) returns (out: seq<nat>)
    ensures out == Durations(Runs(bits))
  {
    hide Durations, Runs;
    out := [];
    ghost var train := Durations(Runs(bits));
    var i := 0;
    assert bits[0..] == bits;
    NoRuns();
    while i < |bits|
      invariant i <= |bits|
      invariant train == out + Durations(Runs(bits[i..]))
    {
      var j := i;
      while j < |bits| && bits[j] == bits[i]
        invariant i <= j <= |bits|
        invariant forall k :: i <= k < j ==> bits[k] == bits[i]
      {
        j := j + 1;
      }
      NextRun(bits, i, j);
      out := out + [(j - i) * PULSE_US];
      i := j;
    }
    assert bits[i..] == [];
  }
}
