/** HMAC-SHA256 over a 16-byte key, truncated to eight bytes (RFC 2104). */
module Hmac {
  import opened Bytes
  import opened Fips180
  import opened Sha256

  type Key = k: seq<u8> | |k| == 16 witness seq(16, i => 0)

  const BLOCK_SIZE: nat := 64
  const MAX_MESSAGE: nat := 320
  const IPAD: u8 := 0x36
  const OPAD: u8 := 0x5c
  const MAC_SIZE: nat := 8

  function XorByte(a: u8, b: u8): (r: u8) {
    assert Pow2(8) == 0x100;
    XorBits(a, b, 8)
  }

  function PaddedByte(key: Key, pad: u8, i: nat): (b: u8)
    ensures b == XorByte(if i < 16 then key[i] else 0, pad)
  {
    XorByte(if i < 16 then key[i] else 0, pad)
  }

  /** The key extended with zeros to the block size, every byte combined with a pad byte. */
  function PaddedKey(key: Key, pad: u8): (p: seq<u8>)
    ensures |p| == BLOCK_SIZE
  {
    seq<u8>(BLOCK_SIZE, i requires 0 <= i < BLOCK_SIZE => PaddedByte(key, pad, i))
  }

  // ---------------------------------------------------------------------------
  // Section 2 of RFC 2104, over bit strings, with the hash of FIPS 180-4
  // ---------------------------------------------------------------------------

  /** The inner pad byte, 00110110. */
  const INNER: Bits := [false, false, true, true, false, true, true, false]

  /** The outer pad byte, 01011100. */
  const OUTER: Bits := [false, true, false, true, true, true, false, false]

  /** The key with zeros up to 64 bytes. */
  function KeyBlock(key: Key): (k: Bits)
    ensures |k| == 512
  {
    BitsOf(key) + Zeros(384)
  }

  /** Exclusive or with a byte repeated to the same length. */
  function Masked(k: Bits, byte: Bits): (m: Bits)
    requires |byte| == 8
    ensures |m| == |k|
  {
    seq(|k|, i requires 0 <= i < |k| => k[i] != byte[i % 8])
  }

  function Rfc2104(key: Key, text: seq<u8>): (mac: Bits)
    requires 512 + 8 * |text| < MAX_BITS
  {
    FipsDigest(Masked(KeyBlock(key), OUTER) + FipsDigest(Masked(KeyBlock(key), INNER) + BitsOf(text)))
  }

  /** The full 32-byte code, or zeros for a message over the buffer's limit. */
  function Full(key: Key, msg: seq<u8>): (mac: seq<u8>)
    ensures |mac| == 32
  {
    if |msg| > MAX_MESSAGE then ZeroBytes(32)
    else Digest(PaddedKey(key, OPAD) + Digest(PaddedKey(key, IPAD) + msg))
  }

  function Sign(key: Key, msg: seq<u8>): (mac: seq<u8>)
    ensures |mac| == MAC_SIZE
  {
    Full(key, msg)[..MAC_SIZE]
  }

  /** Bit j of byte i of a byte string, most significant first. */
  lemma {:induction false} BitsOfAt(bytes: seq<u8>, i: nat, j: nat)
    requires i < |bytes| && j < 8
    ensures BitsOf(bytes)[8 * i + j] <==> BitAt(bytes[i], 7 - j)
  {
    hide BitAt, Binary;
    if i == |bytes| - 1 {
      BinaryAt(bytes[i], 8, 7 - j);
    } else {
      BitsOfAt(bytes[..|bytes| - 1], i, j);
    }
  }

  lemma {:induction false} ZeroAt(i: nat)
    ensures !BitAt(0, i)
  {
    if i > 0 {
      ZeroAt(i - 1);
    }
  }

  lemma KeyBlockAt(key: Key, i: nat, j: nat)
    requires i < 64 && j < 8
    ensures KeyBlock(key)[8 * i + j] <==> BitAt(if i < 16 then key[i] else 0, 7 - j)
  {
    hide BitAt, BitsOf, Zeros;
    if i < 16 {
      BitsOfAt(key, i, j);
    } else {
      ZeroAt(7 - j);
      ZerosAt(384, 8 * i + j - 128);
    }
  }

  /** The padded key, bit by bit. */
  lemma PaddedBitAt(key: Key, pad: u8, i: nat, j: nat)
    requires i < 64 && j < 8
    ensures BitsOf(PaddedKey(key, pad))[8 * i + j] <==> KeyBlock(key)[8 * i + j] != Binary(pad, 8)[j]
  {
    hide BitAt, BitsOf, Binary, XorBits, KeyBlock;
    KeyBlockAt(key, i, j);
    BitsOfAt(PaddedKey(key, pad), i, j);
    BinaryAt(pad, 8, 7 - j);
    XorAt(if i < 16 then key[i] else 0, pad, 8, 7 - j);
  }

  lemma ZerosAt(n: nat, i: nat)
    requires i < n
    ensures !Zeros(n)[i]
  {
  }

  lemma PaddedBits(key: Key, pad: u8, byte: Bits)
    requires byte == Binary(pad, 8)
    ensures BitsOf(PaddedKey(key, pad)) == Masked(KeyBlock(key), byte)
  {
    hide BitsOf, Binary, PaddedKey, KeyBlock;
    forall n | 0 <= n < 512 ensures BitsOf(PaddedKey(key, pad))[n] == Masked(KeyBlock(key), byte)[n] {
      var i, j := n / 8, n % 8;
      assert n == 8 * i + j;
      PaddedBitAt(key, pad, i, j);
    }
  }

  lemma PadBytesWritten()
    ensures Binary(IPAD, 8) == INNER && Binary(OPAD, 8) == OUTER
  {
  }

  /** The code is HMAC-SHA256 for exactly the messages that fit the buffer, and zeros beyond. */
  lemma FullIsRfc2104(key: Key, msg: seq<u8>)
    ensures |msg| <= 320 ==> BitsOf(Full(key, msg)) == Rfc2104(key, msg)
    ensures |msg| > 320 ==> Full(key, msg) == ZeroBytes(32)
  {
    hide BitsOf, Digest, FipsDigest, PaddedKey, Masked, KeyBlock, Binary;
    if |msg| <= MAX_MESSAGE {
      PadBytesWritten();
      PaddedBits(key, IPAD, INNER);
      PaddedBits(key, OPAD, OUTER);
      var inner := PaddedKey(key, IPAD) + msg;
      BitsOfConcat(PaddedKey(key, IPAD), msg);
      DigestIsFips(inner);
      var outer := PaddedKey(key, OPAD) + Digest(inner);
      BitsOfConcat(PaddedKey(key, OPAD), Digest(inner));
      DigestIsFips(outer);
    }
  }

  lemma {:induction false} XorIsZero(a: nat, b: nat, n: nat)
    requires a < Pow2(n) && b < Pow2(n)
    ensures XorBits(a, b, n) == 0 <==> a == b
    decreases n
  {
    if n > 0 {
      XorIsZero(a / 2, b / 2, n - 1);
    }
  }

  lemma {:induction false} OrIsZero(a: nat, b: nat, n: nat)
    requires a < Pow2(n) && b < Pow2(n)
    ensures OrBits(a, b, n) == 0 <==> a == 0 && b == 0
    decreases n
  {
    if n > 0 {
      OrIsZero(a / 2, b / 2, n - 1);
    }
  }

  /** Folding a difference into the accumulator keeps it zero exactly while all bytes match. */
  lemma AccumulatorStep(diff: u8, a: u8, b: u8)
    ensures OrBits(diff, XorByte(a, b), 8) < 0x100
    ensures OrBits(diff, XorByte(a, b), 8) == 0 <==> diff == 0 && a == b
  {
    assert Pow2(8) == 0x100;
    hide Pow2, OrBits, XorBits;
    XorIsZero(a, b, 8);
    OrIsZero(diff, XorByte(a, b), 8);
  }

  lemma PrefixesMatch(a: seq<u8>, b: seq<u8>, i: nat)
    requires i < |a| && i < |b|
    ensures a[..i + 1] == b[..i + 1] <==> a[..i] == b[..i] && a[i] == b[i]
  {
    assert a[..i + 1] == a[..i] + [a[i]] && b[..i + 1] == b[..i] + [b[i]];
  }

  method HmacSha256Full(key: Key, msg: seq<u8>, out: array<u8>)
    requires out.Length == 32
    modifies out
    ensures out[..] == Full(key, msg)
  {
    hide Digest, XorByte;
    var ipad := new u8[BLOCK_SIZE](i => 0);
    var opad := new u8[BLOCK_SIZE](i => 0);
    for i := 0 to 16
      invariant forall k :: 0 <= k < BLOCK_SIZE ==> ipad[k] == opad[k] == if k < i then key[k] else 0
    {
      ipad[i] := key[i];
      opad[i] := key[i];
    }
    for i := 0 to BLOCK_SIZE
      invariant forall k :: 0 <= k < i ==> ipad[k] == PaddedKey(key, IPAD)[k] && opad[k] == PaddedKey(key, OPAD)[k]
      invariant forall k :: i <= k < BLOCK_SIZE ==> ipad[k] == opad[k] == if k < 16 then key[k] else 0
    {
      ipad[i] := XorByte(ipad[i], IPAD);
      opad[i] := XorByte(opad[i], OPAD);
    }
    assert ipad[..] == PaddedKey(key, IPAD) && opad[..] == PaddedKey(key, OPAD);
    if |msg| > MAX_MESSAGE {
      for i := 0 to 32
        invariant forall k :: 0 <= k < i ==> out[k] == 0
      {
        out[i] := 0;
      }
      assert out[..] == ZeroBytes(32);
      return;
    }
    var innerHash := new u8[32];
    Sha256.Sha256(ipad[..] + msg, innerHash);
    Sha256.Sha256(opad[..] + innerHash[..], out);
  }

  method SignT8(key: Key, msg: seq<u8>) returns (mac: seq<u8>)
    ensures mac == Sign(key, msg)
  {
    var full := new u8[32];
    HmacSha256Full(key, msg, full);
    mac := full[..MAC_SIZE];
  }

  /** Compare in constant time: accept exactly the code a signer would produce. */
  method VerifyT8(key: Key, msg: seq<u8>, mac8: seq<u8>) returns (ok: bool)
    requires |mac8| == MAC_SIZE
    ensures ok <==> mac8 == Sign(key, msg)
  {
    hide Sign, OrBits, XorByte;
    var expected := SignT8(key, msg);
    var diff: u8 := 0;
    for i := 0 to MAC_SIZE
      invariant diff == 0 <==> expected[..i] == mac8[..i]
    {
      AccumulatorStep(diff, expected[i], mac8[i]);
      PrefixesMatch(expected, mac8, i);
      diff := OrBits(diff, XorByte(expected[i], mac8[i]), 8);
    }
    assert expected[..MAC_SIZE] == expected && mac8[..MAC_SIZE] == mac8;
    ok := diff == 0;
  }
}
