/** Machine integers and little-endian byte codecs shared by the wire and storage models. */
module Bytes {

  type u8 = x: int | 0 <= x < 0x100
  type u16 = x: int | 0 <= x < 0x1_0000
  type u32 = x: int | 0 <= x < 0x1_0000_0000
  type u64 = x: int | 0 <= x < 0x1_0000_0000_0000_0000

  datatype Option<+T> = None | Some(value: T)

  type Bits = seq<bool>

  function Pow2(n: nat): (p: nat)
    ensures p > 0
  {
    if n == 0 then 1 else 2 * Pow2(n - 1)
  }

  /** Where the millisecond clock wraps. */
  const WRAP: nat := 0x1_0000_0000

  /** Unsigned subtraction of two clock readings. */
  function Elapsed(now: u32, since: u32): (d: nat)
    ensures d < WRAP
    ensures since <= now ==> d == now - since
  {
    (now - since) % WRAP
  }

  /** It is the one number below 2^32 that takes the earlier reading to the later. */
  lemma ElapsedMeans(now: u32, since: u32)
    ensures 0 <= Elapsed(now, since) < 0x1_0000_0000
    ensures (since + Elapsed(now, since)) % 0x1_0000_0000 == now
  {
  }

  /** 256 to the power n. */
  function Pow256(n: nat): (p: nat)
    ensures p > 0
  {
    if n == 0 then 1 else 256 * Pow256(n - 1)
  }

  /** The n low bytes of v, least significant first. */
  function ToLittleEndian(v: nat, n: nat): (bytes: seq<u8>)
    ensures |bytes| == n
  {
    if n == 0 then [] else [v % 256] + ToLittleEndian(v / 256, n - 1)
  }

  function FromLittleEndian(bytes: seq<u8>): (v: nat)
    ensures v < Pow256(|bytes|)
  {
    if |bytes| == 0 then 0
    else
      var rest := FromLittleEndian(bytes[1..]);
      assert 256 * rest + 255 < 256 * Pow256(|bytes| - 1);
      bytes[0] + 256 * rest
  }

  lemma {:induction false} LittleEndianRoundTrip(v: nat, n: nat)
    requires v < Pow256(n)
    ensures FromLittleEndian(ToLittleEndian(v, n)) == v
  {
    if n > 0 {
      var bytes := ToLittleEndian(v, n);
      assert v / 256 < Pow256(n - 1) by {
        assert 256 * (v / 256) <= v < 256 * Pow256(n - 1);
      }
      LittleEndianRoundTrip(v / 256, n - 1);
      assert bytes[1..] == ToLittleEndian(v / 256, n - 1);
    }
  }

  lemma {:induction false} LittleEndianCanonical(bytes: seq<u8>)
    ensures ToLittleEndian(FromLittleEndian(bytes), |bytes|) == bytes
  {
    if |bytes| > 0 {
      LittleEndianCanonical(bytes[1..]);
      var rest := FromLittleEndian(bytes[1..]);
      assert (bytes[0] + 256 * rest) / 256 == rest && (bytes[0] + 256 * rest) % 256 == bytes[0];
      assert bytes == [bytes[0]] + bytes[1..];
    }
  }

  lemma Pow256Values()
    ensures Pow256(2) == 0x1_0000 && Pow256(4) == 0x1_0000_0000 && Pow256(8) == 0x1_0000_0000_0000_0000
  {
    assert Pow256(3) == 0x100_0000;
    assert Pow256(6) == 0x1_0000_0000_0000;
  }

  lemma FourByteValue(bytes: seq<u8>)
    requires |bytes| == 4
    ensures FromLittleEndian(bytes)
            == (bytes[0] as int) + 0x100 * (bytes[1] as int) + 0x1_0000 * (bytes[2] as int) + 0x100_0000 * (bytes[3] as int)
  {
    var b3, b2, b1 := bytes[3..], bytes[2..], bytes[1..];
    assert b3[1..] == [] && b2[1..] == b3 && b1[1..] == b2;
    assert FromLittleEndian(b3) == bytes[3];
    assert FromLittleEndian(b2) == (bytes[2] as int) + 256 * FromLittleEndian(b3);
    assert FromLittleEndian(b1) == (bytes[1] as int) + 256 * FromLittleEndian(b2);
  }
}
