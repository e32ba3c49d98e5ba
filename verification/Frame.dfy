/** The broadcast frame: a nine-byte header and a payload, with the light-pulse and
    config-write payloads. */
module Frame {
  import opened Bytes

  const MAGIC: u8 := 0x4E
  const PROTOCOL_VERSION: u8 := 4
  const HEADER_SIZE: nat := 9
  const HOP_OFFSET: nat := 6
  const MAX_HOPS: u8 := 3
  const MAX_FRAME: nat := 250

  const HEARTBEAT: u8 := 0x00
  const LIGHT_PULSE: u8 := 0x03
  const REPEATER_HEARTBEAT: u8 := 0x0D
  const UID_ANNOUNCE: u8 := 0x0E
  const CONFIG_WRITE: u8 := 0x0F
  const CONFIG_ACK: u8 := 0x10

  predicate KnownType(raw: u8) {
    raw == 0x00 || raw == 0x03 || 0x06 <= raw <= 0x10 || raw == 0xFF
  }

  datatype Header = Header(source: u16, sequence: u8, hops: u8, messageType: u8, payloadLen: u8)

  datatype Failure = BufferTooShort | InvalidMagic | InvalidProtocolVersion | InvalidMessageType | PayloadLenMismatch

  datatype Result<+T> = Ok(value: T) | Fail(reason: Failure)

  function HeaderBytes(h: Header): (bytes: seq<u8>)
    ensures |bytes| == HEADER_SIZE
  {
    [MAGIC, MAGIC, PROTOCOL_VERSION, h.source % 256, h.source / 256, h.sequence, h.hops, h.messageType, h.payloadLen]
  }

  function DecodeHeader(buf: seq<u8>): (r: Result<Header>)
    ensures r.Ok? ==> HEADER_SIZE + r.value.payloadLen <= |buf|
  {
    if |buf| < HEADER_SIZE then Fail(BufferTooShort)
    else if buf[0] != MAGIC || buf[1] != MAGIC then Fail(InvalidMagic)
    else if buf[2] != PROTOCOL_VERSION then Fail(InvalidProtocolVersion)
    else if !KnownType(buf[7]) then Fail(InvalidMessageType)
    else if HEADER_SIZE + buf[8] > |buf| then Fail(BufferTooShort)
    else Ok(Header((buf[3] as int) + 256 * (buf[4] as int), buf[5], buf[6], buf[7], buf[8]))
  }

  /** The payload of a decoded frame; bytes behind it are not looked at. */
  function PayloadOf(buf: seq<u8>, h: Header): (p: seq<u8>)
    requires HEADER_SIZE + h.payloadLen <= |buf|
    ensures |p| == h.payloadLen
  {
    buf[HEADER_SIZE..HEADER_SIZE + h.payloadLen]
  }

  /** The message types in use: heartbeat, pulse, washes, texts and bitmaps, telemetry, the
      configuration channel and the extension slot. 1, 2, 4 and 5 are reserved. */
  const TYPES: set<int> := {0x00, 0x03, 0x06, 0x07, 0x08, 0x09, 0x0A, 0x0B, 0x0C, 0x0D, 0x0E, 0x0F, 0x10, 0xFF}

  /** Arbitrary bytes are a header exactly when they are long enough, start with NN and version 4,
      name a type in use and hold their payload; each failure names the first check that fails, and
      the fields are read from their places, the source low byte first. */
  lemma HeaderFromBytes(buf: seq<u8>)
    ensures var r := DecodeHeader(buf);
            && (r == Fail(InvalidMagic) <==> |buf| >= 9 && !(buf[0] == 0x4E && buf[1] == 0x4E))
            && (r == Fail(InvalidProtocolVersion) <==> |buf| >= 9 && buf[0] == 0x4E && buf[1] == 0x4E && buf[2] != 4)
            && (r == Fail(InvalidMessageType)
                <==> |buf| >= 9 && buf[0] == 0x4E && buf[1] == 0x4E && buf[2] == 4 && buf[7] !in TYPES)
            && (r.Ok? <==> |buf| >= 9 && buf[0] == 0x4E && buf[1] == 0x4E && buf[2] == 4 && buf[7] in TYPES
                           && 9 + buf[8] <= |buf|)
            && (r.Fail? ==> r.reason != PayloadLenMismatch)
            && (r.Ok? ==> r.value == Header((buf[3] as int) + 256 * (buf[4] as int), buf[5], buf[6], buf[7], buf[8]))
  {
  }

  lemma SixteenBits(v: u16)
    ensures v % 256 + 256 * (v / 256) == v && v / 256 < 256
  {
  }

  /** A header written for a payload is read back from any buffer that starts with both. */
  lemma HeaderRoundTrip(h: Header, payload: seq<u8>, junk: seq<u8>)
    requires h.messageType in TYPES && |payload| == h.payloadLen
    ensures DecodeHeader(HeaderBytes(h) + payload + junk) == Ok(h)
    ensures PayloadOf(HeaderBytes(h) + payload + junk, h) == payload
  {
    SixteenBits(h.source);
  }

  /** A buffer that decodes starts with exactly the bytes its header would be written as. */
  lemma HeaderIsCanonical(buf: seq<u8>)
    requires DecodeHeader(buf).Ok?
    ensures var h := DecodeHeader(buf).value;
            h.messageType in TYPES && buf[..9] == HeaderBytes(h)
  {
    var h := DecodeHeader(buf).value;
    assert h.source % 256 == buf[3] && h.source / 256 == buf[4];
  }

  /** Rewriting the hop byte changes the hop count of what is decoded and nothing else. */
  lemma HopRewrite(buf: seq<u8>, hops: u8)
    requires |buf| >= 9
    ensures var r, r' := DecodeHeader(buf), DecodeHeader(buf[6 := hops]);
            && r.Fail? == r'.Fail?
            && (r.Fail? ==> r' == r)
            && (r.Ok? ==> r'.value == r.value.(hops := hops)
                          && PayloadOf(buf[6 := hops], r'.value) == PayloadOf(buf, r.value))
  {
  }

  method SetHopCount(buf: array<u8>, len: nat, hops: u8)
    requires len <= buf.Length
    modifies buf
    ensures buf[..] == if len < HEADER_SIZE then old(buf[..]) else old(buf[..])[HOP_OFFSET := hops]
  {
    if len < HEADER_SIZE {
      return;
    }
    buf[HOP_OFFSET] := hops;
  }

  // ---------------------------------------------------------------------------
  // Light pulse
  // ---------------------------------------------------------------------------

  const PULSE_LEN: nat := 13

  datatype Pulse = Pulse(targetClass: u8, targetGroup: u16, r: u8, g: u8, b: u8,
                         attack: u8, sustain: u8, release: u8, chance: u8,
                         ledMode: u8, modifier1: u8, modifier2: u8)

  function PulseBytes(p: Pulse): (bytes: seq<u8>)
    ensures |bytes| == PULSE_LEN
  {
    [p.targetClass, p.targetGroup % 256, p.targetGroup / 256, p.r, p.g, p.b, p.attack, p.sustain, p.release, p.chance,
     p.ledMode, p.modifier1, p.modifier2]
  }

  function DecodePulse(h: Header, payload: seq<u8>): (r: Result<Pulse>) {
    if h.messageType != LIGHT_PULSE then Fail(InvalidMessageType)
    else if h.payloadLen != PULSE_LEN || |payload| != PULSE_LEN then Fail(PayloadLenMismatch)
    else Ok(Pulse(payload[0], (payload[1] as int) + 256 * (payload[2] as int), payload[3], payload[4], payload[5],
                  payload[6], payload[7], payload[8], payload[9], payload[10], payload[11], payload[12]))
  }

  /** The two directions of the pulse codec. */
  lemma PulseRoundTrip(h: Header, p: Pulse)
    requires h.messageType == 0x03 && h.payloadLen == 13
    ensures DecodePulse(h, PulseBytes(p)) == Ok(p)
  {
    SixteenBits(p.targetGroup);
  }

  lemma PulseIsCanonical(h: Header, payload: seq<u8>)
    requires DecodePulse(h, payload).Ok?
    ensures PulseBytes(DecodePulse(h, payload).value) == payload
  {
    var p := DecodePulse(h, payload).value;
    assert p.targetGroup % 256 == payload[1] && p.targetGroup / 256 == payload[2];
  }

  // ---------------------------------------------------------------------------
  // Config write
  // ---------------------------------------------------------------------------

  const MAC_LEN: nat := 8
  const MAX_BAG: nat := 220
  const FIXED_OVERHEAD: nat := 21

  type Eight = s: seq<u8> | |s| == 8 witness [0, 0, 0, 0, 0, 0, 0, 0]

  datatype ConfigWrite = ConfigWrite(target: u32, numonce: Eight, bag: seq<u8>, mac: Eight)

  function ConfigPayload(w: ConfigWrite): (bytes: seq<u8>)
    requires |w.bag| <= MAX_BAG
    ensures |bytes| == FIXED_OVERHEAD + |w.bag|
  {
    ToLittleEndian(w.target, 4) + w.numonce + [|w.bag|] + w.bag + w.mac
  }

  function DecodeConfigWrite(h: Header, payload: seq<u8>): (r: Result<ConfigWrite>)
    ensures r.Ok? ==> |r.value.bag| <= MAX_BAG && |payload| == FIXED_OVERHEAD + |r.value.bag|
  {
    if h.messageType != CONFIG_WRITE then Fail(InvalidMessageType)
    else if h.payloadLen != |payload| then Fail(PayloadLenMismatch)
    else if |payload| < FIXED_OVERHEAD || |payload| > FIXED_OVERHEAD + MAX_BAG then Fail(PayloadLenMismatch)
    else if payload[12] > MAX_BAG then Fail(PayloadLenMismatch)
    else if |payload| != FIXED_OVERHEAD + payload[12] then Fail(PayloadLenMismatch)
    else
      Pow256Values();
      var n := 13 + payload[12];
      Ok(ConfigWrite(FromLittleEndian(payload[..4]), payload[4..12], payload[13..n], payload[n..n + MAC_LEN]))
  }

  /** Arbitrary payload bytes are a config write exactly when the header says so and bytes 0 to 3 can
      be the address, 4 to 11 the number, 12 the bag's length, at most 220, and the bag and eight bytes
      of code fill the rest. */
  lemma ConfigWriteFromBytes(h: Header, p: seq<u8>)
    ensures var r := DecodeConfigWrite(h, p);
            && (r.Ok? <==> h.messageType == 0x0F && h.payloadLen == |p| && |p| >= 21 && p[12] <= 220 && |p| == 21 + p[12])
            && (r == Fail(InvalidMessageType) <==> h.messageType != 0x0F)
            && (r.Fail? ==> r.reason == InvalidMessageType || r.reason == PayloadLenMismatch)
            && (r.Ok? ==> r.value.target == FromLittleEndian(p[..4]) && r.value.numonce == p[4..12]
                          && r.value.bag == p[13..13 + p[12]] && r.value.mac == p[13 + p[12]..])
  {
    hide FromLittleEndian;
  }

  lemma ConfigWriteRoundTrip(h: Header, w: ConfigWrite)
    requires |w.bag| <= 220 && h.messageType == 0x0F && h.payloadLen == 21 + |w.bag|
    ensures DecodeConfigWrite(h, ConfigPayload(w)) == Ok(w)
  {
    var payload := ConfigPayload(w);
    hide ToLittleEndian, FromLittleEndian, Pow256;
    Pow256Values();
    LittleEndianRoundTrip(w.target, 4);
    var n := 13 + |w.bag|;
    assert payload[12] == |w.bag|;
    assert payload[..4] == ToLittleEndian(w.target, 4);
    assert payload[4..12] == w.numonce;
    assert payload[13..n] == w.bag;
    assert payload[n..n + MAC_LEN] == w.mac;
  }

  lemma ConfigWriteIsCanonical(h: Header, payload: seq<u8>)
    requires DecodeConfigWrite(h, payload).Ok?
    ensures ConfigPayload(DecodeConfigWrite(h, payload).value) == payload
  {
    var w := DecodeConfigWrite(h, payload).value;
    var n := 13 + |w.bag|;
    LittleEndianCanonical(payload[..4]);
    hide ToLittleEndian, FromLittleEndian;
    assert payload == payload[..4] + payload[4..12] + [payload[12]] + payload[13..n] + payload[n..];
    assert payload[n..] == payload[n..n + MAC_LEN];
  }

  function ConfigHeader(source: u16, sequence: u8, hops: u8, bagLen: nat): (h: Header)
    requires bagLen <= MAX_BAG
  {
    Header(source, sequence, hops, CONFIG_WRITE, FIXED_OVERHEAD + bagLen)
  }

  /** A write with its bag cut to what a frame can carry. */
  function Clipped(w: ConfigWrite): (c: ConfigWrite)
    ensures |c.bag| <= MAX_BAG && |c.bag| <= |w.bag| && c.bag == w.bag[..|c.bag|]
    ensures |w.bag| <= MAX_BAG ==> c == w
  {
    if |w.bag| <= MAX_BAG then w else w.(bag := w.bag[..MAX_BAG])
  }

  /** Write the frame into a caller buffer, or write nothing if it does not fit. A bag longer than a
      frame can carry goes out cut short. */
  method EncodeConfigWrite(buf: array<u8>, h: Header, w: ConfigWrite) returns (n: nat)
    requires |w.bag| < 0x100
    modifies buf
    ensures var size := HEADER_SIZE + FIXED_OVERHEAD + |Clipped(w).bag|; n == if buf.Length < size then 0 else size
    ensures n == 0 ==> buf[..] == old(buf[..])
    ensures n > 0 ==> buf[..n] == HeaderBytes(ConfigHeader(h.source, h.sequence, h.hops, |Clipped(w).bag|)) + ConfigPayload(Clipped(w))
    ensures n > 0 ==> buf[n..] == old(buf[n..])
  {
    var bagLen := if |w.bag| > MAX_BAG then MAX_BAG else |w.bag|;
    n := HEADER_SIZE + FIXED_OVERHEAD + bagLen;
    assert bagLen == |Clipped(w).bag|;
    if buf.Length < n {
      return 0;
    }
    hide ToLittleEndian, Clipped;
    var header, payload := HeaderBytes(ConfigHeader(h.source, h.sequence, h.hops, bagLen)), ConfigPayload(Clipped(w));
    CopyInto(buf, 0, header);
    CopyInto(buf, HEADER_SIZE, payload);
    assert buf[..n] == buf[..HEADER_SIZE] + buf[HEADER_SIZE..n];
  }

  /** Copy bytes into a buffer at an offset. */
  method CopyInto(buf: array<u8>, at: nat, bytes: seq<u8>)
    requires at + |bytes| <= buf.Length
    modifies buf
    ensures buf[at..at + |bytes|] == bytes
    ensures buf[..at] == old(buf[..at]) && buf[at + |bytes|..] == old(buf[at + |bytes|..])
  {
    for i := 0 to |bytes|
      invariant buf[at..at + i] == bytes[..i]
      invariant buf[..at] == old(buf[..at]) && buf[at + i..] == old(buf[at + i..])
    {
      ghost var before := buf[..];
      buf[at + i] := bytes[i];
      assert buf[..] == before[at + i := bytes[i]];
      assert before[at + i..] == old(buf[at + i..]);
      assert buf[at..at + i + 1] == buf[at..at + i] + [bytes[i]] && buf[at..at + i] == before[at..at + i];
      assert bytes[..i + 1] == bytes[..i] + [bytes[i]];
      assert buf[at + i + 1..] == before[at + i..][1..];
      assert old(buf[at + i + 1..]) == old(buf[at + i..])[1..];
    }
    assert bytes[..|bytes|] == bytes;
  }
}
