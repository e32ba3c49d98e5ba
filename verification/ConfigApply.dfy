/** Applying property-bag entries to the persisted settings, and the read-edit-write cycle of the
    light-node editor. */
module ConfigApply {
  import opened Bytes
  import opened Tlv

  // ---------------------------------------------------------------------------
  // Keys
  // ---------------------------------------------------------------------------

  datatype Role = Director | Lume

  datatype Name =
    | Group | LedPower | ChannelPref | StripChain | StripGroupSize | DirSidPerf | RetxCount | PairWin | FriendlyName

  function Ascii(s: string): (bytes: seq<u8>)
    ensures |bytes| == |s|
    ensures forall i :: 0 <= i < |s| ==> bytes[i] == s[i] as int % 256
  {
    seq(|s|, i requires 0 <= i < |s| => s[i] as int % 256)
  }

  function Spelling(n: Name): (s: string) {
    match n
    case Group => "group"
    case LedPower => "led_power"
    case ChannelPref => "channel_pref"
    case StripChain => "strip_chain"
    case StripGroupSize => "strip_group_size"
    case DirSidPerf => "dir_sid_perf"
    case RetxCount => "retx_count"
    case PairWin => "pair_win_s"
    case FriendlyName => "friendly_name"
  }

  function KeyOf(n: Name): (key: seq<u8>) {
    Ascii(Spelling(n))
  }

  /** A C string's content in a byte buffer: what precedes the first NUL. */
  function CutAtNul(s: seq<u8>): (r: seq<u8>)
    ensures |r| <= |s| && r == s[..|r|] && CString(r)
    ensures |r| < |s| ==> s[|r|] == 0
    ensures CString(s) ==> r == s
  {
    if |s| == 0 || s[0] == 0 then [] else [s[0]] + CutAtNul(s[1..])
  }

  /** A key as strcmp sees it after the copy into a 32-byte buffer. */
  function Compared(key: seq<u8>): (r: seq<u8>) {
    CutAtNul(if |key| < 31 then key else key[..31])
  }

  /** The known key an entry's key compares equal to. */
  function Recognise(key: seq<u8>): (r: Option<Name>) {
    var k := Compared(key);
    if k == KeyOf(Group) then Some(Group)
    else if k == KeyOf(LedPower) then Some(LedPower)
    else if k == KeyOf(ChannelPref) then Some(ChannelPref)
    else if k == KeyOf(StripChain) then Some(StripChain)
    else if k == KeyOf(StripGroupSize) then Some(StripGroupSize)
    else if k == KeyOf(DirSidPerf) then Some(DirSidPerf)
    else if k == KeyOf(RetxCount) then Some(RetxCount)
    else if k == KeyOf(PairWin) then Some(PairWin)
    else if k == KeyOf(FriendlyName) then Some(FriendlyName)
    else None
  }

  function Head(n: Name): (h: (nat, int)) {
    (|Spelling(n)|, Spelling(n)[0] as int)
  }

  /** Length and first letter tell the known keys apart. */
  lemma KeysDiffer(m: Name, n: Name)
    ensures m != n ==> KeyOf(m) != KeyOf(n)
    ensures 0 < |KeyOf(n)| < 31 && CString(KeyOf(n))
  {
    KeyHead(m);
    KeyHead(n);
    KeyIsCString(n);
    hide KeyOf;
  }

  lemma KeyHead(n: Name)
    ensures |KeyOf(n)| == Head(n).0 && 0 < Head(n).0 < 31 && KeyOf(n)[0] == Head(n).1
    ensures Head(n) == match n
                       case Group => (5, 103)
                       case LedPower => (9, 108)
                       case ChannelPref => (12, 99)
                       case StripChain => (11, 115)
                       case StripGroupSize => (16, 115)
                       case DirSidPerf => (12, 100)
                       case RetxCount => (10, 114)
                       case PairWin => (10, 112)
                       case FriendlyName => (13, 102)
  {
  }

  lemma KeyIsCString(n: Name)
    ensures CString(KeyOf(n))
  {
    forall i | 0 <= i < |KeyOf(n)| ensures KeyOf(n)[i] != 0 {
      LetterAt(n, i);
    }
  }

  lemma LetterAt(n: Name, i: nat)
    requires i < |Spelling(n)|
    ensures 0 < Spelling(n)[i] as int < 256
  {
  }

  /** The spelled keys are recognised as themselves. */
  lemma RecogniseSpelled(n: Name)
    ensures Recognise(KeyOf(n)) == Some(n)
  {
    hide KeyOf;
    KeysDiffer(n, n);
    assert Compared(KeyOf(n)) == KeyOf(n);
    RecogniseSome(KeyOf(n), n);
    KeysDiffer(Recognise(KeyOf(n)).value, n);
  }

  /** A key that compares equal to some known key is recognised as one it compares equal to. */
  lemma RecogniseSome(key: seq<u8>, n: Name)
    requires Compared(key) == KeyOf(n)
    ensures Recognise(key).Some? && Compared(key) == KeyOf(Recognise(key).value)
  {
    hide KeyOf, Compared;
  }

  // ---------------------------------------------------------------------------
  // Settings
  // ---------------------------------------------------------------------------

  const NAME_MAX: nat := 20
  const DEFAULT_CHAIN: u16 := 29
  const MAX_CHAIN: u16 := 288

  datatype Settings = Settings(
    group: u8, ledPower: u8, channel: u8, chain: u16, groupSize: u8,
    dirPerf: u8, retx: u8, pairWin: u8, name: seq<u8>)

  /** What the save functions guarantee of the stored values. */
  predicate InRange(s: Settings) {
    && s.ledPower <= 100
    && (s.channel == 0 || s.channel == 1 || s.channel == 6 || s.channel == 11)
    && 1 <= s.chain <= MAX_CHAIN
    && s.groupSize >= 1
    && 0x40 <= s.dirPerf <= 0xFE
    && 1 <= s.retx <= 5
    && s.pairWin >= 5
    && |s.name| <= NAME_MAX && CString(s.name)
  }

  datatype Value = Number(n: u16) | Text(s: seq<u8>)

  function Get(s: Settings, n: Name): (v: Value) {
    match n
    case Group => Number(s.group)
    case LedPower => Number(s.ledPower)
    case ChannelPref => Number(s.channel)
    case StripChain => Number(s.chain)
    case StripGroupSize => Number(s.groupSize)
    case DirSidPerf => Number(s.dirPerf)
    case RetxCount => Number(s.retx)
    case PairWin => Number(s.pairWin)
    case FriendlyName => Text(s.name)
  }

  function Clamp(v: int, low: int, high: int): (r: int) {
    if v < low then low else if v > high then high else v
  }

  /** What a byte stores under a one-byte setting. */
  function OfferedByte(n: Name, b: u8): (v: Option<Value>) {
    match n
    case Group => Some(Number(b))
    case LedPower => Some(Number(Clamp(b, 0, 100)))
    case ChannelPref => Some(Number(if b == 1 || b == 6 || b == 11 then b else 0))
    case StripGroupSize => Some(Number(Clamp(b, 1, 255)))
    case DirSidPerf => if 0x40 <= b <= 0xFE then Some(Number(b)) else None
    case RetxCount => Some(Number(Clamp(b, 1, 5)))
    case PairWin => Some(Number(Clamp(b, 5, 255)))
    case StripChain => None
    case FriendlyName => None
  }

  /** The value an entry would store under a name, or nothing if it is ill-typed or out of range.
      Numbers are brought into range by the save functions; only the source id is refused. */
  function Offered(n: Name, e: Entry): (v: Option<Value>) {
    if n.StripChain? then
      if e.vtype == U16 && |e.value| == 2 then
        var chain := (e.value[0] as int) + 256 * (e.value[1] as int);
        Some(Number(if chain == 0 then DEFAULT_CHAIN else Clamp(chain, 1, MAX_CHAIN)))
      else None
    else if n.FriendlyName? then
      if e.vtype == Utf8 then Some(Text(CutAtNul(if |e.value| < NAME_MAX then e.value else e.value[..NAME_MAX])))
      else None
    else if e.vtype == U8 && |e.value| == 1 then OfferedByte(n, e.value[0])
    else None
  }

  /** A value of the right shape for a name. */
  predicate Storable(n: Name, v: Value) {
    if n.FriendlyName? then v.Text? else v.Number? && (n.StripChain? || v.n < 256)
  }

  function Put(s: Settings, n: Name, v: Value): (s': Settings)
    requires Storable(n, v)
  {
    match n
    case Group => s.(group := v.n)
    case LedPower => s.(ledPower := v.n)
    case ChannelPref => s.(channel := v.n)
    case StripChain => s.(chain := v.n)
    case StripGroupSize => s.(groupSize := v.n)
    case DirSidPerf => s.(dirPerf := v.n)
    case RetxCount => s.(retx := v.n)
    case PairWin => s.(pairWin := v.n)
    case FriendlyName => s.(name := v.s)
  }

  lemma OfferedIsStorable(n: Name, e: Entry)
    ensures Offered(n, e).Some? ==> Storable(n, Offered(n, e).value)
  {
  }

  lemma GetPut(s: Settings, m: Name, n: Name, v: Value)
    requires Storable(m, v)
    ensures Get(Put(s, m, v), n) == if m == n then v else Get(s, n)
  {
  }

  lemma SameSettings(a: Settings, b: Settings)
    requires forall n :: Get(a, n) == Get(b, n)
    ensures a == b
  {
    assert Get(a, Group) == Get(b, Group) && Get(a, LedPower) == Get(b, LedPower);
    assert Get(a, ChannelPref) == Get(b, ChannelPref) && Get(a, StripChain) == Get(b, StripChain);
    assert Get(a, StripGroupSize) == Get(b, StripGroupSize) && Get(a, DirSidPerf) == Get(b, DirSidPerf);
    assert Get(a, RetxCount) == Get(b, RetxCount) && Get(a, PairWin) == Get(b, PairWin);
    assert Get(a, FriendlyName) == Get(b, FriendlyName);
  }

  // ---------------------------------------------------------------------------
  // Applying entries
  // ---------------------------------------------------------------------------

  predicate Owns(role: Role, n: Name) {
    match n
    case DirSidPerf => role == Director
    case RetxCount => role == Director
    case PairWin => true
    case FriendlyName => true
    case _ => role == Lume
  }

  datatype Ctx = Ctx(settings: Settings, outOfRange: bool)

  /** The setting of a device's role that an entry addresses. */
  function Addressed(role: Role, e: Entry): (n: Option<Name>) {
    var r := Recognise(e.key);
    if r.Some? && Owns(role, r.value) then r else None
  }

  /** The decoder's callback. */
  function Apply(role: Role, e: Entry, ctx: Ctx): (r: (bool, Ctx)) {
    match Addressed(role, e)
    case None => (true, ctx)
    case Some(n) =>
      match Offered(n, e)
      case None => (true, ctx.(outOfRange := true))
      case Some(v) =>
        OfferedIsStorable(n, e);
        (true, ctx.(settings := Put(ctx.settings, n, v)))
  }

  function Applier(role: Role): (cb: (Entry, Ctx) -> (bool, Ctx)) {
    (e: Entry, ctx: Ctx) => Apply(role, e, ctx)
  }

  function ApplyAll(role: Role, es: seq<Entry>, ctx: Ctx): (ctx': Ctx) {
    Deliver(es, Applier(role), ctx).1
  }

  lemma {:induction false} ApplyAllDelivers(role: Role, es: seq<Entry>, ctx: Ctx)
    ensures Deliver(es, Applier(role), ctx) == (true, ApplyAll(role, es, ctx))
  {
    if |es| > 0 {
      ApplyAllDelivers(role, es[1..], Apply(role, es[0], ctx).1);
    }
  }

  lemma ApplyAllSnoc(role: Role, es: seq<Entry>, e: Entry, ctx: Ctx)
    ensures ApplyAll(role, es + [e], ctx) == Apply(role, e, ApplyAll(role, es, ctx)).1
  {
    hide Apply, Deliver;
    ApplyAllDelivers(role, es, ctx);
    DeliverConcat(es, [e], Applier(role), ctx);
    assert [e] == [e] + [];
    DeliverStep(e, [], Applier(role), ApplyAll(role, es, ctx));
    DeliverNone(Applier(role), Apply(role, e, ApplyAll(role, es, ctx)).1);
  }

  lemma ApplyAllNone(role: Role, ctx: Ctx)
    ensures ApplyAll(role, [], ctx) == ctx
  {
  }

  /** What an entry stores under a name on a device of a role, if anything. */
  function Stores(role: Role, e: Entry, n: Name): (v: Option<Value>) {
    if Addressed(role, e) == Some(n) then Offered(n, e) else None
  }

  predicate Refuses(role: Role, e: Entry) {
    Addressed(role, e).Some? && Offered(Addressed(role, e).value, e).None?
  }

  /** The last value that the entries store under a name, or the old one. */
  function LastStored(role: Role, es: seq<Entry>, n: Name, otherwise: Value): (v: Value) {
    if |es| == 0 then otherwise
    else if Stores(role, es[|es| - 1], n).Some? then Stores(role, es[|es| - 1], n).value
    else LastStored(role, es[..|es| - 1], n, otherwise)
  }

  lemma ApplyOne(role: Role, e: Entry, ctx: Ctx, n: Name)
    ensures Get(Apply(role, e, ctx).1.settings, n)
            == if Stores(role, e, n).Some? then Stores(role, e, n).value else Get(ctx.settings, n)
    ensures Apply(role, e, ctx).1.outOfRange == (ctx.outOfRange || Refuses(role, e))
  {
    hide Get, Put, Offered, Owns;
    if Addressed(role, e).Some? {
      var m := Addressed(role, e).value;
      OfferedIsStorable(m, e);
      if Offered(m, e).Some? {
        GetPut(ctx.settings, m, n, Offered(m, e).value);
      }
    }
  }

  /** Applying a bag is a last-valid-writer fold, and the range flag is raised exactly when some
      recognised entry was refused. */
  lemma {:induction false} LastWriterWins(role: Role, es: seq<Entry>, ctx: Ctx, n: Name)
    ensures Get(ApplyAll(role, es, ctx).settings, n) == LastStored(role, es, n, Get(ctx.settings, n))
    ensures ApplyAll(role, es, ctx).outOfRange
            <==> ctx.outOfRange || exists i :: 0 <= i < |es| && Refuses(role, es[i])
  {
    hide ApplyAll, Apply, Get, Stores, Refuses;
    if |es| == 0 {
      ApplyAllNone(role, ctx);
      assert es == [];
    } else {
      var front, last := es[..|es| - 1], es[|es| - 1];
      LastWriterWins(role, front, ctx, n);
      ApplyAllSnoc(role, front, last, ctx);
      assert front + [last] == es;
      ApplyOne(role, last, ApplyAll(role, front, ctx), n);
      assert forall i :: 0 <= i < |front| ==> es[i] == front[i];
    }
  }

  /** An entry whose key compares equal to none of the role's own keys changes nothing. */
  lemma ForeignIsIgnored(role: Role, e: Entry, ctx: Ctx)
    requires forall n :: Owns(role, n) ==> Compared(e.key) != KeyOf(n)
    ensures Apply(role, e, ctx) == (true, ctx)
  {
    hide KeyOf, Compared, Recognise, Owns;
    MatchesAll(e.key);
  }

  /** Entries that address different settings commute. */
  lemma DistinctKeysCommute(role: Role, a: Entry, b: Entry, ctx: Ctx)
    requires Recognise(a.key) != Recognise(b.key)
    ensures Apply(role, b, Apply(role, a, ctx).1) == Apply(role, a, Apply(role, b, ctx).1)
  {
    hide Apply, Get, Offered, Recognise;
    var ab, ba := Apply(role, b, Apply(role, a, ctx).1), Apply(role, a, Apply(role, b, ctx).1);
    forall n ensures Get(ab.1.settings, n) == Get(ba.1.settings, n) {
      ApplyOne(role, a, ctx, n);
      ApplyOne(role, b, ctx, n);
      ApplyOne(role, b, Apply(role, a, ctx).1, n);
      ApplyOne(role, a, Apply(role, b, ctx).1, n);
    }
    SameSettings(ab.1.settings, ba.1.settings);
    ApplyOne(role, a, ctx, Group);
    ApplyOne(role, b, ctx, Group);
    ApplyOne(role, b, Apply(role, a, ctx).1, Group);
    ApplyOne(role, a, Apply(role, b, ctx).1, Group);
    NeverRefusesMore(role, b, Apply(role, a, ctx).1);
    NeverRefusesMore(role, a, Apply(role, b, ctx).1);
  }

  lemma NeverRefusesMore(role: Role, e: Entry, ctx: Ctx)
    ensures Apply(role, e, ctx).0
  {
  }

  /** No entry can bring a setting out of range. */
  lemma RangeIsKept(role: Role, e: Entry, ctx: Ctx)
    requires InRange(ctx.settings)
    ensures InRange(Apply(role, e, ctx).1.settings)
  {
    hide Addressed;
    if Addressed(role, e).Some? {
      OfferedInRange(Addressed(role, e).value, e, ctx.settings);
    }
  }

  lemma OfferedInRange(n: Name, e: Entry, s: Settings)
    requires InRange(s)
    ensures var v := Offered(n, e);
            v.Some? ==> Storable(n, v.value) && InRange(Put(s, n, v.value))
  {
  }

  // ---------------------------------------------------------------------------
  // Reading back and writing again
  // ---------------------------------------------------------------------------

  function ByteEntry(n: Name, v: u8): (e: Entry) {
    U8Entry(KeyOf(n), v)
  }

  function NameEntries(name: seq<u8>): (es: seq<Entry>) {
    if |name| > 0 then [Entry(KeyOf(FriendlyName), Utf8, name)] else []
  }

  /** The bag a light node serves: every setting, and the name if there is one. */
  function LumeEntries(s: Settings): (es: seq<Entry>) {
    [ByteEntry(Group, s.group), ByteEntry(LedPower, s.ledPower), ByteEntry(ChannelPref, s.channel),
     U16Entry(KeyOf(StripChain), s.chain), ByteEntry(StripGroupSize, s.groupSize), ByteEntry(PairWin, s.pairWin)]
    + NameEntries(s.name)
  }

  function DirectorEntries(s: Settings): (es: seq<Entry>) {
    [ByteEntry(DirSidPerf, s.dirPerf), ByteEntry(RetxCount, s.retx), ByteEntry(PairWin, s.pairWin)]
    + NameEntries(s.name)
  }

  function RoleEntries(role: Role, s: Settings): (es: seq<Entry>) {
    if role == Director then DirectorEntries(s) else LumeEntries(s)
  }

  /** The editor's record of a light node's settings. */
  datatype Current = Current(
    group: u8, ledPower: u8, channel: u8, chain: u16, groupSize: u8, pairWin: u8, name: seq<u8>, hasName: bool)

  const BLANK: Current := Current(0, 0, 0, 0, 0, 0, [], false)

  /** The editor's callback. The name it keeps is the raw bytes, cut only in length. */
  function Populate(e: Entry, cur: Current): (r: (bool, Current)) {
    var isByte := e.vtype == U8 && |e.value| == 1;
    match Recognise(e.key)
    case None => (true, cur)
    case Some(n) =>
      if n.StripChain? then
        (true, if e.vtype == U16 && |e.value| == 2 then cur.(chain := (e.value[0] as int) + 256 * (e.value[1] as int)) else cur)
      else if n.FriendlyName? then
        (true,
         if e.vtype == Utf8 && |e.value| > 0
         then cur.(name := if |e.value| < NAME_MAX then e.value else e.value[..NAME_MAX], hasName := true) else cur)
      else if !isByte then (true, cur)
      else
        (true, match n
               case Group => cur.(group := e.value[0])
               case LedPower => cur.(ledPower := e.value[0])
               case ChannelPref => cur.(channel := e.value[0])
               case StripGroupSize => cur.(groupSize := e.value[0])
               case PairWin => cur.(pairWin := e.value[0])
               case DirSidPerf => cur
               case RetxCount => cur
               case StripChain => cur
               case FriendlyName => cur)
  }

  function Populator(): (cb: (Entry, Current) -> (bool, Current)) {
    (e: Entry, cur: Current) => Populate(e, cur)
  }

  /** The record that stands for a light node's settings in the editor. */
  function CurrentOf(s: Settings): (cur: Current) {
    Current(s.group, s.ledPower, s.channel, s.chain, s.groupSize, s.pairWin, s.name, |s.name| > 0)
  }

  /** The bag the editor writes. */
  function EditorEntries(cur: Current): (es: seq<Entry>) {
    [ByteEntry(Group, cur.group), ByteEntry(LedPower, cur.ledPower), ByteEntry(ChannelPref, cur.channel),
     U16Entry(KeyOf(StripChain), cur.chain), ByteEntry(StripGroupSize, cur.groupSize), ByteEntry(PairWin, cur.pairWin)]
    + (if cur.hasName then [Entry(KeyOf(FriendlyName), Utf8, CutAtNul(cur.name))] else [])
  }

  /** Largest bag the entries of one device can make. */
  const LARGEST_BAG: nat := 125

  lemma ByteEntrySize(n: Name, v: u8)
    ensures Encodable(ByteEntry(n, v)) && EntrySize(ByteEntry(n, v)) == Head(n).0 + 4
  {
    KeysDiffer(n, n);
    KeyHead(n);
  }

  lemma ChainEntrySize(v: u16)
    ensures Encodable(U16Entry(KeyOf(StripChain), v)) && EntrySize(U16Entry(KeyOf(StripChain), v)) == 16
  {
    KeyHead(StripChain);
  }

  lemma NameEntrySize(name: seq<u8>)
    requires |name| <= NAME_MAX
    ensures var e := Entry(KeyOf(FriendlyName), Utf8, name);
            Encodable(e) && EntrySize(e) == 16 + |name|
  {
    KeyHead(FriendlyName);
  }

  /** The size of a bag is one more than its entries' sizes. */
  function TotalSize(es: seq<Entry>): (n: nat) {
    if |es| == 0 then 0 else TotalSize(es[1..]) + EntrySize(es[0])
  }

  lemma {:induction false} BodySize(es: seq<Entry>)
    requires AllEncodable(es)
    ensures |Body(es)| == TotalSize(es)
  {
    hide EntrySize, Encodable;
    if |es| == 0 {
      BodyOfEmpty();
    } else {
      BodySize(es[1..]);
      assert [es[0]] + es[1..] == es;
      BodyOfCons(es[0], es[1..]);
    }
  }

  lemma TotalSizeCons(e: Entry, es: seq<Entry>)
    ensures TotalSize([e] + es) == EntrySize(e) + TotalSize(es)
  {
    assert ([e] + es)[1..] == es;
  }

  lemma NameSize(name: seq<u8>)
    requires |name| <= NAME_MAX
    ensures AllEncodable(NameEntries(name)) && TotalSize(NameEntries(name)) <= if |name| > 0 then 36 else 0
  {
    if |name| > 0 {
      NameEntrySize(name);
      TotalSizeCons(Entry(KeyOf(FriendlyName), Utf8, name), []);
      assert [Entry(KeyOf(FriendlyName), Utf8, name)] + [] == NameEntries(name);
    }
  }

  lemma PutFront(e: Entry, es: seq<Entry>, size: nat)
    requires Encodable(e) && AllEncodable(es) && TotalSize(es) <= size
    ensures AllEncodable([e] + es) && TotalSize([e] + es) <= size + EntrySize(e)
  {
    hide EntrySize, Encodable;
    TotalSizeCons(e, es);
  }

  lemma LumeEntriesSize(s: Settings)
    requires |s.name| <= NAME_MAX
    ensures AllEncodable(LumeEntries(s)) && TotalSize(LumeEntries(s)) <= LARGEST_BAG - 1 - (if |s.name| > 0 then 0 else 36)
  {
    hide NameEntries, EntrySize, Encodable, KeyOf, ByteEntry, U16Entry, TotalSize, AllEncodable, Head;
    NameSize(s.name);
    var e1, e2, e3 := ByteEntry(Group, s.group), ByteEntry(LedPower, s.ledPower), ByteEntry(ChannelPref, s.channel);
    var e4 := U16Entry(KeyOf(StripChain), s.chain);
    var e5, e6 := ByteEntry(StripGroupSize, s.groupSize), ByteEntry(PairWin, s.pairWin);
    ByteEntrySize(Group, s.group);
    ByteEntrySize(LedPower, s.ledPower);
    ByteEntrySize(ChannelPref, s.channel);
    ChainEntrySize(s.chain);
    ByteEntrySize(StripGroupSize, s.groupSize);
    ByteEntrySize(PairWin, s.pairWin);
    KeyHead(Group);
    KeyHead(LedPower);
    KeyHead(ChannelPref);
    KeyHead(StripGroupSize);
    KeyHead(PairWin);
    var names, n := NameEntries(s.name), if |s.name| > 0 then 36 else 0;
    PutFront(e6, names, n);
    PutFront(e5, [e6] + names, n + 14);
    PutFront(e4, [e5] + ([e6] + names), n + 34);
    PutFront(e3, [e4] + ([e5] + ([e6] + names)), n + 50);
    PutFront(e2, [e3] + ([e4] + ([e5] + ([e6] + names))), n + 66);
    PutFront(e1, [e2] + ([e3] + ([e4] + ([e5] + ([e6] + names)))), n + 79);
    assert LumeEntries(s) == [e1] + ([e2] + ([e3] + ([e4] + ([e5] + ([e6] + names)))));
  }

  lemma DirectorEntriesSize(s: Settings)
    requires |s.name| <= NAME_MAX
    ensures AllEncodable(DirectorEntries(s)) && TotalSize(DirectorEntries(s)) <= LARGEST_BAG - 1
  {
    NameSize(s.name);
    var e1, e2, e3 := ByteEntry(DirSidPerf, s.dirPerf), ByteEntry(RetxCount, s.retx), ByteEntry(PairWin, s.pairWin);
    ByteEntrySize(DirSidPerf, s.dirPerf);
    ByteEntrySize(RetxCount, s.retx);
    ByteEntrySize(PairWin, s.pairWin);
    KeyHead(DirSidPerf);
    KeyHead(RetxCount);
    KeyHead(PairWin);
    hide NameEntries, EntrySize, Encodable, KeyOf, ByteEntry, TotalSize, AllEncodable, Head;
    var names := NameEntries(s.name);
    PutFront(e3, names, 36);
    PutFront(e2, [e3] + names, 50);
    PutFront(e1, [e2] + ([e3] + names), 64);
    assert DirectorEntries(s) == [e1] + ([e2] + ([e3] + names));
  }

  /** Neither role's bag can outgrow its 240-byte buffer: 125 bytes always suffice. */
  lemma EntriesFit(role: Role, s: Settings)
    requires |s.name| <= 20
    ensures var es := RoleEntries(role, s);
            AllEncodable(es) && |es| <= 7 && |Bag(es)| <= 125 < 240
  {
    hide KeyOf, TotalSize, AllEncodable;
    DirectorEntriesSize(s);
    LumeEntriesSize(s);
    BodySize(RoleEntries(role, s));
  }

  // ---------------------------------------------------------------------------
  // The cycle
  // ---------------------------------------------------------------------------

  /** One entry of a light node's own bag puts back the value the node already has. */
  lemma OwnByteIsNeutral(n: Name, v: u8, ctx: Ctx)
    requires InRange(ctx.settings) && Owns(Lume, n) && Get(ctx.settings, n) == Number(v)
    requires !n.StripChain? && !n.FriendlyName?
    ensures Apply(Lume, ByteEntry(n, v), ctx) == (true, ctx)
  {
    RecogniseSpelled(n);
    var e := ByteEntry(n, v);
    hide Recognise, KeyOf;
    assert Addressed(Lume, e) == Some(n);
    assert Offered(n, e) == Some(Number(v));
    SameByte(n, v, ctx.settings);
  }

  lemma SameByte(n: Name, v: u8, s: Settings)
    requires Storable(n, Number(v)) && Get(s, n) == Number(v)
    ensures Put(s, n, Number(v)) == s
  {
  }

  lemma OwnChainIsNeutral(ctx: Ctx)
    requires InRange(ctx.settings)
    ensures Apply(Lume, U16Entry(KeyOf(StripChain), ctx.settings.chain), ctx) == (true, ctx)
  {
    RecogniseSpelled(StripChain);
    var v := ctx.settings.chain;
    var e := U16Entry(KeyOf(StripChain), v);
    hide Recognise, KeyOf;
    assert (e.value[0] as int) + 256 * (e.value[1] as int) == v;
    assert Offered(StripChain, e) == Some(Number(v));
  }

  lemma OwnNameIsNeutral(ctx: Ctx)
    requires InRange(ctx.settings)
    ensures Apply(Lume, Entry(KeyOf(FriendlyName), Utf8, ctx.settings.name), ctx) == (true, ctx)
  {
    hide Recognise, KeyOf;
    RecogniseSpelled(FriendlyName);
    var name := ctx.settings.name;
    NameOffered(Entry(KeyOf(FriendlyName), Utf8, name));
    hide Offered;
    assert ctx.settings.(name := name) == ctx.settings;
  }

  lemma NameOffered(e: Entry)
    requires e.vtype == Utf8 && |e.value| <= NAME_MAX && CString(e.value)
    ensures Offered(FriendlyName, e) == Some(Text(e.value))
  {
    assert e.value[..|e.value|] == e.value;
  }

  lemma DeliverTwo<C>(e: Entry, es: seq<Entry>, cb: (Entry, C) -> (bool, C), ctx: C, ctx': C)
    requires cb(e, ctx) == (true, ctx')
    ensures Deliver([e] + es, cb, ctx) == Deliver(es, cb, ctx')
  {
    DeliverStep(e, es, cb, ctx);
  }

  lemma NeutralFirst(e: Entry, es: seq<Entry>, ctx: Ctx)
    requires Apply(Lume, e, ctx) == (true, ctx)
    ensures ApplyAll(Lume, [e] + es, ctx) == ApplyAll(Lume, es, ctx)
  {
    hide Apply, Deliver;
    DeliverTwo(e, es, Applier(Lume), ctx, ctx);
  }

  lemma OwnNamesAreNeutral(ctx: Ctx)
    requires InRange(ctx.settings)
    ensures ApplyAll(Lume, NameEntries(ctx.settings.name), ctx) == ctx
  {
    OwnNameIsNeutral(ctx);
    hide Apply, ApplyAll, KeyOf, InRange;
    ApplyAllNone(Lume, ctx);
    var name := ctx.settings.name;
    if |name| > 0 {
      var e := Entry(KeyOf(FriendlyName), Utf8, name);
      assert NameEntries(name) == [e] + [];
      NeutralFirst(e, [], ctx);
    }
  }

  /** Applying a light node's own bag to it changes nothing and refuses nothing. */
  lemma OwnBagIsNeutral(s: Settings)
    requires InRange(s)
    ensures ApplyAll(Lume, LumeEntries(s), Ctx(s, false)) == Ctx(s, false)
  {
    hide Apply, ApplyAll, KeyOf, ByteEntry, U16Entry, NameEntries, InRange;
    var ctx := Ctx(s, false);
    var e1, e2, e3 := ByteEntry(Group, s.group), ByteEntry(LedPower, s.ledPower), ByteEntry(ChannelPref, s.channel);
    var e4 := U16Entry(KeyOf(StripChain), s.chain);
    var e5, e6 := ByteEntry(StripGroupSize, s.groupSize), ByteEntry(PairWin, s.pairWin);
    var names := NameEntries(s.name);
    OwnByteIsNeutral(Group, s.group, ctx);
    OwnByteIsNeutral(LedPower, s.ledPower, ctx);
    OwnByteIsNeutral(ChannelPref, s.channel, ctx);
    OwnChainIsNeutral(ctx);
    OwnByteIsNeutral(StripGroupSize, s.groupSize, ctx);
    OwnByteIsNeutral(PairWin, s.pairWin, ctx);
    OwnNamesAreNeutral(ctx);
    NeutralFirst(e6, names, ctx);
    NeutralFirst(e5, [e6] + names, ctx);
    NeutralFirst(e4, [e5] + ([e6] + names), ctx);
    NeutralFirst(e3, [e4] + ([e5] + ([e6] + names)), ctx);
    NeutralFirst(e2, [e3] + ([e4] + ([e5] + ([e6] + names))), ctx);
    NeutralFirst(e1, [e2] + ([e3] + ([e4] + ([e5] + ([e6] + names)))), ctx);
    assert LumeEntries(s) == [e1] + ([e2] + ([e3] + ([e4] + ([e5] + ([e6] + names)))));
  }

  lemma PopulateByte(n: Name, v: u8, cur: Current)
    ensures Populate(ByteEntry(n, v), cur)
            == (true, match n
                      case Group => cur.(group := v)
                      case LedPower => cur.(ledPower := v)
                      case ChannelPref => cur.(channel := v)
                      case StripGroupSize => cur.(groupSize := v)
                      case PairWin => cur.(pairWin := v)
                      case _ => cur)
  {
    RecogniseSpelled(n);
    hide Recognise, KeyOf;
  }

  lemma PopulateChain(v: u16, cur: Current)
    ensures Populate(U16Entry(KeyOf(StripChain), v), cur) == (true, cur.(chain := v))
  {
    RecogniseSpelled(StripChain);
    hide Recognise, KeyOf;
  }

  lemma PopulateName(name: seq<u8>, cur: Current)
    requires 0 < |name| <= NAME_MAX
    ensures Populate(Entry(KeyOf(FriendlyName), Utf8, name), cur) == (true, cur.(name := name, hasName := true))
  {
    RecogniseSpelled(FriendlyName);
    hide Recognise, KeyOf;
    assert name[..|name|] == name;
  }

  /** Reading a light node's bag back recovers its record. */
  lemma ReadBackDelivers(s: Settings)
    requires |s.name| <= NAME_MAX
    ensures Deliver(LumeEntries(s), Populator(), BLANK) == (true, CurrentOf(s))
  {
    var cb := Populator();
    var e1, e2, e3 := ByteEntry(Group, s.group), ByteEntry(LedPower, s.ledPower), ByteEntry(ChannelPref, s.channel);
    var e4 := U16Entry(KeyOf(StripChain), s.chain);
    var e5, e6 := ByteEntry(StripGroupSize, s.groupSize), ByteEntry(PairWin, s.pairWin);
    var names := NameEntries(s.name);
    var c0 := BLANK;
    var c1 := c0.(group := s.group);
    var c2 := c1.(ledPower := s.ledPower);
    var c3 := c2.(channel := s.channel);
    var c4 := c3.(chain := s.chain);
    var c5 := c4.(groupSize := s.groupSize);
    var c6 := c5.(pairWin := s.pairWin);
    PopulateByte(Group, s.group, c0);
    PopulateByte(LedPower, s.ledPower, c1);
    PopulateByte(ChannelPref, s.channel, c2);
    PopulateChain(s.chain, c3);
    PopulateByte(StripGroupSize, s.groupSize, c4);
    PopulateByte(PairWin, s.pairWin, c5);
    hide Populate, Deliver, KeyOf, ByteEntry, U16Entry;
    assert Deliver(names, cb, c6) == (true, CurrentOf(s)) by {
      if |s.name| > 0 {
        var e := Entry(KeyOf(FriendlyName), Utf8, s.name);
        PopulateName(s.name, c6);
        assert names == [e] + [];
        DeliverNone(cb, CurrentOf(s));
        DeliverTwo(e, [], cb, c6, CurrentOf(s));
      } else {
        DeliverNone(cb, c6);
      }
    }
    hide NameEntries;
    DeliverTwo(e6, names, cb, c5, c6);
    DeliverTwo(e5, [e6] + names, cb, c4, c5);
    DeliverTwo(e4, [e5] + ([e6] + names), cb, c3, c4);
    DeliverTwo(e3, [e4] + ([e5] + ([e6] + names)), cb, c2, c3);
    DeliverTwo(e2, [e3] + ([e4] + ([e5] + ([e6] + names))), cb, c1, c2);
    DeliverTwo(e1, [e2] + ([e3] + ([e4] + ([e5] + ([e6] + names)))), cb, c0, c1);
    assert LumeEntries(s) == [e1] + ([e2] + ([e3] + ([e4] + ([e5] + ([e6] + names)))));
  }

  /** Serialising a light node's settings and populating the editor from those bytes recovers the
      record, whatever else is in the buffer. */
  lemma ReadBack(s: Settings, junk: seq<u8>)
    requires |s.name| <= 20
    ensures AllEncodable(LumeEntries(s))
    ensures Deliver(Decode(Bag(LumeEntries(s)) + junk).delivered, Populator(), BLANK) == (true, CurrentOf(s))
  {
    hide LumeEntries, Deliver, Decode;
    EntriesFit(Lume, s);
    ReadBackDelivers(s);
    DecodeInvertsBag(LumeEntries(s), junk);
  }

  /** Writing the record back unedited writes the same bag, and applying it on the light node
      leaves every setting as it was and refuses nothing. */
  lemma UneditedCycle(s: Settings)
    requires InRange(s)
    ensures EditorEntries(CurrentOf(s)) == LumeEntries(s)
    ensures ApplyAll(Lume, EditorEntries(CurrentOf(s)), Ctx(s, false)) == Ctx(s, false)
  {
    OwnBagIsNeutral(s);
    hide ApplyAll, KeyOf;
  }

  // ---------------------------------------------------------------------------
  // Serving and restoring
  // ---------------------------------------------------------------------------

  /** t with the settings that a role keeps taken from s; a nameless s leaves the name alone. */
  function Restored(role: Role, s: Settings, t: Settings): (r: Settings) {
    var named := if |s.name| > 0 then t.(name := s.name, pairWin := s.pairWin) else t.(pairWin := s.pairWin);
    if role == Director then named.(dirPerf := s.dirPerf, retx := s.retx)
    else named.(group := s.group, ledPower := s.ledPower, channel := s.channel, chain := s.chain, groupSize := s.groupSize)
  }

  lemma ByteRestores(role: Role, n: Name, v: u8, ctx: Ctx, t: Settings)
    requires Owns(role, n) && !n.StripChain? && !n.FriendlyName? && OfferedByte(n, v) == Some(Number(v))
    requires Storable(n, Number(v)) && t == Put(ctx.settings, n, Number(v))
    ensures Apply(role, ByteEntry(n, v), ctx) == (true, Ctx(t, ctx.outOfRange))
  {
    RecogniseSpelled(n);
    hide Recognise, KeyOf, Put;
    assert Offered(n, ByteEntry(n, v)) == Some(Number(v));
  }

  lemma ChainRestores(v: u16, ctx: Ctx)
    requires 1 <= v <= MAX_CHAIN
    ensures Apply(Lume, U16Entry(KeyOf(StripChain), v), ctx) == (true, ctx.(settings := ctx.settings.(chain := v)))
  {
    RecogniseSpelled(StripChain);
    var e := U16Entry(KeyOf(StripChain), v);
    hide Recognise, KeyOf;
    assert (e.value[0] as int) + 256 * (e.value[1] as int) == v;
  }

  lemma NamesRestore(role: Role, name: seq<u8>, ctx: Ctx)
    requires |name| <= NAME_MAX && CString(name)
    ensures ApplyAll(role, NameEntries(name), ctx)
            == if |name| > 0 then ctx.(settings := ctx.settings.(name := name)) else ctx
  {
    RecogniseSpelled(FriendlyName);
    hide Recognise, KeyOf;
    var e := Entry(KeyOf(FriendlyName), Utf8, name);
    NameOffered(e);
    hide Offered;
    if |name| > 0 {
      assert NameEntries(name) == [e] + [];
      var ctx' := Apply(role, e, ctx).1;
      hide Apply;
      ApplyFirst(role, e, [], ctx, ctx');
      ApplyAllNone(role, ctx');
    } else {
      ApplyAllNone(role, ctx);
    }
  }

  lemma ApplyFirst(role: Role, e: Entry, es: seq<Entry>, ctx: Ctx, ctx': Ctx)
    requires Apply(role, e, ctx) == (true, ctx')
    ensures ApplyAll(role, [e] + es, ctx) == ApplyAll(role, es, ctx')
  {
    hide Apply, Deliver;
    DeliverTwo(e, es, Applier(role), ctx, ctx');
  }

  lemma GroupRestores(v: u8, ctx: Ctx)
    ensures Apply(Lume, ByteEntry(Group, v), ctx) == (true, ctx.(settings := ctx.settings.(group := v)))
  {
    ByteRestores(Lume, Group, v, ctx, ctx.settings.(group := v));
  }

  lemma LedPowerRestores(v: u8, ctx: Ctx)
    requires v <= 100
    ensures Apply(Lume, ByteEntry(LedPower, v), ctx) == (true, ctx.(settings := ctx.settings.(ledPower := v)))
  {
    ByteRestores(Lume, LedPower, v, ctx, ctx.settings.(ledPower := v));
  }

  lemma ChannelRestores(v: u8, ctx: Ctx)
    requires v == 0 || v == 1 || v == 6 || v == 11
    ensures Apply(Lume, ByteEntry(ChannelPref, v), ctx) == (true, ctx.(settings := ctx.settings.(channel := v)))
  {
    ByteRestores(Lume, ChannelPref, v, ctx, ctx.settings.(channel := v));
  }

  lemma GroupSizeRestores(v: u8, ctx: Ctx)
    requires v >= 1
    ensures Apply(Lume, ByteEntry(StripGroupSize, v), ctx) == (true, ctx.(settings := ctx.settings.(groupSize := v)))
  {
    ByteRestores(Lume, StripGroupSize, v, ctx, ctx.settings.(groupSize := v));
  }

  lemma SourceIdRestores(v: u8, ctx: Ctx)
    requires 0x40 <= v <= 0xFE
    ensures Apply(Director, ByteEntry(DirSidPerf, v), ctx) == (true, ctx.(settings := ctx.settings.(dirPerf := v)))
  {
    ByteRestores(Director, DirSidPerf, v, ctx, ctx.settings.(dirPerf := v));
  }

  lemma RetxRestores(v: u8, ctx: Ctx)
    requires 1 <= v <= 5
    ensures Apply(Director, ByteEntry(RetxCount, v), ctx) == (true, ctx.(settings := ctx.settings.(retx := v)))
  {
    ByteRestores(Director, RetxCount, v, ctx, ctx.settings.(retx := v));
  }

  lemma PairWinRestores(role: Role, v: u8, ctx: Ctx)
    requires v >= 5
    ensures Apply(role, ByteEntry(PairWin, v), ctx) == (true, ctx.(settings := ctx.settings.(pairWin := v)))
  {
    ByteRestores(role, PairWin, v, ctx, ctx.settings.(pairWin := v));
  }

  lemma DirectorRestores(s: Settings, t: Settings)
    requires InRange(s)
    ensures ApplyAll(Director, DirectorEntries(s), Ctx(t, false)) == Ctx(Restored(Director, s, t), false)
  {
    hide Apply, ApplyAll, KeyOf, ByteEntry, NameEntries;
    var e1, e2, e3 := ByteEntry(DirSidPerf, s.dirPerf), ByteEntry(RetxCount, s.retx), ByteEntry(PairWin, s.pairWin);
    var names := NameEntries(s.name);
    var c0 := Ctx(t, false);
    var c1 := Ctx(t.(dirPerf := s.dirPerf), false);
    var c2 := Ctx(c1.settings.(retx := s.retx), false);
    var c3 := Ctx(c2.settings.(pairWin := s.pairWin), false);
    SourceIdRestores(s.dirPerf, c0);
    RetxRestores(s.retx, c1);
    PairWinRestores(Director, s.pairWin, c2);
    NamesRestore(Director, s.name, c3);
    ApplyFirst(Director, e3, names, c2, c3);
    ApplyFirst(Director, e2, [e3] + names, c1, c2);
    ApplyFirst(Director, e1, [e2] + ([e3] + names), c0, c1);
    assert DirectorEntries(s) == [e1] + ([e2] + ([e3] + names));
  }

  /** The three entries behind a light node's chain length. */
  lemma LumeBackRestores(s: Settings, ctx: Ctx)
    requires InRange(s) && !ctx.outOfRange
    ensures var back := [ByteEntry(StripGroupSize, s.groupSize)] + ([ByteEntry(PairWin, s.pairWin)] + NameEntries(s.name));
            var t := ctx.settings.(groupSize := s.groupSize, pairWin := s.pairWin);
            ApplyAll(Lume, back, ctx) == Ctx(if |s.name| > 0 then t.(name := s.name) else t, false)
  {
    hide Apply, ApplyAll, KeyOf, ByteEntry, NameEntries;
    var e5, e6, names := ByteEntry(StripGroupSize, s.groupSize), ByteEntry(PairWin, s.pairWin), NameEntries(s.name);
    var c1 := Ctx(ctx.settings.(groupSize := s.groupSize), false);
    var c2 := Ctx(c1.settings.(pairWin := s.pairWin), false);
    GroupSizeRestores(s.groupSize, ctx);
    PairWinRestores(Lume, s.pairWin, c1);
    NamesRestore(Lume, s.name, c2);
    ApplyFirst(Lume, e6, names, c1, c2);
    ApplyFirst(Lume, e5, [e6] + names, ctx, c1);
  }

  lemma LumeRestores(s: Settings, t: Settings)
    requires InRange(s)
    ensures ApplyAll(Lume, LumeEntries(s), Ctx(t, false)) == Ctx(Restored(Lume, s, t), false)
  {
    hide Apply, ApplyAll, KeyOf, ByteEntry, U16Entry, NameEntries;
    var e1, e2, e3 := ByteEntry(Group, s.group), ByteEntry(LedPower, s.ledPower), ByteEntry(ChannelPref, s.channel);
    var e4 := U16Entry(KeyOf(StripChain), s.chain);
    var back := [ByteEntry(StripGroupSize, s.groupSize)] + ([ByteEntry(PairWin, s.pairWin)] + NameEntries(s.name));
    var c0 := Ctx(t, false);
    var c1 := Ctx(t.(group := s.group), false);
    var c2 := Ctx(c1.settings.(ledPower := s.ledPower), false);
    var c3 := Ctx(c2.settings.(channel := s.channel), false);
    var c4 := Ctx(c3.settings.(chain := s.chain), false);
    GroupRestores(s.group, c0);
    LedPowerRestores(s.ledPower, c1);
    ChannelRestores(s.channel, c2);
    ChainRestores(s.chain, c3);
    LumeBackRestores(s, c4);
    ApplyFirst(Lume, e4, back, c3, c4);
    ApplyFirst(Lume, e3, [e4] + back, c2, c3);
    ApplyFirst(Lume, e2, [e3] + ([e4] + back), c1, c2);
    ApplyFirst(Lume, e1, [e2] + ([e3] + ([e4] + back)), c0, c1);
    LumeEntriesSplit(s);
  }

  lemma LumeEntriesSplit(s: Settings)
    ensures LumeEntries(s)
            == [ByteEntry(Group, s.group)] + ([ByteEntry(LedPower, s.ledPower)] + ([ByteEntry(ChannelPref, s.channel)]
               + ([U16Entry(KeyOf(StripChain), s.chain)]
                  + ([ByteEntry(StripGroupSize, s.groupSize)] + ([ByteEntry(PairWin, s.pairWin)] + NameEntries(s.name))))))
  {
    hide KeyOf, ByteEntry, U16Entry, NameEntries;
  }

  /** Main result: whatever the other settings, applying what a device of either role served puts back
      every setting its role keeps, refuses nothing and touches nothing else. */
  lemma ServedRestores(role: Role, s: Settings, t: Settings, junk: seq<u8>)
    requires InRange(s)
    ensures AllEncodable(RoleEntries(role, s)) && |RoleEntries(role, s)| < 0x100
    ensures var es := Decode(Bag(RoleEntries(role, s)) + junk).delivered;
            ApplyAll(role, es, Ctx(t, false)) == Ctx(Restored(role, s, t), false)
  {
    NameInRange(s);
    EntriesFit(role, s);
    hide ApplyAll, Decode, Bag, LumeEntries, DirectorEntries, Restored, InRange;
    DirectorRestores(s, t);
    LumeRestores(s, t);
    DecodeInvertsBag(RoleEntries(role, s), junk);
  }

  lemma NameInRange(s: Settings)
    requires InRange(s)
    ensures |s.name| <= NAME_MAX && CString(s.name)
  {
  }

  /** What a one-byte entry under each of its keys stores, on the device that keeps it. */
  lemma DirectorByteStores(b: u8, ctx: Ctx)
    ensures Apply(Director, U8Entry(Ascii("dir_sid_perf"), b), ctx).1
            == if 0x40 <= b <= 0xFE then ctx.(settings := ctx.settings.(dirPerf := b)) else ctx.(outOfRange := true)
    ensures Apply(Director, U8Entry(Ascii("retx_count"), b), ctx).1
            == ctx.(settings := ctx.settings.(retx := if b < 1 then 1 else if b > 5 then 5 else b))
    ensures Apply(Director, U8Entry(Ascii("pair_win_s"), b), ctx).1
            == ctx.(settings := ctx.settings.(pairWin := if b < 5 then 5 else b))
  {
    Spellings();
    hide Apply, Ascii, Spelling;
    ByteOffer(Director, DirSidPerf, b, ctx);
    ByteOffer(Director, RetxCount, b, ctx);
    ByteOffer(Director, PairWin, b, ctx);
  }

  lemma LumeByteStores(b: u8, ctx: Ctx)
    ensures Apply(Lume, U8Entry(Ascii("group"), b), ctx).1 == ctx.(settings := ctx.settings.(group := b))
    ensures Apply(Lume, U8Entry(Ascii("led_power"), b), ctx).1
            == ctx.(settings := ctx.settings.(ledPower := if b > 100 then 100 else b))
    ensures Apply(Lume, U8Entry(Ascii("channel_pref"), b), ctx).1
            == ctx.(settings := ctx.settings.(channel := if b == 1 || b == 6 || b == 11 then b else 0))
    ensures Apply(Lume, U8Entry(Ascii("strip_group_size"), b), ctx).1
            == ctx.(settings := ctx.settings.(groupSize := if b == 0 then 1 else b))
    ensures Apply(Lume, U8Entry(Ascii("pair_win_s"), b), ctx).1
            == ctx.(settings := ctx.settings.(pairWin := if b < 5 then 5 else b))
  {
    Spellings();
    hide Apply, Ascii, Spelling;
    ByteOffer(Lume, Group, b, ctx);
    ByteOffer(Lume, LedPower, b, ctx);
    ByteOffer(Lume, ChannelPref, b, ctx);
    ByteOffer(Lume, StripGroupSize, b, ctx);
    ByteOffer(Lume, PairWin, b, ctx);
  }

  lemma ByteOffer(role: Role, n: Name, b: u8, ctx: Ctx)
    requires Owns(role, n) && !n.StripChain? && !n.FriendlyName?
    ensures OfferedByte(n, b).Some? ==> Storable(n, OfferedByte(n, b).value)
    ensures Apply(role, U8Entry(Ascii(Spelling(n)), b), ctx).1
            == if OfferedByte(n, b).Some? then ctx.(settings := Put(ctx.settings, n, OfferedByte(n, b).value))
               else ctx.(outOfRange := true)
  {
    RecogniseSpelled(n);
    hide Recognise;
  }

  lemma Spellings()
    ensures Spelling(Group) == "group" && Spelling(LedPower) == "led_power" && Spelling(ChannelPref) == "channel_pref"
    ensures Spelling(StripGroupSize) == "strip_group_size" && Spelling(DirSidPerf) == "dir_sid_perf"
    ensures Spelling(RetxCount) == "retx_count" && Spelling(PairWin) == "pair_win_s"
    ensures Spelling(StripChain) == "strip_chain" && Spelling(FriendlyName) == "friendly_name"
  {
  }

  /** The two settings that are not bytes. */
  lemma ChainStores(v: u16, ctx: Ctx)
    ensures Apply(Lume, Entry(Ascii("strip_chain"), U16, [v % 256, v / 256]), ctx).1
            == ctx.(settings := ctx.settings.(chain := if v == 0 then 29 else if v > 288 then 288 else v))
  {
    RecogniseSpelled(StripChain);
    Spellings();
    hide Recognise, Ascii, Spelling;
    var e := Entry(Ascii("strip_chain"), U16, [v % 256, v / 256]);
    assert (e.value[0] as int) + 256 * (e.value[1] as int) == v;
  }

  lemma NameStores(role: Role, name: seq<u8>, ctx: Ctx)
    ensures Apply(role, Entry(Ascii("friendly_name"), Utf8, name), ctx).1
            == ctx.(settings := ctx.settings.(name := CutAtNul(if |name| < 20 then name else name[..20])))
  {
    hide Apply, CutAtNul, Ascii;
    NameStored(role, Entry(Ascii("friendly_name"), Utf8, name), ctx);
  }

  lemma NameStored(role: Role, e: Entry, ctx: Ctx)
    requires e.key == Ascii("friendly_name") && e.vtype == Utf8
    ensures Apply(role, e, ctx).1
            == ctx.(settings := ctx.settings.(name := CutAtNul(if |e.value| < 20 then e.value else e.value[..20])))
  {
    hide Addressed, Offered, CutAtNul, Ascii;
    NameAddressed(role, e);
    NameOffer(e);
  }

  lemma NameAddressed(role: Role, e: Entry)
    requires e.key == Ascii("friendly_name")
    ensures Addressed(role, e) == Some(FriendlyName)
  {
    hide Recognise, Ascii, KeyOf;
    RecogniseSpelled(FriendlyName);
    KeySpelled();
  }

  lemma NameOffer(e: Entry)
    requires e.vtype == Utf8
    ensures Offered(FriendlyName, e) == Some(Text(CutAtNul(if |e.value| < 20 then e.value else e.value[..20])))
  {
  }

  lemma KeySpelled()
    ensures KeyOf(FriendlyName) == Ascii("friendly_name") && KeyOf(StripChain) == Ascii("strip_chain")
  {
    Spellings();
    hide Ascii, Spelling;
  }

  // ---------------------------------------------------------------------------
  // The stores
  // ---------------------------------------------------------------------------

  class Persistence {
    var group: u8
    var ledPower: u8
    var channel: u8
    var chain: u16
    var groupSize: u8
    var dirPerf: u8
    var retx: u8
    var pairWin: u8
    var name: seq<u8>

    ghost function Stored(): (s: Settings)
      reads this
    {
      Settings(group, ledPower, channel, chain, groupSize, dirPerf, retx, pairWin, name)
    }

    /** The one-byte saves: out-of-range values are brought into range, except a source id,
        which is dropped. */
    method SaveByte(n: Name, v: u8)
      requires !n.StripChain? && !n.FriendlyName?
      modifies this
      ensures OfferedByte(n, v).None? ==> Stored() == old(Stored())
      ensures OfferedByte(n, v).Some? ==>
                Storable(n, OfferedByte(n, v).value) && Stored() == Put(old(Stored()), n, OfferedByte(n, v).value)
    {
      match n
      case Group => group := v;
      case LedPower => ledPower := if v > 100 then 100 else v;
      case ChannelPref => channel := if v != 0 && v != 1 && v != 6 && v != 11 then 0 else v;
      case StripGroupSize => groupSize := if v == 0 then 1 else v;
      case DirSidPerf =>
        if v < 0x40 || v > 0xFE { return; }
        dirPerf := v;
      case RetxCount => retx := if v < 1 then 1 else if v > 5 then 5 else v;
      case PairWin => pairWin := if v < 5 then 5 else v;
    }

    method SaveStripChainSize(v: u16)
      modifies this`chain
      ensures chain == if v == 0 then DEFAULT_CHAIN else Clamp(v, 1, MAX_CHAIN)
    {
      var n := v;
      if n == 0 {
        n := DEFAULT_CHAIN;
      }
      if n > MAX_CHAIN {
        n := MAX_CHAIN;
      }
      chain := n;
    }

    /** Keep the characters before the terminator, at most twenty. */
    method SaveFriendlyName(text: seq<u8>)
      modifies this`name
      ensures name == CutAtNul(if |text| < NAME_MAX then text else text[..NAME_MAX])
    {
      name := [];
      var i := 0;
      ghost var clipped := if |text| < NAME_MAX then text else text[..NAME_MAX];
      while i < NAME_MAX && i < |text| && text[i] != 0
        invariant 0 <= i <= |clipped|
        invariant name == text[..i] && forall k :: 0 <= k < i ==> text[k] != 0
      {
        name := name + [text[i]];
        i := i + 1;
      }
      assert clipped[..i] == text[..i];
      CutIs(clipped, i);
    }
  }

  /** The cut of a buffer is the longest prefix without a NUL. */
  lemma {:induction false} CutIs(s: seq<u8>, i: nat)
    requires i <= |s| && (forall k :: 0 <= k < i ==> s[k] != 0) && (i < |s| ==> s[i] == 0)
    ensures CutAtNul(s) == s[..i]
  {
    if |s| > 0 && s[0] != 0 {
      CutIs(s[1..], i - 1);
      assert s[..i] == [s[0]] + s[1..][..i - 1];
    }
  }

  class ApplyCtx {
    const role: Role
    var outOfRange: bool

    constructor (role: Role)
      ensures this.role == role && !outOfRange
    {
      this.role := role;
      outOfRange := false;
    }
  }

  lemma MatchIff(key: seq<u8>, n: Name)
    ensures Compared(key) == KeyOf(n) <==> Recognise(key) == Some(n)
  {
    hide KeyOf, Compared;
    if Compared(key) == KeyOf(n) {
      RecogniseSome(key, n);
      KeysDiffer(Recognise(key).value, n);
    }
  }

  lemma MatchesAll(key: seq<u8>)
    ensures forall n :: Compared(key) == KeyOf(n) <==> Recognise(key) == Some(n)
  {
    forall n ensures Compared(key) == KeyOf(n) <==> Recognise(key) == Some(n) {
      MatchIff(key, n);
    }
  }

  method ApplyConfigEntry(e: Entry, ctx: ApplyCtx, store: Persistence) returns (more: bool)
    modifies ctx, store
    ensures var after := Apply(ctx.role, e, Ctx(old(store.Stored()), old(ctx.outOfRange)));
            more == after.0 && Ctx(store.Stored(), ctx.outOfRange) == after.1
  {
    hide KeyOf, Compared, Recognise, Offered, OfferedByte, Put;
    MatchesAll(e.key);
    var keybuf := Compared(e.key);
    if ctx.role == Director {
      if keybuf == KeyOf(DirSidPerf) {
        ApplyByte(e, DirSidPerf, ctx, store);
        return true;
      }
      if keybuf == KeyOf(RetxCount) {
        ApplyByte(e, RetxCount, ctx, store);
        return true;
      }
    } else {
      if keybuf == KeyOf(Group) {
        ApplyByte(e, Group, ctx, store);
        return true;
      }
      if keybuf == KeyOf(LedPower) {
        ApplyByte(e, LedPower, ctx, store);
        return true;
      }
      if keybuf == KeyOf(ChannelPref) {
        ApplyByte(e, ChannelPref, ctx, store);
        return true;
      }
      if keybuf == KeyOf(StripChain) {
        ApplyChain(e, ctx, store);
        return true;
      }
      if keybuf == KeyOf(StripGroupSize) {
        ApplyByte(e, StripGroupSize, ctx, store);
        return true;
      }
    }
    if keybuf == KeyOf(PairWin) {
      ApplyByte(e, PairWin, ctx, store);
      return true;
    }
    if keybuf == KeyOf(FriendlyName) {
      ApplyName(e, ctx, store);
      return true;
    }
    return true;
  }

  /** Store an entry under the setting it addresses, or raise the range flag. */
  ghost function Kept(n: Name, e: Entry, ctx: Ctx): (ctx': Ctx) {
    match Offered(n, e)
    case None => ctx.(outOfRange := true)
    case Some(v) =>
      OfferedIsStorable(n, e);
      ctx.(settings := Put(ctx.settings, n, v))
  }

  method ApplyByte(e: Entry, n: Name, ctx: ApplyCtx, store: Persistence)
    requires !n.StripChain? && !n.FriendlyName?
    modifies ctx, store
    ensures Ctx(store.Stored(), ctx.outOfRange) == Kept(n, e, Ctx(old(store.Stored()), old(ctx.outOfRange)))
  {
    if e.vtype != U8 || |e.value| != 1 {
      ctx.outOfRange := true;
      return;
    }
    var v := e.value[0];
    if n == DirSidPerf && (v < 0x40 || v > 0xFE) {
      ctx.outOfRange := true;
      return;
    }
    store.SaveByte(n, v);
  }

  method ApplyChain(e: Entry, ctx: ApplyCtx, store: Persistence)
    modifies ctx, store
    ensures Ctx(store.Stored(), ctx.outOfRange) == Kept(StripChain, e, Ctx(old(store.Stored()), old(ctx.outOfRange)))
  {
    if e.vtype != U16 || |e.value| != 2 {
      ctx.outOfRange := true;
      return;
    }
    var v := (e.value[0] as int) + 256 * (e.value[1] as int);
    store.SaveStripChainSize(v);
  }

  method ApplyName(e: Entry, ctx: ApplyCtx, store: Persistence)
    modifies ctx, store
    ensures Ctx(store.Stored(), ctx.outOfRange) == Kept(FriendlyName, e, Ctx(old(store.Stored()), old(ctx.outOfRange)))
  {
    if e.vtype != Utf8 {
      ctx.outOfRange := true;
      return;
    }
    var clipped := [];
    var n := if |e.value| < NAME_MAX then |e.value| else NAME_MAX;
    for i := 0 to n
      invariant clipped == e.value[..i]
    {
      clipped := clipped + [e.value[i]];
    }
    assert clipped[..|clipped|] == clipped;
    assert |e.value| < NAME_MAX ==> clipped == e.value;
    store.SaveFriendlyName(clipped);
  }

  // ---------------------------------------------------------------------------
  // The two encoders
  // ---------------------------------------------------------------------------

  /** The entries that go into a buffer of a given capacity, offered one by one: each is taken if
      the room left allows and skipped if not, so a short one may follow a skipped one. */
  function Taken(es: seq<Entry>, capacity: nat): (r: seq<Entry>)
    ensures |r| <= |es|
    ensures AllEncodable(es) ==> AllEncodable(r)
  {
    if |es| == 0 then []
    else
      var before, e := Taken(es[..|es| - 1], capacity), es[|es| - 1];
      if capacity > 0 && 1 + TotalSize(before) + EntrySize(e) <= capacity then before + [e] else before
  }

  lemma TotalSizeSnoc(es: seq<Entry>, e: Entry)
    ensures TotalSize(es + [e]) == TotalSize(es) + EntrySize(e)
  {
    if |es| > 0 {
      assert (es + [e])[1..] == es[1..] + [e];
      TotalSizeSnoc(es[1..], e);
    }
  }

  lemma {:induction false} TakenSnoc(es: seq<Entry>, e: Entry, capacity: nat)
    ensures Taken(es + [e], capacity)
            == if capacity > 0 && 1 + TotalSize(Taken(es, capacity)) + EntrySize(e) <= capacity
               then Taken(es, capacity) + [e] else Taken(es, capacity)
  {
    assert (es + [e])[..|es|] == es;
  }

  /** Where every entry fits, every entry is taken; where not, what is taken still fits. */
  lemma {:induction false} TakenFits(es: seq<Entry>, capacity: nat)
    ensures 1 + TotalSize(es) <= capacity <==> capacity > 0 && Taken(es, capacity) == es
    ensures capacity > 0 ==> 1 + TotalSize(Taken(es, capacity)) <= capacity
  {
    if |es| > 0 {
      var front, last := es[..|es| - 1], es[|es| - 1];
      assert front + [last] == es;
      TakenFits(front, capacity);
      TakenSnoc(front, last, capacity);
      TotalSizeSnoc(front, last);
      TotalSizeSnoc(Taken(front, capacity), last);
      hide Taken, TotalSize;
      if Taken(es, capacity) == es {
        assert Taken(front, capacity) == es[..|front|];
      }
    }
  }

  /** The extent of a bag under construction. */
  lemma BagExtent(enc: TlvEncoder)
    requires enc.Valid()
    ensures enc.buf.Length > 0 ==> enc.len == 1 + TotalSize(enc.entries)
  {
    BodySize(enc.entries);
    assert enc.buf.Length > 0 ==> |enc.buf[..enc.len]| == |Bag(enc.entries)|;
  }

  /** The encoder holds what a run of offers leaves in its buffer. */
  ghost predicate Offering(enc: TlvEncoder, es: seq<Entry>)
    reads enc, enc.buf
  {
    enc.Valid() && |es| < 0xFF && enc.entries == Taken(es, enc.buf.Length)
  }

  method AddByte(enc: TlvEncoder, n: Name, v: u8, ghost es: seq<Entry>)
    requires Offering(enc, es) && |es| < 0xFE
    modifies enc`len, enc`count, enc`entries, enc.buf
    ensures Offering(enc, es + [ByteEntry(n, v)])
  {
    KeysDiffer(n, n);
    BagExtent(enc);
    TakenSnoc(es, ByteEntry(n, v), enc.buf.Length);
    hide KeyOf, Bag, AllEncodable, Taken, TotalSize;
    var ok := enc.AddU8(KeyOf(n), v);
  }

  method AddChain(enc: TlvEncoder, v: u16, ghost es: seq<Entry>)
    requires Offering(enc, es) && |es| < 0xFE
    modifies enc`len, enc`count, enc`entries, enc.buf
    ensures Offering(enc, es + [U16Entry(KeyOf(StripChain), v)])
  {
    KeysDiffer(StripChain, StripChain);
    BagExtent(enc);
    TakenSnoc(es, U16Entry(KeyOf(StripChain), v), enc.buf.Length);
    hide KeyOf, Bag, AllEncodable, Taken, TotalSize;
    var ok := enc.AddU16(KeyOf(StripChain), v);
  }

  method AddText(enc: TlvEncoder, name: seq<u8>, ghost es: seq<Entry>)
    requires Offering(enc, es) && |es| < 0xFE && |name| <= NAME_MAX
    modifies enc`len, enc`count, enc`entries, enc.buf
    ensures Offering(enc, es + [Entry(KeyOf(FriendlyName), Utf8, name)])
  {
    KeysDiffer(FriendlyName, FriendlyName);
    BagExtent(enc);
    TakenSnoc(es, Entry(KeyOf(FriendlyName), Utf8, name), enc.buf.Length);
    hide KeyOf, Bag, AllEncodable, Taken, TotalSize;
    var ok := enc.AddUtf8(KeyOf(FriendlyName), name);
  }

  /** Offer the six numeric entries of a light node. */
  method AddLumeNumbers(enc: TlvEncoder, cur: Current)
    requires Offering(enc, [])
    modifies enc`len, enc`count, enc`entries, enc.buf
    ensures Offering(enc, EditorEntries(cur.(hasName := false)))
  {
    hide Offering, KeyOf, ByteEntry, U16Entry;
    ghost var e1, e2, e3 := ByteEntry(Group, cur.group), ByteEntry(LedPower, cur.ledPower), ByteEntry(ChannelPref, cur.channel);
    ghost var e4, e5 := U16Entry(KeyOf(StripChain), cur.chain), ByteEntry(StripGroupSize, cur.groupSize);
    AddByte(enc, Group, cur.group, []);
    AddByte(enc, LedPower, cur.ledPower, [] + [e1]);
    AddByte(enc, ChannelPref, cur.channel, [] + [e1] + [e2]);
    AddChain(enc, cur.chain, [] + [e1] + [e2] + [e3]);
    AddByte(enc, StripGroupSize, cur.groupSize, [] + [e1] + [e2] + [e3] + [e4]);
    AddByte(enc, PairWin, cur.pairWin, [] + [e1] + [e2] + [e3] + [e4] + [e5]);
    assert EditorEntries(cur.(hasName := false)) == [] + [e1] + [e2] + [e3] + [e4] + [e5] + [ByteEntry(PairWin, cur.pairWin)];
  }

  method AddDirectorNumbers(enc: TlvEncoder, s: Settings)
    requires Offering(enc, [])
    modifies enc`len, enc`count, enc`entries, enc.buf
    ensures Offering(enc, DirectorEntries(s.(name := [])))
  {
    hide Offering, KeyOf, ByteEntry;
    ghost var e1, e2 := ByteEntry(DirSidPerf, s.dirPerf), ByteEntry(RetxCount, s.retx);
    AddByte(enc, DirSidPerf, s.dirPerf, []);
    AddByte(enc, RetxCount, s.retx, [] + [e1]);
    AddByte(enc, PairWin, s.pairWin, [] + [e1] + [e2]);
    assert DirectorEntries(s.(name := [])) == [] + [e1] + [e2] + [ByteEntry(PairWin, s.pairWin)];
  }

  /** What a buffer of a capacity holds in the end: nothing if it is empty, and otherwise the bag of
      the entries taken, which is all of them exactly when they fit. */
  lemma TakenBag(es: seq<Entry>, capacity: nat)
    requires AllEncodable(es) && |es| < 0x100
    ensures capacity > 0 ==> |Bag(Taken(es, capacity))| <= capacity
    ensures |Bag(es)| <= capacity <==> capacity > 0 && Taken(es, capacity) == es
  {
    TakenFits(es, capacity);
    BodySize(es);
    BodySize(Taken(es, capacity));
  }

  /** Serialise the settings of a role into a buffer of any size: each entry in turn that fits. */
  method SerialiseConfigBag(buf: array<u8>, role: Role, s: Settings) returns (n: nat)
    requires |s.name| <= NAME_MAX
    modifies buf
    ensures AllEncodable(RoleEntries(role, s)) && n <= buf.Length
    ensures |Taken(RoleEntries(role, s), buf.Length)| <= 7
    ensures buf.Length > 0 ==> buf[..n] == Bag(Taken(RoleEntries(role, s), buf.Length))
    ensures buf.Length >= 125 ==> n <= 125 && buf[..n] == Bag(RoleEntries(role, s))
    ensures buf.Length >= 125 && InRange(s) ==>
              forall t: Settings :: ApplyAll(role, Decode(buf[..n]).delivered, Ctx(t, false)) == Ctx(Restored(role, s, t), false)
  {
    EntriesFit(role, s);
    TakenBag(RoleEntries(role, s), buf.Length);
    var enc := new TlvEncoder(buf);
    FillBag(enc, role, s);
    hide InRange, Restored, ApplyAll, Decode, RoleEntries, Bag, AllEncodable, Taken;
    assert enc.entries == Taken(RoleEntries(role, s), buf.Length);
    n := enc.len;
    if buf.Length >= 125 && InRange(s) {
      ServedRestoresAll(role, s);
    }
  }

  /** Offer a role's entries in turn. */
  method FillBag(enc: TlvEncoder, role: Role, s: Settings)
    requires Offering(enc, []) && |s.name| <= NAME_MAX
    modifies enc`len, enc`count, enc`entries, enc.buf
    ensures Offering(enc, RoleEntries(role, s))
  {
    hide Offering, KeyOf, ByteEntry, U16Entry;
    if role == Director {
      AddDirectorNumbers(enc, s);
    } else {
      AddLumeNumbers(enc, CurrentOf(s));
    }
    ghost var numbers := RoleEntries(role, s.(name := []));
    assert |numbers| <= 6;
    assert RoleEntries(role, s) == numbers + NameEntries(s.name);
    if |s.name| > 0 {
      AddText(enc, s.name, numbers);
    }
  }

  lemma ServedRestoresAll(role: Role, s: Settings)
    requires InRange(s)
    ensures AllEncodable(RoleEntries(role, s)) && |RoleEntries(role, s)| < 0x100
    ensures var es := Decode(Bag(RoleEntries(role, s))).delivered;
            forall t: Settings :: ApplyAll(role, es, Ctx(t, false)) == Ctx(Restored(role, s, t), false)
  {
    hide InRange, Restored, ApplyAll, Decode, Bag, RoleEntries;
    ServedRestores(role, s, s, []);
    var bag := Bag(RoleEntries(role, s));
    assert bag + [] == bag;
    forall t: Settings ensures ApplyAll(role, Decode(bag).delivered, Ctx(t, false)) == Ctx(Restored(role, s, t), false) {
      ServedRestores(role, s, t, []);
    }
  }

  lemma SnocFits(es: seq<Entry>, e: Entry)
    requires AllEncodable(es) && Encodable(e)
    ensures AllEncodable(es + [e]) && TotalSize(es + [e]) == TotalSize(es) + EntrySize(e)
  {
    TotalSizeSnoc(es, e);
  }

  lemma EditorEntriesFit(cur: Current)
    requires |cur.name| <= NAME_MAX
    ensures AllEncodable(EditorEntries(cur)) && |EditorEntries(cur)| <= 7 && |Bag(EditorEntries(cur))| <= LARGEST_BAG
  {
    var s := Settings(cur.group, cur.ledPower, cur.channel, cur.chain, cur.groupSize, 0, 0, cur.pairWin, []);
    var name := CutAtNul(cur.name);
    EntriesFit(Lume, s);
    LumeEntriesSize(s);
    NameEntrySize(name);
    var e := Entry(KeyOf(FriendlyName), Utf8, name);
    hide KeyOf, TotalSize, AllEncodable, Encodable, ByteEntry, U16Entry, EntrySize;
    assert EditorEntries(cur) == LumeEntries(s) + (if cur.hasName then [e] else []);
    if cur.hasName {
      SnocFits(LumeEntries(s), e);
    }
    BodySize(EditorEntries(cur));
  }

  /** The editor's full-set write: each entry in turn that fits, and in its 240-byte buffer all. */
  method WriteRecord(buf: array<u8>, cur: Current) returns (n: nat)
    requires |cur.name| <= NAME_MAX
    modifies buf
    ensures AllEncodable(EditorEntries(cur)) && |EditorEntries(cur)| < 0x100 && n <= buf.Length
    ensures |Taken(EditorEntries(cur), buf.Length)| < 0x100
    ensures buf.Length > 0 ==> buf[..n] == Bag(Taken(EditorEntries(cur), buf.Length))
    ensures buf.Length >= LARGEST_BAG ==> n <= LARGEST_BAG && buf[..n] == Bag(EditorEntries(cur))
  {
    EditorEntriesFit(cur);
    TakenBag(EditorEntries(cur), buf.Length);
    var enc := new TlvEncoder(buf);
    AddLumeNumbers(enc, cur);
    ghost var numbers := EditorEntries(cur.(hasName := false));
    assert EditorEntries(cur) == if cur.hasName then numbers + [Entry(KeyOf(FriendlyName), Utf8, CutAtNul(cur.name))] else numbers;
    assert |numbers| == 6;
    hide KeyOf, Bag, AllEncodable, ByteEntry, U16Entry, Taken, EditorEntries, CutAtNul;
    if cur.hasName {
      AddText(enc, CutAtNul(cur.name), numbers);
    }
    assert enc.entries == Taken(EditorEntries(cur), buf.Length);
    n := enc.len;
  }

  /** The editor's copy, filled in entry by entry. */
  class LumeCurrent {
    var group: u8
    var ledPower: u8
    var channel: u8
    var chain: u16
    var groupSize: u8
    var pairWin: u8
    var name: seq<u8>
    var hasName: bool

    ghost function Record(): (cur: Current)
      reads this
    {
      Current(group, ledPower, channel, chain, groupSize, pairWin, name, hasName)
    }

    constructor ()
      ensures Record() == BLANK
    {
      group, ledPower, channel, chain, groupSize, pairWin := 0, 0, 0, 0, 0, 0;
      name, hasName := [], false;
    }

    method PopulateCurrent(e: Entry) returns (more: bool)
      modifies this
      ensures (more, Record()) == Populate(e, old(Record()))
    {
      hide KeyOf, Compared, Recognise;
      MatchesAll(e.key);
      var keybuf := Compared(e.key);
      var isByte := e.vtype == U8 && |e.value| == 1;
      if keybuf == KeyOf(Group) {
        if isByte { group := e.value[0]; }
      } else if keybuf == KeyOf(LedPower) {
        if isByte { ledPower := e.value[0]; }
      } else if keybuf == KeyOf(ChannelPref) {
        if isByte { channel := e.value[0]; }
      } else if keybuf == KeyOf(StripGroupSize) {
        if isByte { groupSize := e.value[0]; }
      } else if keybuf == KeyOf(PairWin) {
        if isByte { pairWin := e.value[0]; }
      } else if keybuf == KeyOf(StripChain) {
        if e.vtype == U16 && |e.value| == 2 {
          chain := (e.value[0] as int) + 256 * (e.value[1] as int);
        }
      } else if keybuf == KeyOf(FriendlyName) {
        if e.vtype == Utf8 && |e.value| > 0 {
          name := if |e.value| < NAME_MAX then e.value else e.value[..NAME_MAX];
          hasName := |name| > 0;
        }
      }
      more := true;
    }
  }
}
