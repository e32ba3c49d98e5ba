/** The authenticated channel and the settings together: what any run of received frames does to a
    device, and the editor's write sent over the air. */
module ConfigSession {
  import opened Bytes
  import opened ConfigApply
  import opened ConfigChannel
  import opened Hmac
  import opened Tlv
  import Frame
  import NumonceLru

  lemma ApplierIsWilling(role: Role)
    ensures forall e: Entry, c: Ctx :: Applier(role)(e, c).0
  {
    forall e: Entry, c: Ctx ensures Applier(role)(e, c).0 {
      NeverRefusesMore(role, e, c);
    }
  }

  /** The answer to an accepted frame. */
  datatype Ack = Ack(numonce: u64, status: u8, appliedKeys: u8)

  /** The status byte of the acknowledgement. */
  function AckStatus(ctx: Ctx): (status: u8) {
    if ctx.outOfRange then 0x82 else 0
  }

  datatype Session = Session(guard: NumonceLru.Table, settings: Settings)

  /** One received frame, applied with a range flag of its own. */
  function Receive(frame: seq<u8>, uid: u32, key: Key, role: Role, d: Session): (r: (Option<Ack>, Session))
    requires |d.guard.slots| == NumonceLru.SLOTS
    ensures |r.1.guard.slots| == NumonceLru.SLOTS
  {
    var (detail, t, ctx) := Process(frame, uid, key, d.guard, Applier(role), Ctx(d.settings, false));
    (if detail.result == Accepted then Some(Ack(detail.numonce, AckStatus(ctx), detail.appliedKeys)) else None,
     Session(t, ctx.settings))
  }

  /** A device after a run of frames, from an empty guard. */
  function RunSession(frames: seq<seq<u8>>, uid: u32, key: Key, role: Role, s: Settings): (d: Session)
    ensures |d.guard.slots| == NumonceLru.SLOTS
  {
    if |frames| == 0 then Session(NumonceLru.Fresh(), s)
    else Receive(frames[|frames| - 1], uid, key, role, RunSession(frames[..|frames| - 1], uid, key, role, s)).1
  }

  /** Which settings a bag leaves does not depend on the range flag it starts with. */
  lemma FlagIsIrrelevant(role: Role, es: seq<Entry>, a: Ctx, b: Ctx)
    requires a.settings == b.settings
    ensures ApplyAll(role, es, a).settings == ApplyAll(role, es, b).settings
  {
    hide ApplyAll, Get, LastStored;
    var x, y := ApplyAll(role, es, a).settings, ApplyAll(role, es, b).settings;
    forall n ensures Get(x, n) == Get(y, n) {
      LastWriterWins(role, es, a, n);
      LastWriterWins(role, es, b, n);
    }
    SameSettings(x, y);
  }

  lemma ApplyAllConcat(role: Role, a: seq<Entry>, b: seq<Entry>, ctx: Ctx)
    ensures ApplyAll(role, a + b, ctx) == ApplyAll(role, b, ApplyAll(role, a, ctx))
  {
    hide Apply, Deliver;
    ApplyAllDelivers(role, a, ctx);
    DeliverConcat(a, b, Applier(role), ctx);
  }

  /** What one frame does to the settings, and how it is answered. */
  lemma FrameOutcome(frame: seq<u8>, uid: u32, key: Key, role: Role, d: Session)
    requires |d.guard.slots| == NumonceLru.SLOTS
    ensures var (ack, d') := Receive(frame, uid, key, role, d);
            match Delivers(frame, uid, key, d.guard)
            case None => ack == None && d'.settings == d.settings
            case Some((_, w)) =>
              var walk := Decode(w.bag);
              && d'.settings == ApplyAll(role, walk.delivered, Ctx(d.settings, false)).settings
              && |walk.delivered| < 0x100
              && ack == if walk.err != DecodeError.Ok then None
                        else Some(Ack(Numonce(w.numonce), if RefusesOne(role, walk.delivered) then 0x82 else 0, |walk.delivered|))
  {
    hide Delivers, Process, ApplyBag, Decode, Deliver, Applier, Numonce, Refuses, Counting;
    var ctx := Ctx(d.settings, false);
    OnlyAfterChecks(frame, uid, key, d.guard, Applier(role), ctx);
    match Delivers(frame, uid, key, d.guard)
    case None =>
    case Some((source, w)) =>
      DeliveredIsShort(frame, uid, key, d.guard);
      BagOutcome(role, w, ctx);
      LastWriterWins(role, Decode(w.bag).delivered, ctx, Group);
  }

  predicate RefusesOne(role: Role, es: seq<Entry>) {
    exists i :: 0 <= i < |es| && Refuses(role, es[i])
  }

  lemma DeliveredIsShort(frame: seq<u8>, uid: u32, key: Key, t: NumonceLru.Table)
    requires |t.slots| == NumonceLru.SLOTS && Delivers(frame, uid, key, t).Some?
    ensures |Delivers(frame, uid, key, t).value.1.bag| <= Frame.MAX_BAG
  {
    hide NumonceLru.Check, Genuine, Frame.DecodeConfigWrite, Frame.DecodeHeader;
  }

  /** A bag short enough for a frame is applied and counted entry by entry. */
  lemma BagOutcome(role: Role, w: Frame.ConfigWrite, ctx: Ctx)
    requires |w.bag| <= Frame.MAX_BAG
    ensures var (detail, ctx') := ApplyBag(w, Applier(role), ctx);
            var walk := Decode(w.bag);
            && ctx' == ApplyAll(role, walk.delivered, ctx) && |walk.delivered| < 0x100
            && detail == if walk.err == DecodeError.Ok then Detail(Accepted, Numonce(w.numonce), |walk.delivered|, 0)
                         else Rejected(MalformedBag)
  {
    hide Decode, Deliver, Applier, Numonce, Counting, Body, AllEncodable;
    var es := Decode(w.bag).delivered;
    ApplierIsWilling(role);
    CountingCounts(es, Applier(role), 0, ctx);
    WillingTakesAll(es, Applier(role), ctx);
    BagIsShort(w.bag);
    assert ApplyAll(role, es, ctx) == Deliver(es, Applier(role), ctx).1;
  }

  lemma BagIsShort(bag: seq<u8>)
    requires |bag| <= Frame.MAX_BAG
    ensures 4 * |Decode(bag).delivered| <= Frame.MAX_BAG
  {
    if |bag| > 0 {
      DecodeIsCanonical(bag);
      hide Decode, Body;
      FewEntries(Decode(bag).delivered);
    } else {
      assert Decode(bag).delivered == [];
    }
  }

  /** The guard of a session is that of its calls. */
  lemma {:induction false} SessionGuards(frames: seq<seq<u8>>, uid: u32, key: Key, role: Role, s: Settings)
    ensures RunSession(frames, uid, key, role, s).guard == NumonceLru.RunTable(NumonceLru.Fresh(), GuardCalls(frames, uid))
  {
    hide Process, GuardCalls, Applier, NumonceLru.Fresh;
    if |frames| == 0 {
      assert GuardCalls(frames, uid) == [] by { NoCalls(frames, uid); }
    } else {
      var front, last := frames[..|frames| - 1], frames[|frames| - 1];
      SessionGuards(front, uid, key, role, s);
      var d := RunSession(front, uid, key, role, s);
      GuardStep(frames, uid, key, d.guard, Applier(role), Ctx(d.settings, false));
    }
  }

  lemma NoCalls(frames: seq<seq<u8>>, uid: u32)
    requires |frames| == 0
    ensures GuardCalls(frames, uid) == []
  {
  }

  lemma GuardStep<C>(frames: seq<seq<u8>>, uid: u32, key: Key, t: NumonceLru.Table, cb: (Entry, C) -> (bool, C), ctx: C)
    requires |frames| > 0 && |t.slots| == NumonceLru.SLOTS
    requires t == NumonceLru.RunTable(NumonceLru.Fresh(), GuardCalls(frames[..|frames| - 1], uid))
    ensures Process(frames[|frames| - 1], uid, key, t, cb, ctx).1
            == NumonceLru.RunTable(NumonceLru.Fresh(), GuardCalls(frames, uid))
  {
    hide NumonceLru.Check, Genuine, Carried, ApplyBag;
    var front, calls := GuardCalls(frames[..|frames| - 1], uid), GuardCalls(frames, uid);
    if calls != front {
      assert calls[..|calls| - 1] == front;
    }
  }

  /** The settings after any run are the fold of what its frames deliver. */
  lemma {:induction false} SessionIsFold(frames: seq<seq<u8>>, uid: u32, key: Key, role: Role, s: Settings)
    ensures RunSession(frames, uid, key, role, s).settings == ApplyAll(role, Delivered(frames, uid, key), Ctx(s, false)).settings
  {
    hide ApplyAll, Delivers, Receive, Decode, GuardCalls, NumonceLru.RunTable, NumonceLru.Fresh;
    if |frames| == 0 {
      ApplyAllNone(role, Ctx(s, false));
    } else {
      var front, last := frames[..|frames| - 1], frames[|frames| - 1];
      SessionIsFold(front, uid, key, role, s);
      SessionGuards(front, uid, key, role, s);
      var d, before := RunSession(front, uid, key, role, s), Delivered(front, uid, key);
      FrameOutcome(last, uid, key, role, d);
      match Delivers(last, uid, key, d.guard)
      case None =>
        assert before + [] == before;
      case Some((_, w)) =>
        var es := Decode(w.bag).delivered;
        ApplyAllConcat(role, before, es, Ctx(s, false));
        FlagIsIrrelevant(role, es, ApplyAll(role, before, Ctx(s, false)), Ctx(d.settings, false));
    }
  }

  /** Over any run of arbitrary frames from an empty guard, each setting ends as the last valid value
      that a frame passing the target, replay and signature checks carried for it, or as it was. */
  lemma SettingsOverRuns(frames: seq<seq<u8>>, uid: u32, key: Key, role: Role, s: Settings, n: Name)
    ensures Get(RunSession(frames, uid, key, role, s).settings, n)
            == LastStored(role, Delivered(frames, uid, key), n, Get(s, n))
  {
    hide RunSession, Delivered, LastStored, Get, ApplyAll;
    SessionIsFold(frames, uid, key, role, s);
    LastWriterWins(role, Delivered(frames, uid, key), Ctx(s, false), n);
  }

  /** Frame i of any run is answered exactly when it passes every check and its bag is well formed;
      the answer counts all its entries, and its status tells whether one of them, not of an earlier
      frame, was refused. */
  lemma AcksOverRuns(frames: seq<seq<u8>>, uid: u32, key: Key, role: Role, s: Settings, i: nat)
    requires i < |frames|
    ensures var ack := Receive(frames[i], uid, key, role, RunSession(frames[..i], uid, key, role, s)).0;
            match Delivers(frames[i], uid, key, GuardBefore(frames, uid, i))
            case None => ack == None
            case Some((_, w)) =>
              var walk := Decode(w.bag);
              && |walk.delivered| < 0x100
              && ack == if walk.err != DecodeError.Ok then None
                        else Some(Ack(Numonce(w.numonce), if RefusesOne(role, walk.delivered) then 0x82 else 0, |walk.delivered|))
  {
    hide RunSession, Receive, Delivers, Decode, Numonce, RefusesOne, GuardCalls, NumonceLru.RunTable, NumonceLru.Fresh, ApplyAll;
    SessionGuards(frames[..i], uid, key, role, s);
    FrameOutcome(frames[i], uid, key, role, RunSession(frames[..i], uid, key, role, s));
  }

  /** And no run of frames can bring a setting out of its range. */
  lemma RunsKeepRange(frames: seq<seq<u8>>, uid: u32, key: Key, role: Role, s: Settings)
    requires InRange(s)
    ensures InRange(RunSession(frames, uid, key, role, s).settings)
  {
    hide RunSession, Delivered, InRange, ApplyAll;
    SessionIsFold(frames, uid, key, role, s);
    FoldKeepsRange(role, Delivered(frames, uid, key), Ctx(s, false));
  }

  lemma {:induction false} FoldKeepsRange(role: Role, es: seq<Entry>, ctx: Ctx)
    requires InRange(ctx.settings)
    ensures InRange(ApplyAll(role, es, ctx).settings)
  {
    hide InRange, ApplyAll, Apply;
    if |es| == 0 {
      ApplyAllNone(role, ctx);
      assert es == [];
    } else {
      var front, last := es[..|es| - 1], es[|es| - 1];
      FoldKeepsRange(role, front, ctx);
      ApplyAllSnoc(role, front, last, ctx);
      assert front + [last] == es;
      RangeIsKept(role, last, ApplyAll(role, front, ctx));
    }
  }

  /** Reading a light node's settings, and writing them back unedited in a signed frame: the node
      accepts the frame exactly when its guard admits the number, reports every key applied with a
      clean status, and keeps every setting. */
  lemma UneditedOverTheAir(s: Settings, source: u16, uid: u32, key: Key, numonce: u64, t: NumonceLru.Table)
    requires InRange(s) && |t.slots| == 16
    ensures var es := EditorEntries(CurrentOf(s));
            && AllEncodable(es) && |es| < 0x100 && |Bag(es)| <= 220
            && var (admitted, t') := NumonceLru.Check(t, source, numonce);
               var (detail, t'', ctx') := Process(SignedFrame(source, uid, key, Bag(es), numonce), uid, key, t,
                                                  Applier(Lume), Ctx(s, false));
               && t'' == t' && ctx' == Ctx(s, false) && AckStatus(ctx') == 0
               && detail == (if admitted then Detail(Accepted, numonce, |es|, 0) else Rejected(Replay))
  {
    hide Bag, Process, SignedFrame, NumonceLru.Check, Deliver, Applier, InRange, LumeEntries, EditorEntries, AllEncodable;
    EntriesFit(Lume, s) by {
      NameFits(s);
    }
    UneditedCycle(s);
    ApplierIsWilling(Lume);
    SignedIsAccepted(source, uid, key, LumeEntries(s), numonce, t, Applier(Lume), Ctx(s, false));
  }

  lemma NameFits(s: Settings)
    requires InRange(s)
    ensures |s.name| <= NAME_MAX
  {
  }
}
