/** Buffers, baselines and mode of the client monitor, over whole runs of its methods. */
module MonitorTheorems {
  import opened PacketCodec
  import opened MonitorSpec
  import SyncTheorems

  /** The calls of a run. An interrupted Get is the end of a call whose wait throws: it waits since some earlier moment at
      which the flag was false, as it is at the start, and other calls may run before it gets the lock back, so it can
      come in any state. */
  datatype Event =
    | Put(pic: Picture, camNumber: int, now: int)
    | Get(camNumber: int, interrupted: bool)
    | SetMode(mode: int)
    | ForceSync(sync: bool)
    | Motion(camNumber: int, detected: bool)

  function Apply(m: Mon, e: Event): Mon {
    match e
    case Put(pic, cam, now) => PutPicture(m, pic, cam, now)
    case Get(cam, interrupted) => GetPicture(m, cam, interrupted)
    case SetMode(mode) => MonitorSpec.SetMode(m, mode)
    case ForceSync(sync) => SetForcedSync(m, sync)
    case Motion(cam, detected) => SetMotionDetected(m, cam, detected)
  }

  /** The state after a run from the constructor. */
  function After(es: seq<Event>): Mon {
    if es == [] then InitMon() else Apply(After(es[..|es| - 1]), es[|es| - 1])
  }

  // ---- Conservation of pictures

  predicate IsPut(e: Event, c: Cam) {
    e.Put? && CamOf(e.camNumber) == c
  }

  /** The pictures put for a camera, as they were stored. */
  function Stored(es: seq<Event>, c: Cam): seq<Picture> {
    if es == [] then []
    else
      var front, e := es[..|es| - 1], es[|es| - 1];
      Stored(front, c) + if IsPut(e, c) then [Shift(e.pic, After(es).Of(c).baseline)] else []
  }

  /** The pictures returned for a camera. */
  function Returned(es: seq<Event>, c: Cam): seq<Picture> {
    if es == [] then []
    else
      var front, e := es[..|es| - 1], es[|es| - 1];
      Returned(front, c) +
      if e.Get? && CamOf(e.camNumber) == c && GetOutcome(After(front), e.camNumber, e.interrupted).Returns?
      then [GetOutcome(After(front), e.camNumber, e.interrupted).picture] else []
  }

  predicate IsGet(e: Event, c: Cam) {
    e.Get? && CamOf(e.camNumber) == c
  }

  /** What the length of the buffer gains over the flag: a put that finds the flag set adds one, and so does a call that
      clears the flag on an empty buffer; an interrupted call that takes a picture subtracts one. */
  function SurplusStep(s: CamState, e: Event, c: Cam): int {
    if IsPut(e, c) && s.available then 1
    else if IsGet(e, c) && e.interrupted && s.buffer != [] then -1
    else if IsGet(e, c) && !e.interrupted && s.available && s.buffer == [] then 1
    else 0
  }

  function Surplus(es: seq<Event>, c: Cam): int {
    if es == [] then 0
    else Surplus(es[..|es| - 1], c) + SurplusStep(After(es[..|es| - 1]).Of(c), es[|es| - 1], c)
  }

  lemma OtherEvents(m: Mon, e: Event, c: Cam)
    requires !IsPut(e, c) && !IsGet(e, c)
    ensures Apply(m, e).Of(c).buffer == m.Of(c).buffer && Apply(m, e).Of(c).available == m.Of(c).available
    ensures Apply(m, e).Of(c).baseline == m.Of(c).baseline
  {
  }

  lemma PutEvent(m: Mon, e: Event, c: Cam)
    requires IsPut(e, c)
    ensures Apply(m, e).Of(c).buffer == m.Of(c).buffer + [Shift(e.pic, Apply(m, e).Of(c).baseline)]
    ensures Apply(m, e).Of(c).available
  {
  }

  lemma GetEvent(m: Mon, e: Event, c: Cam)
    requires IsGet(e, c)
    ensures var s, s' := m.Of(c), Apply(m, e).Of(c);
            && s'.available == (e.interrupted && s.available)
            && if !s.available && !e.interrupted then s' == s
               else if s.buffer == [] then s'.buffer == []
               else s.buffer == [s.buffer[0]] + s'.buffer
  {
  }

  /** The pictures returned followed by those buffered are the pictures stored; and the buffer holds one picture for the
      flag plus the surplus. */
  predicate Conserved(returned: seq<Picture>, stored: seq<Picture>, s: CamState, surplus: int) {
    && returned + s.buffer == stored
    && |s.buffer| == (if s.available then 1 else 0) + surplus
  }

  lemma ConservedByPut(returned: seq<Picture>, stored: seq<Picture>, s: CamState, surplus: int, p: Picture, s': CamState)
    requires Conserved(returned, stored, s, surplus) && s'.available && s'.buffer == s.buffer + [p]
    ensures Conserved(returned, stored + [p], s', surplus + if s.available then 1 else 0)
  {
    assert returned + (s.buffer + [p]) == (returned + s.buffer) + [p];
  }

  lemma ConservedByGet(returned: seq<Picture>, stored: seq<Picture>, s: CamState, surplus: int, s': CamState, interrupted: bool)
    requires Conserved(returned, stored, s, surplus) && s.buffer != [] && (s.available || interrupted)
    requires s'.available == (interrupted && s.available) && s.buffer == [s.buffer[0]] + s'.buffer
    ensures Conserved(returned + [s.buffer[0]], stored, s', surplus - if interrupted then 1 else 0)
  {
    assert returned + ([s.buffer[0]] + s'.buffer) == (returned + [s.buffer[0]]) + s'.buffer;
  }

  /** Per camera, in every run and whatever the interrupts, pictures are neither lost, duplicated nor reordered. */
  lemma {:induction false} Conservation(es: seq<Event>, c: Cam)
    ensures Conserved(Returned(es, c), Stored(es, c), After(es).Of(c), Surplus(es, c))
  {
    if es != [] {
      var front, e := es[..|es| - 1], es[|es| - 1];
      var m, s, s' := After(front), After(front).Of(c), After(es).Of(c);
      Conservation(front, c);
      if IsPut(e, c) {
        PutEvent(m, e, c);
        ConservedByPut(Returned(front, c), Stored(front, c), s, Surplus(front, c), Shift(e.pic, s'.baseline), s');
        assert Returned(es, c) == Returned(front, c);
      } else if IsGet(e, c) && (s.available || e.interrupted) && s.buffer != [] {
        GetEvent(m, e, c);
        ConservedByGet(Returned(front, c), Stored(front, c), s, Surplus(front, c), s', e.interrupted);
        assert Stored(es, c) == Stored(front, c);
      } else {
        if IsGet(e, c) {
          GetEvent(m, e, c);
        } else {
          OtherEvents(m, e, c);
        }
        assert Returned(es, c) == Returned(front, c) && Stored(es, c) == Stored(front, c);
      }
    }
  }

  /** Since the last call of getPicture for the camera that was not interrupted, a picture was put. */
  predicate PutSince(es: seq<Event>, c: Cam) {
    es != [] &&
    var e := es[|es| - 1];
    IsPut(e, c) || ((!IsGet(e, c) || e.interrupted) && PutSince(es[..|es| - 1], c))
  }

  /** The availability flag as a function of the run alone. */
  lemma {:induction false} FlagOfRun(es: seq<Event>, c: Cam)
    ensures After(es).Of(c).available == PutSince(es, c)
  {
    if es != [] {
      var front, e := es[..|es| - 1], es[|es| - 1];
      FlagOfRun(front, c);
      if IsPut(e, c) {
        PutEvent(After(front), e, c);
      } else if IsGet(e, c) {
        GetEvent(After(front), e, c);
      } else {
        OtherEvents(After(front), e, c);
      }
    }
  }

  /** remove fails exactly when every picture stored has been returned and the call was interrupted or found the flag set,
      that is, a picture was put since the last call that was not interrupted. */
  lemma RemoveFailsIff(es: seq<Event>, camNumber: int, interrupted: bool)
    ensures GetOutcome(After(es), camNumber, interrupted) == NoSuchElement
       <==> Returned(es, CamOf(camNumber)) == Stored(es, CamOf(camNumber)) && (interrupted || PutSince(es, CamOf(camNumber)))
  {
    var c := CamOf(camNumber);
    Conservation(es, c);
    FlagOfRun(es, c);
    assert Returned(es, c) == Stored(es, c) <==> After(es).Of(c).buffer == [];
  }

  predicate NeverInterrupted(es: seq<Event>, c: Cam) {
    forall i :: 0 <= i < |es| && IsGet(es[i], c) ==> !es[i].interrupted
  }

  /** The puts that found the flag already set. */
  function PutsOnFlag(es: seq<Event>, c: Cam): nat {
    if es == [] then 0
    else PutsOnFlag(es[..|es| - 1], c) +
         if IsPut(es[|es| - 1], c) && After(es[..|es| - 1]).Of(c).available then 1 else 0
  }

  /** Without interrupts the flag implies a picture in the buffer, so remove never fails, and the buffer holds one picture
      for the flag and one for every put that found the flag already set. */
  lemma {:induction false} FlagImpliesPicture(es: seq<Event>, c: Cam)
    requires NeverInterrupted(es, c)
    ensures Surplus(es, c) == PutsOnFlag(es, c)
    ensures After(es).Of(c).available ==> After(es).Of(c).buffer != []
    ensures |After(es).Of(c).buffer| == (if After(es).Of(c).available then 1 else 0) + PutsOnFlag(es, c)
  {
    Conservation(es, c);
    if es != [] {
      var front := es[..|es| - 1];
      assert NeverInterrupted(front, c) by {
        assert forall i :: 0 <= i < |front| ==> front[i] == es[i];
      }
      FlagImpliesPicture(front, c);
    }
  }

  lemma OneMoreEvent(es: seq<Event>, e: Event)
    ensures After(es + [e]) == Apply(After(es), e)
  {
    assert (es + [e])[..|es|] == es;
  }

  /** An uninterrupted call can fail after an interrupted one: camera 1's caller waits, a picture is put before the wait
      throws, the interrupted call takes it and leaves the flag set, and the next call fails. */
  lemma UninterruptedFailure(p: Picture, now: int)
    ensures var es := [Get(1, false), Put(p, 1, now), Get(1, true)];
            && GetOutcome(After(es[..0]), 1, false) == Waits
            && GetOutcome(After(es[..2]), 1, true).Returns?
            && GetOutcome(After(es), 1, false) == NoSuchElement
  {
    var none: seq<Event> := [];
    var es := [Get(1, false), Put(p, 1, now), Get(1, true)];
    var one, two := none + [Get(1, false)], none + [Get(1, false)] + [Put(p, 1, now)];
    OneMoreEvent(none, Get(1, false));
    OneMoreEvent(one, Put(p, 1, now));
    OneMoreEvent(two, Get(1, true));
    assert es[..0] == none && es[..2] == two && es == two + [Get(1, true)];
    assert After(two).one.available && |After(two).one.buffer| == 1;
  }

  /** The camera number of a call that has one. */
  predicate Concerns(e: Event, camNumber: int) {
    (e.Put? || e.Get? || e.Motion?) && e.camNumber == camNumber
  }

  /** The two cameras are kept apart: a call with number 1 changes nothing of the second camera, and one with any other number
      nothing of the first. */
  lemma CamerasApart(m: Mon, e: Event, camNumber: int)
    requires Concerns(e, camNumber)
    ensures if camNumber == 1 then Apply(m, e).two == m.two else Apply(m, e).one == m.one
  {
  }

  // ---- Timestamp rebasing

  /** A picture as the receiver delivered it, with the clock reading available to setBaseLine. */
  datatype Raw = Raw(pic: Picture, now: int)

  function RawPuts(es: seq<Event>, c: Cam): seq<Raw> {
    if es == [] then []
    else
      var e := es[|es| - 1];
      RawPuts(es[..|es| - 1], c) + if IsPut(e, c) then [Raw(e.pic, e.now)] else []
  }

  /** The receivers are numbered 1 and 2. */
  predicate NumberedOneTwo(es: seq<Event>) {
    forall i :: 0 <= i < |es| && es[i].Put? ==> es[i].camNumber == 1 || es[i].camNumber == 2
  }

  /** The offset of the clock from the picture's own stamp. */
  function Offset(r: Raw): int {
    r.now - r.pic.timeStamp
  }

  /** The first put whose offset is not zero: the one that fixes the baseline. */
  function FixedAt(rs: seq<Raw>): (k: nat)
    ensures k <= |rs|
    ensures k < |rs| ==> Offset(rs[k]) != 0
    ensures forall i :: 0 <= i < k ==> Offset(rs[i]) == 0
  {
    if rs == [] then 0
    else
      var n := |rs| - 1;
      if FixedAt(rs[..n]) < n then FixedAt(rs[..n]) else if Offset(rs[n]) != 0 then n else n + 1
  }

  lemma PutBaseline(m: Mon, e: Event, c: Cam)
    requires IsPut(e, c) && (e.camNumber == 1 || e.camNumber == 2)
    ensures Apply(m, e).Of(c).baseline == if m.Of(c).baseline == 0 then e.now - e.pic.timeStamp else m.Of(c).baseline
  {
  }

  lemma BaselineUntouched(m: Mon, e: Event, c: Cam)
    requires !IsPut(e, c)
    ensures Apply(m, e).Of(c).baseline == m.Of(c).baseline
  {
  }

  /** Pictures before the one that fixes the baseline are stored as they are, the others shifted by its offset. */
  predicate RebasedAs(rs: seq<Raw>, stored: seq<Picture>, baseline: int) {
    var k := FixedAt(rs);
    && |stored| == |rs|
    && baseline == (if k < |rs| then Offset(rs[k]) else 0)
    && forall i :: 0 <= i < |rs| ==> stored[i] == Shift(rs[i].pic, if i < k then 0 else baseline)
  }

  lemma RebasedStep(rs: seq<Raw>, stored: seq<Picture>, baseline: int, r: Raw)
    requires RebasedAs(rs, stored, baseline)
    ensures var b := if baseline == 0 then Offset(r) else baseline;
            RebasedAs(rs + [r], stored + [Shift(r.pic, b)], b)
  {
    assert (rs + [r])[..|rs|] == rs;
  }

  /** The whole history of a camera's baseline: zero until the first nonzero offset, and that offset ever after. */
  lemma {:induction false} Rebasing(es: seq<Event>, c: Cam)
    requires NumberedOneTwo(es)
    ensures RebasedAs(RawPuts(es, c), Stored(es, c), After(es).Of(c).baseline)
  {
    if es != [] {
      var front, e := es[..|es| - 1], es[|es| - 1];
      Rebasing(front, c);
      if IsPut(e, c) {
        PutBaseline(After(front), e, c);
        RebasedStep(RawPuts(front, c), Stored(front, c), After(front).Of(c).baseline, Raw(e.pic, e.now));
      } else {
        BaselineUntouched(After(front), e, c);
        assert RawPuts(es, c) == RawPuts(front, c) && Stored(es, c) == Stored(front, c);
      }
    }
  }

  predicate ShiftedBy(es: seq<Event>, c: Cam, b: int) {
    |Stored(es, c)| == |RawPuts(es, c)| &&
    forall i :: 0 <= i < |RawPuts(es, c)| ==> Stored(es, c)[i] == Shift(RawPuts(es, c)[i].pic, b)
  }

  /** All stored stamps of a camera differ from the raw ones by one constant exactly when the first picture's offset
      is nonzero, or every picture's is zero. */
  lemma RebasedByOneConstantIff(es: seq<Event>, c: Cam)
    requires NumberedOneTwo(es)
    ensures var rs := RawPuts(es, c);
            (exists b :: ShiftedBy(es, c, b)) <==> (rs != [] && Offset(rs[0]) != 0) || (forall i :: 0 <= i < |rs| ==> Offset(rs[i]) == 0)
  {
    var rs, k := RawPuts(es, c), FixedAt(RawPuts(es, c));
    Rebasing(es, c);
    if k == 0 || k == |rs| {
      var b := if k < |rs| then Offset(rs[k]) else 0;
      assert ShiftedBy(es, c, b);
    } else {
      assert Stored(es, c)[0] == Shift(rs[0].pic, 0) && Stored(es, c)[k] == Shift(rs[k].pic, Offset(rs[k]));
    }
  }

  /** A difference of stored stamps is that of the raw stamps exactly when both pictures came before the one that fixed the
      baseline, or neither did. */
  lemma DifferencesKeptIff(es: seq<Event>, c: Cam, i: nat, j: nat)
    requires NumberedOneTwo(es) && i < |RawPuts(es, c)| && j < |RawPuts(es, c)|
    ensures |Stored(es, c)| == |RawPuts(es, c)|
    ensures Stored(es, c)[i].timeStamp - Stored(es, c)[j].timeStamp
         == RawPuts(es, c)[i].pic.timeStamp - RawPuts(es, c)[j].pic.timeStamp
       <==> (i < FixedAt(RawPuts(es, c)) <==> j < FixedAt(RawPuts(es, c)))
  {
    Rebasing(es, c);
  }

  // ---- Mode

  /** The last mode other than AUTO that was set, AUTO if there was none. */
  function LastManual(es: seq<Event>): int {
    if es == [] then MODE_AUTO
    else
      var e := es[|es| - 1];
      if e.SetMode? && e.mode != MODE_AUTO then e.mode else LastManual(es[..|es| - 1])
  }

  /** The last motion report for a camera. */
  function MotionOf(es: seq<Event>, c: Cam): bool {
    if es == [] then false
    else
      var e := es[|es| - 1];
      if e.Motion? && CamOf(e.camNumber) == c then e.detected else MotionOf(es[..|es| - 1], c)
  }

  function ModeFor(manual: int, motion: bool): int {
    if manual == MODE_AUTO then (if motion then 1 else 0) else manual - 1
  }

  /** The mode to send as a function of the run alone: the OR of the motion reports until some mode other than AUTO
      is set, and from then on the last such mode. */
  lemma {:induction false} ModeOfRun(es: seq<Event>)
    ensures ModeIs(After(es), LastManual(es), MotionOf(es, One), MotionOf(es, Two))
  {
    if es != [] {
      var front := es[..|es| - 1];
      ModeOfRun(front);
      ModeStep(After(front), es[|es| - 1], LastManual(front), MotionOf(front, One), MotionOf(front, Two));
    }
  }

  predicate ModeIs(m: Mon, manual: int, motion1: bool, motion2: bool) {
    && m.mode == manual && m.one.motion == motion1 && m.two.motion == motion2
    && m.modeToSend == ModeFor(manual, motion1 || motion2)
  }

  lemma ModeStep(m: Mon, e: Event, manual: int, motion1: bool, motion2: bool)
    requires ModeIs(m, manual, motion1, motion2)
    ensures ModeIs(Apply(m, e), if e.SetMode? && e.mode != MODE_AUTO then e.mode else manual,
                   if e.Motion? && CamOf(e.camNumber) == One then e.detected else motion1,
                   if e.Motion? && CamOf(e.camNumber) == Two then e.detected else motion2)
  {
  }

  predicate OnlyMotion(es: seq<Event>) {
    forall i :: 0 <= i < |es| ==> es[i].Motion?
  }

  /** Motion decides the mode in every continuation of the run by motion reports. */
  ghost predicate MotionDecides(es: seq<Event>) {
    forall more | OnlyMotion(more) ::
      After(es + more).modeToSend == ModeFor(MODE_AUTO, MotionOf(es + more, One) || MotionOf(es + more, Two))
  }

  lemma {:induction false} MotionKeepsManual(es: seq<Event>, more: seq<Event>)
    requires OnlyMotion(more)
    ensures LastManual(es + more) == LastManual(es)
  {
    if more == [] {
      assert es + more == es;
    } else {
      var n := |more| - 1;
      MotionKeepsManual(es, more[..n]);
      assert (es + more)[..|es + more| - 1] == es + more[..n] && (es + more)[|es + more| - 1] == more[n];
    }
  }

  /** The flag that AUTO sets is set from the start, and nothing ever clears it. */
  lemma {:induction false} AutoFlagOfRun(es: seq<Event>)
    ensures After(es).modeIsSetToAuto
  {
    if es != [] {
      AutoFlagOfRun(es[..|es| - 1]);
    }
  }

  /** Choosing AUTO hands the mode back to the motion reports exactly when no other mode was ever chosen. */
  lemma AutoRestoresIff(es: seq<Event>)
    ensures MotionDecides(es + [SetMode(MODE_AUTO)]) <==> LastManual(es) == MODE_AUTO
  {
    var es' := es + [SetMode(MODE_AUTO)];
    assert es'[..|es'| - 1] == es;
    assert LastManual(es') == LastManual(es);
    if LastManual(es) == MODE_AUTO {
      forall more | OnlyMotion(more)
        ensures After(es' + more).modeToSend == ModeFor(MODE_AUTO, MotionOf(es' + more, One) || MotionOf(es' + more, Two))
      {
        MotionKeepsManual(es', more);
        ModeOfRun(es' + more);
      }
    } else {
      var detected := LastManual(es) != MODE_MOVIE;
      var more := [Motion(1, detected), Motion(2, detected)];
      MotionKeepsManual(es', more);
      ModeOfRun(es' + more);
      assert (es' + more)[|es' + more| - 1] == Motion(2, detected);
      assert (es' + more)[..|es' + more| - 1] == es' + [Motion(1, detected)];
      assert (es' + [Motion(1, detected)])[|es'|] == Motion(1, detected);
      assert OnlyMotion(more);
    }
  }

  // ---- Synchronization inside the monitor

  function DeliveryOf(m: Mon, e: Event): SyncTheorems.Delivery
    requires e.Put?
  {
    var c := CamOf(e.camNumber);
    SyncTheorems.Delivery(c, Shift(e.pic, Apply(m, e).Of(c).baseline).timeStamp)
  }

  /** The stored pictures of a run as the synchronization logic sees them. */
  function Deliveries(es: seq<Event>): seq<SyncTheorems.Delivery> {
    if es == [] then []
    else
      var front, e := es[..|es| - 1], es[|es| - 1];
      Deliveries(front) + if e.Put? then [DeliveryOf(After(front), e)] else []
  }

  predicate NeverForced(es: seq<Event>) {
    forall i :: 0 <= i < |es| && es[i].ForceSync? ==> !es[i].sync
  }

  lemma PutDelivers(m: Mon, e: Event)
    requires e.Put?
    ensures Apply(m, e).sync == Deliver(m.sync, DeliveryOf(m, e).cam, DeliveryOf(m, e).stamp)
  {
  }

  /** Whatever else happens in between, the monitor's synchronization state is that of its deliveries alone. */
  lemma {:induction false} SyncOfRun(es: seq<Event>)
    requires NeverForced(es)
    ensures After(es).sync == SyncTheorems.After(Deliveries(es))
  {
    if es != [] {
      var front, e := es[..|es| - 1], es[|es| - 1];
      SyncOfRun(front);
      if e.Put? {
        PutDelivers(After(front), e);
        SyncTheorems.AfterAppend(Deliveries(front), DeliveryOf(After(front), e));
      } else {
        assert Deliveries(es) == Deliveries(front);
      }
    }
  }

  /** So getSyncMode answers what the reference definition says about the deliveries so far. */
  lemma SyncModeOfRun(es: seq<Event>)
    requires NeverForced(es) && SyncTheorems.Monotone(Deliveries(es))
    ensures After(es).sync.synced == SyncTheorems.InSync(Deliveries(es))
  {
    SyncOfRun(es);
    SyncTheorems.SyncedIff(Deliveries(es));
  }

  /** The stamp of the last picture stored for a camera, 0 before the first. */
  function LastStamp(es: seq<Event>, c: Cam): int {
    var stored := Stored(es, c);
    if stored == [] then 0 else stored[|stored| - 1].timeStamp
  }

  /** What one event does to the stored pictures of a camera. */
  lemma LastStampStep(es: seq<Event>, c: Cam)
    requires es != []
    ensures var front, e := es[..|es| - 1], es[|es| - 1];
            if IsPut(e, c) then
              && Stored(es, c) == Stored(front, c) + [Shift(e.pic, After(es).Of(c).baseline)]
              && LastStamp(es, c) == DeliveryOf(After(front), e).stamp && DeliveryOf(After(front), e).cam == c
            else Stored(es, c) == Stored(front, c) && LastStamp(es, c) == LastStamp(front, c)
  {
  }

  lemma {:induction false} LastOfRun(es: seq<Event>, c: Cam)
    ensures After(es).sync.Last(c) == LastStamp(es, c)
  {
    if es != [] {
      var front, e := es[..|es| - 1], es[|es| - 1];
      LastOfRun(front, c);
      LastStampStep(es, c);
      if e.Put? {
        PutDelivers(After(front), e);
        LastOfDelivery(After(front).sync, DeliveryOf(After(front), e), c);
      }
    }
  }

  lemma LastOfDelivery(s: Sync, f: SyncTheorems.Delivery, c: Cam)
    ensures Deliver(s, f.cam, f.stamp).Last(c) == if f.cam == c then f.stamp else s.Last(c)
  {
  }

  /** After es, some picture of the run more is put when the other camera's last stored stamp is not 0. */
  predicate PutChecked(es: seq<Event>, more: seq<Event>) {
    more != [] &&
    var n := |more| - 1;
    PutChecked(es, more[..n]) || (more[n].Put? && LastStamp(es + more[..n], OtherCam(CamOf(more[n].camNumber))) != 0)
  }

  /** Synchronization is forced exactly when setForcedSync(true) has been called. */
  lemma {:induction false} ForcedIff(es: seq<Event>)
    ensures After(es).sync.force <==> ForceSync(true) in es
  {
    if es != [] {
      var front, e := es[..|es| - 1], es[|es| - 1];
      ForcedIff(front);
      assert es == front + [e];
      ForceStep(After(front), e);
    }
  }

  lemma ForceStep(m: Mon, e: Event)
    ensures Apply(m, e).sync.force <==> m.sync.force || e == ForceSync(true)
  {
    if e.Put? {
      PutDelivers(m, e);
      DeliverKeepsForce(m.sync, DeliveryOf(m, e));
    }
  }

  lemma DeliverKeepsForce(s: Sync, f: SyncTheorems.Delivery)
    ensures Deliver(s, f.cam, f.stamp).force == s.force
  {
  }

  /** Forcing cannot be undone: once setForcedSync(true) has been called, and whatever is called afterwards, the monitor is
      synchronous exactly if it was so already or some later picture was put when the other camera's last stamp was not 0. */
  lemma {:induction false} ForcedForGood(es: seq<Event>, more: seq<Event>)
    requires ForceSync(true) in es
    ensures After(es + more).sync.force
    ensures After(es + more).sync.synced <==> After(es).sync.synced || PutChecked(es, more)
  {
    if more == [] {
      assert es + more == es;
      ForcedIff(es);
    } else {
      var n := |more| - 1;
      var run, e := es + more[..n], more[n];
      ForcedForGood(es, more[..n]);
      assert es + more == run + [e];
      OneMoreEvent(run, e);
      ForcedStep(After(run), e);
      if e.Put? {
        LastOfRun(run, OtherCam(CamOf(e.camNumber)));
      }
    }
  }

  lemma ForcedStep(m: Mon, e: Event)
    requires m.sync.force
    ensures Apply(m, e).sync.force
    ensures Apply(m, e).sync.synced <==> m.sync.synced || (e.Put? && m.sync.Last(OtherCam(CamOf(e.camNumber))) != 0)
  {
    if e.Put? {
      PutDelivers(m, e);
    }
  }

  /** The resting invariant of the queues in every run, forced or not, whatever the stamps. */
  lemma {:induction false} SyncOkOfRun(es: seq<Event>)
    ensures SyncOk(After(es).sync)
  {
    if es != [] {
      var front, e := es[..|es| - 1], es[|es| - 1];
      SyncOkOfRun(front);
      if e.Put? {
        PutDelivers(After(front), e);
        SyncTheorems.SyncOkStep(After(front).sync, DeliveryOf(After(front), e).cam, DeliveryOf(After(front), e).stamp);
      }
    }
  }

  // ---- Synchronization from what the cameras send

  /** The stamps a camera sends never decrease, its first picture's offset is not zero, and the clock was not negative then. */
  predicate WellTimed(rs: seq<Raw>) {
    && (forall i, j :: 0 <= i <= j < |rs| ==> rs[i].pic.timeStamp <= rs[j].pic.timeStamp)
    && (rs != [] ==> Offset(rs[0]) != 0 && rs[0].now >= 0)
  }

  /** The stored stamps of such a camera never decrease either, and the first is not negative. */
  lemma StoredInOrder(es: seq<Event>, c: Cam)
    requires NumberedOneTwo(es) && WellTimed(RawPuts(es, c))
    ensures var q := Stored(es, c);
            && (forall i, j :: 0 <= i <= j < |q| ==> q[i].timeStamp <= q[j].timeStamp)
            && (q != [] ==> q[0].timeStamp >= 0)
  {
    Rebasing(es, c);
  }

  lemma LatestMore(fs: seq<SyncTheorems.Delivery>, f: SyncTheorems.Delivery, c: Cam)
    ensures SyncTheorems.Latest(fs + [f], c) == if f.cam == c then f.stamp else SyncTheorems.Latest(fs, c)
  {
    assert (fs + [f])[..|fs|] == fs;
  }

  lemma {:induction false} LatestIsLast(es: seq<Event>, c: Cam)
    ensures SyncTheorems.Latest(Deliveries(es), c) == LastStamp(es, c)
  {
    if es != [] {
      var front, e := es[..|es| - 1], es[|es| - 1];
      LatestIsLast(front, c);
      LastStampStep(es, c);
      if e.Put? {
        LatestMore(Deliveries(front), DeliveryOf(After(front), e), c);
      } else {
        assert Deliveries(es) == Deliveries(front);
      }
    }
  }

  lemma NextInOrder(es: seq<Event>, c: Cam)
    requires es != [] && IsPut(es[|es| - 1], c) && NumberedOneTwo(es) && WellTimed(RawPuts(es, c))
    ensures LastStamp(es, c) >= LastStamp(es[..|es| - 1], c)
  {
    var q, before := Stored(es, c), Stored(es[..|es| - 1], c);
    StoredInOrder(es, c);
    LastStampStep(es, c);
    if before != [] {
      assert before[|before| - 1] == q[|before| - 1];
    }
  }

  lemma MonotoneMore(fs: seq<SyncTheorems.Delivery>, f: SyncTheorems.Delivery)
    requires SyncTheorems.Monotone(fs) && f.stamp >= SyncTheorems.Latest(fs, f.cam)
    ensures SyncTheorems.Monotone(fs + [f])
  {
    forall i | 0 <= i < |fs + [f]|
      ensures (fs + [f])[i].stamp >= SyncTheorems.Latest((fs + [f])[..i], (fs + [f])[i].cam)
    {
      assert (fs + [f])[..i] == fs[..i];
    }
  }

  lemma WellTimedPrefix(rs: seq<Raw>, more: seq<Raw>)
    requires WellTimed(rs + more)
    ensures WellTimed(rs)
  {
    forall i, j | 0 <= i <= j < |rs| ensures rs[i].pic.timeStamp <= rs[j].pic.timeStamp {
      assert (rs + more)[i] == rs[i] && (rs + more)[j] == rs[j];
    }
    if rs != [] {
      assert (rs + more)[0] == rs[0];
    }
  }

  /** When the cameras' own stamps never decrease, the stamps that the synchronization logic sees do not either. */
  lemma {:induction false} RawOrderIsKept(es: seq<Event>)
    requires NumberedOneTwo(es) && forall c :: WellTimed(RawPuts(es, c))
    ensures SyncTheorems.Monotone(Deliveries(es))
  {
    if es != [] {
      var front, e := es[..|es| - 1], es[|es| - 1];
      forall c ensures WellTimed(RawPuts(front, c)) {
        assert WellTimed(RawPuts(es, c));
        var e := es[|es| - 1];
        WellTimedPrefix(RawPuts(front, c), if IsPut(e, c) then [Raw(e.pic, e.now)] else []);
      }
      RawOrderIsKept(front);
      if e.Put? {
        var c := CamOf(e.camNumber);
        assert WellTimed(RawPuts(es, c));
        NextInOrder(es, c);
        LastStampStep(es, c);
        LatestIsLast(front, c);
        MonotoneMore(Deliveries(front), DeliveryOf(After(front), e));
      } else {
        assert Deliveries(es) == Deliveries(front);
      }
    }
  }

  /** So the monitor is synchronous exactly when the reference definition says so, for cameras whose stamps never decrease. */
  lemma SyncModeOfCameras(es: seq<Event>)
    requires NeverForced(es) && NumberedOneTwo(es) && forall c :: WellTimed(RawPuts(es, c))
    ensures After(es).sync.synced == SyncTheorems.InSync(Deliveries(es))
  {
    RawOrderIsKept(es);
    SyncModeOfRun(es);
  }
}
