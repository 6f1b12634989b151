/** ClientMonitor.java: fields updated in place, with the two stamp queues as heap objects. */
module ClientMonitor {
  import opened Bytes
  import opened PacketCodec
  import opened MonitorSpec
  import opened Options

  /** A LinkedList of stamps, shared by reference. */
  class StampQueue {
    var items: seq<int>

    constructor ()
      ensures items == []
    {
      items := [];
    }

    method Add(stamp: int)
      modifies this
      ensures items == old(items) + [stamp]
    {
      items := items + [stamp];
    }

    method RemoveFirst()
      requires items != []
      modifies this
      ensures items == old(items)[1..]
    {
      items := items[1..];
    }

    method Clear()
      modifies this
      ensures items == []
    {
      items := [];
    }
  }

  class Monitor {
    var mode: int
    var modeToSend: int
    var forceSync: bool
    var synced: bool
    var picBuffer1: seq<Picture>
    var picBuffer2: seq<Picture>
    var pic1Available: bool
    var pic2Available: bool
    var motionDetected1: bool
    var motionDetected2: bool
    var modeIsSetToAuto: bool
    var lastPic1: Picture
    var lastPic2: Picture
    const syncStamps1: StampQueue
    const syncStamps2: StampQueue
    var baseline1: int
    var baseline2: int

    /** The two queues are different objects, and the queue sizes fit the synchronization flag. */
    ghost predicate Valid()
      reads this, syncStamps1, syncStamps2
    {
      syncStamps1 != syncStamps2 && SyncOk(View().sync)
    }

    ghost function View(): Mon
      reads this, syncStamps1, syncStamps2
    {
      Mon(CamState(picBuffer1, pic1Available, baseline1, motionDetected1),
          CamState(picBuffer2, pic2Available, baseline2, motionDetected2),
          SyncView(), mode, modeToSend, modeIsSetToAuto)
    }

    ghost function SyncView(): Sync
      reads this, syncStamps1, syncStamps2
    {
      Sync(synced, forceSync, syncStamps1.items, syncStamps2.items, lastPic1.timeStamp, lastPic2.timeStamp)
    }

    constructor ()
      ensures fresh(syncStamps1) && fresh(syncStamps2)
      ensures Valid() && View() == InitMon()
    {
      forceSync := false;
      synced := false;
      mode := 0;
      modeToSend := 0;
      modeIsSetToAuto := true;
      pic1Available := false;
      pic2Available := false;
      motionDetected1 := false;
      motionDetected2 := false;
      picBuffer1 := [];
      picBuffer2 := [];
      lastPic1 := Picture([], 0);
      lastPic2 := Picture([], 0);
      baseline1 := 0;
      baseline2 := 0;
      syncStamps1 := new StampQueue();
      syncStamps2 := new StampQueue();
    }

    method SetMode(newMode: int)
      requires Valid()
      modifies this
      ensures Valid() && View() == MonitorSpec.SetMode(old(View()), newMode)
    {
      if newMode == MODE_AUTO {
        modeIsSetToAuto := true;
      } else {
        mode := newMode;
        modeToSend := newMode - 1;
      }
    }

    method SetForcedSync(sync: bool)
      requires Valid()
      modifies this
      ensures Valid() && View() == MonitorSpec.SetForcedSync(old(View()), sync)
    {
      if sync {
        forceSync := true;
      }
    }

    /** putPicture; now is the reading of the clock in setBaseLine. */
    method PutPicture(pic: Picture, camNumber: int, now: int)
      requires Valid()
      modifies this, syncStamps1, syncStamps2
      ensures Valid() && View() == MonitorSpec.PutPicture(old(View()), pic, camNumber, now)
    {
      SetBaseLine(pic, camNumber, now);
      var stored := Shift(pic, if camNumber == 1 then baseline1 else baseline2);
      if camNumber == 1 {
        Keep1(stored);
      } else {
        Keep2(stored);
      }
    }

    method SetBaseLine(pic: Picture, camNumber: int, now: int)
      requires Valid()
      modifies `baseline1, `baseline2
      ensures Valid() && baseline1 == (if camNumber == 1 then BaselineFor(old(baseline1), 1, pic.timeStamp, now) else old(baseline1))
      ensures baseline2 == if camNumber == 1 then old(baseline2) else BaselineFor(old(baseline2), camNumber, pic.timeStamp, now)
    {
      if baseline1 == 0 && camNumber == 1 {
        baseline1 := now - pic.timeStamp;
      } else if baseline2 == 0 && camNumber == 2 {
        baseline2 := now - pic.timeStamp;
      }
    }

    /** The branch of putPicture for camera 1. */
    method Keep1(stored: Picture)
      requires Valid()
      modifies `picBuffer1, `lastPic1, `pic1Available, `synced, syncStamps1, syncStamps2
      ensures Valid() && SyncView() == Deliver(old(SyncView()), One, stored.timeStamp)
      ensures picBuffer1 == old(picBuffer1) + [stored] && pic1Available
    {
      picBuffer1 := picBuffer1 + [stored];
      lastPic1 := stored;
      pic1Available := true;
      if lastPic2.timeStamp != 0 {
        SyncReqCheck(stored, lastPic2, syncStamps1, syncStamps2, One);
      }
    }

    /** The branch of putPicture for camera 2. */
    method Keep2(stored: Picture)
      requires Valid()
      modifies `picBuffer2, `lastPic2, `pic2Available, `synced, syncStamps1, syncStamps2
      ensures Valid() && SyncView() == Deliver(old(SyncView()), Two, stored.timeStamp)
      ensures picBuffer2 == old(picBuffer2) + [stored] && pic2Available
    {
      picBuffer2 := picBuffer2 + [stored];
      lastPic2 := stored;
      pic2Available := true;
      if lastPic1.timeStamp != 0 {
        SyncReqCheck(stored, lastPic1, syncStamps2, syncStamps1, Two);
      }
    }

    method SyncReqCheck(pic: Picture, otherLastPic: Picture, syncStamps: StampQueue, otherSyncStamps: StampQueue, ghost c: Cam)
      requires syncStamps1 != syncStamps2 && SyncOk(SyncView())
      requires syncStamps == (if c.One? then syncStamps1 else syncStamps2)
      requires otherSyncStamps == (if c.One? then syncStamps2 else syncStamps1)
      requires otherLastPic.timeStamp == SyncView().Last(OtherCam(c))
      modifies `synced, syncStamps1, syncStamps2
      ensures SyncOk(SyncView()) && SyncView() == Check(old(SyncView()), c, pic.timeStamp)
    {
      var diff := pic.timeStamp - otherLastPic.timeStamp;
      var syncReq := (if diff < 0 then -diff else diff) <= SYNC_TOLERANCE_MILLIS;
      if synced {
        AsyncCheck(syncReq, diff, syncStamps, pic, otherLastPic, c);
      } else {
        var entered := SyncCheck(syncReq);
        if entered {
          syncStamps.Add(pic.timeStamp);
        }
      }
    }

    /** asyncCheck: syncStamps is one of the two fields that the method clears. */
    method AsyncCheck(syncReq: bool, diff: int, syncStamps: StampQueue, pic: Picture, otherLastPic: Picture, ghost c: Cam)
      requires syncStamps1 != syncStamps2 && SyncOk(SyncView()) && synced
      requires syncStamps == (if c.One? then syncStamps1 else syncStamps2)
      requires otherLastPic.timeStamp == SyncView().Last(OtherCam(c))
      requires diff == pic.timeStamp - otherLastPic.timeStamp
      requires syncReq <==> Conforming(pic.timeStamp, otherLastPic.timeStamp)
      modifies `synced, syncStamps1, syncStamps2
      ensures SyncOk(SyncView()) && SyncView() == Check(old(SyncView()), c, pic.timeStamp)
    {
      if syncReq || diff < 0 || forceSync {
        syncStamps1.Clear();
        syncStamps2.Clear();
        return;
      } else {
        syncStamps.Add(pic.timeStamp);
        Trim(syncStamps, otherLastPic);
      }
      if |syncStamps1.items| >= DELAYED_FRAMES_TOLERANCE || |syncStamps2.items| >= DELAYED_FRAMES_TOLERANCE {
        syncStamps1.Clear();
        syncStamps2.Clear();
        synced := false;
      }
    }

    /** The trimming loop of asyncCheck: it never looks at an empty queue, because the last stamp is late. */
    static method Trim(syncStamps: StampQueue, otherLastPic: Picture)
      requires syncStamps.items != [] && Late(syncStamps.items[|syncStamps.items| - 1], otherLastPic.timeStamp)
      modifies syncStamps
      ensures syncStamps.items == TrimFront(old(syncStamps.items), otherLastPic.timeStamp)
    {
      while syncStamps.items[0] - otherLastPic.timeStamp <= SYNC_TOLERANCE_MILLIS
        invariant syncStamps.items != [] && Late(syncStamps.items[|syncStamps.items| - 1], otherLastPic.timeStamp)
        invariant TrimFront(syncStamps.items, otherLastPic.timeStamp) == TrimFront(old(syncStamps.items), otherLastPic.timeStamp)
        decreases |syncStamps.items|
      {
        syncStamps.RemoveFirst();
      }
    }

    method SyncCheck(syncReq: bool) returns (entered: bool)
      modifies `synced, syncStamps1, syncStamps2
      ensures entered <==> forceSync || syncReq
      ensures entered ==> synced && syncStamps1.items == [] && syncStamps2.items == []
      ensures !entered ==> synced == old(synced) && unchanged(syncStamps1) && unchanged(syncStamps2)
    {
      if forceSync || syncReq {
        syncStamps1.Clear();
        syncStamps2.Clear();
        synced := true;
        return true;
      }
      return false;
    }

    /** One attempt of getPicture: Waits stands for the wait in its loop. A call whose wait throws, at whatever moment
        it gets the lock back, skips the rest of the try block and goes on to remove. */
    method GetPicture(camNumber: int, interrupted: bool) returns (r: Outcome)
      requires Valid()
      modifies this
      ensures r == GetOutcome(old(View()), camNumber, interrupted)
      ensures Valid() && View() == MonitorSpec.GetPicture(old(View()), camNumber, interrupted)
    {
      if camNumber == 1 {
        if !interrupted {
          if !pic1Available {
            return Waits;
          }
          pic1Available := false;
        }
        if picBuffer1 == [] {
          return NoSuchElement;
        }
        r := Returns(picBuffer1[0]);
        picBuffer1 := picBuffer1[1..];
      } else {
        if !interrupted {
          if !pic2Available {
            return Waits;
          }
          pic2Available := false;
        }
        if picBuffer2 == [] {
          return NoSuchElement;
        }
        r := Returns(picBuffer2[0]);
        picBuffer2 := picBuffer2[1..];
      }
    }

    method SetMotionDetected(camNumber: int, detected: bool)
      requires Valid()
      modifies this
      ensures Valid() && View() == MonitorSpec.SetMotionDetected(old(View()), camNumber, detected)
    {
      if camNumber == 1 {
        motionDetected1 := detected;
      } else {
        motionDetected2 := detected;
      }
      if mode == MODE_AUTO {
        if motionDetected1 || motionDetected2 {
          modeToSend := 1;
        } else {
          modeToSend := 0;
        }
      }
    }

    /** getNewMode: wakeups are the values other threads have given modeToSend each time the wait ends, by a
        notification or an interrupt; None if the last of them still leaves the caller waiting. */
    method GetNewMode(currentMode: int, wakeups: seq<int>) returns (r: Option<int>, woken: nat)
      requires Valid()
      modifies this`modeToSend
      ensures woken <= |wakeups| && forall i :: 0 <= i < woken ==> Seen(old(modeToSend), wakeups, i) == currentMode
      ensures Valid() && View() == old(View()).(modeToSend := Seen(old(modeToSend), wakeups, woken))
      ensures r.Some? <==> exists i :: 0 <= i <= |wakeups| && Seen(old(modeToSend), wakeups, i) != currentMode
      ensures r.Some? ==> r.value == modeToSend != currentMode
    {
      woken := 0;
      while currentMode == modeToSend
        invariant woken <= |wakeups| && modeToSend == Seen(old(modeToSend), wakeups, woken)
        invariant forall i :: 0 <= i < woken ==> Seen(old(modeToSend), wakeups, i) == currentMode
        invariant View() == old(View()).(modeToSend := modeToSend)
        decreases |wakeups| - woken
      {
        if woken == |wakeups| {
          return None, woken;
        }
        modeToSend := wakeups[woken];
        woken := woken + 1;
      }
      r := Some(modeToSend);
    }
  }

  /** The value that getNewMode finds when it looks for the i-th time: at the call, then after each wake-up. */
  function Seen(mode: int, wakeups: seq<int>, i: nat): int
    requires i <= |wakeups|
  {
    if i == 0 then mode else wakeups[i - 1]
  }
}
