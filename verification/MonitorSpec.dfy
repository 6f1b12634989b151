/** The state of ClientMonitor.java as a value, and the effect of each of its synchronized methods. */
module MonitorSpec {
  import opened Bytes
  import opened PacketCodec

  const MODE_AUTO := 0
  const MODE_IDLE := 1
  const MODE_MOVIE := 2

  const DELAYED_FRAMES_TOLERANCE := 10
  const SYNC_TOLERANCE_MILLIS := 200

  // ---- Synchronization

  datatype Cam = One | Two

  function OtherCam(c: Cam): Cam {
    if c.One? then Two else One
  }

  /** Every camera number but 1 stands for the second camera. */
  function CamOf(camNumber: int): Cam {
    if camNumber == 1 then One else Two
  }

  /** The synchronization state: stamps are the syncStamps queues, last the stamps of the latest pictures. */
  datatype Sync = Sync(synced: bool, force: bool, stamps1: seq<int>, stamps2: seq<int>, last1: int, last2: int) {
    function Stamps(c: Cam): seq<int> { if c.One? then stamps1 else stamps2 }

    function Last(c: Cam): int { if c.One? then last1 else last2 }

    function WithStamps(c: Cam, q: seq<int>): Sync {
      if c.One? then this.(stamps1 := q) else this.(stamps2 := q)
    }

    function WithLast(c: Cam, t: int): Sync {
      if c.One? then this.(last1 := t) else this.(last2 := t)
    }

    function Cleared(): Sync { this.(stamps1 := [], stamps2 := []) }
  }

  predicate Conforming(stamp: int, other: int) {
    -SYNC_TOLERANCE_MILLIS <= stamp - other <= SYNC_TOLERANCE_MILLIS
  }

  predicate Behind(stamp: int, other: int) {
    stamp - other < 0 && !Conforming(stamp, other)
  }

  predicate Late(stamp: int, other: int) {
    stamp - other > SYNC_TOLERANCE_MILLIS
  }

  /** The resting invariant of the synchronization state. */
  predicate SyncOk(s: Sync) {
    && (!s.synced ==> s.stamps1 == [] && s.stamps2 == [])
    && |s.stamps1| < DELAYED_FRAMES_TOLERANCE && |s.stamps2| < DELAYED_FRAMES_TOLERANCE
  }

  /** Removing stamps from the front while they are within the tolerance of the other camera's latest picture. */
  function TrimFront(q: seq<int>, other: int): (r: seq<int>)
    ensures |r| <= |q|
    ensures r != [] ==> Late(r[0], other)
  {
    if q != [] && !Late(q[0], other) then TrimFront(q[1..], other) else q
  }

  /** syncReqCheck for a picture of camera c with this stamp. */
  function Check(s: Sync, c: Cam, stamp: int): Sync {
    var other := s.Last(OtherCam(c));
    if s.synced then
      if !Late(stamp, other) || s.force then s.Cleared()
      else
        var s' := s.WithStamps(c, TrimFront(s.Stamps(c) + [stamp], other));
        if |s'.stamps1| >= DELAYED_FRAMES_TOLERANCE || |s'.stamps2| >= DELAYED_FRAMES_TOLERANCE
        then s'.Cleared().(synced := false)
        else s'
    else if s.force || Conforming(stamp, other) then
      s.Cleared().(synced := true).WithStamps(c, [stamp])
    else s
  }

  /** A picture of camera c is checked once the other camera's latest stamp is nonzero. */
  function Deliver(s: Sync, c: Cam, stamp: int): Sync {
    var s' := s.WithLast(c, stamp);
    if s.Last(OtherCam(c)) != 0 then Check(s', c, stamp) else s'
  }

  // ---- Picture buffers and mode

  datatype CamState = CamState(buffer: seq<Picture>, available: bool, baseline: int, motion: bool)

  datatype Mon = Mon(one: CamState, two: CamState, sync: Sync, mode: int, modeToSend: int, modeIsSetToAuto: bool) {
    function Of(c: Cam): CamState { if c.One? then one else two }

    function With(c: Cam, s: CamState): Mon {
      if c.One? then this.(one := s) else this.(two := s)
    }
  }

  function InitMon(): Mon {
    var cam := CamState([], false, 0, false);
    Mon(cam, cam, Sync(false, false, [], [], 0, 0), MODE_AUTO, 0, true)
  }

  /** The baseline a picture is shifted by: fixed by the first picture that finds it zero, for cameras 1 and 2. */
  function BaselineFor(baseline: int, camNumber: int, stamp: int, now: int): int {
    if baseline == 0 && (camNumber == 1 || camNumber == 2) then now - stamp else baseline
  }

  function Shift(p: Picture, baseline: int): Picture {
    p.(timeStamp := p.timeStamp + baseline)
  }

  function PutPicture(m: Mon, p: Picture, camNumber: int, now: int): Mon {
    var c := CamOf(camNumber);
    var baseline := BaselineFor(m.Of(c).baseline, camNumber, p.timeStamp, now);
    var stored := Shift(p, baseline);
    m.With(c, CamState(m.Of(c).buffer + [stored], true, baseline, m.Of(c).motion)).(
      sync := Deliver(m.sync, c, stored.timeStamp))
  }

  /** What one attempt of getPicture does: it waits, returns a picture, or fails in remove. */
  datatype Outcome = Waits | Returns(picture: Picture) | NoSuchElement

  /** An attempt looks at the flag; a call whose wait is interrupted goes on to remove without looking. */
  function GetOutcome(m: Mon, camNumber: int, interrupted: bool): Outcome {
    var s := m.Of(CamOf(camNumber));
    if !s.available && !interrupted then Waits
    else if s.buffer == [] then NoSuchElement
    else Returns(s.buffer[0])
  }

  /** An interrupted wait leaves the flag as it finds it. */
  function GetPicture(m: Mon, camNumber: int, interrupted: bool): Mon {
    var c := CamOf(camNumber);
    var s := m.Of(c);
    if !s.available && !interrupted then m
    else m.With(c, s.(available := interrupted && s.available, buffer := if s.buffer == [] then [] else s.buffer[1..]))
  }

  function SetMode(m: Mon, mode: int): Mon {
    if mode == MODE_AUTO then m.(modeIsSetToAuto := true) else m.(mode := mode, modeToSend := mode - 1)
  }

  function SetForcedSync(m: Mon, sync: bool): Mon {
    if sync then m.(sync := m.sync.(force := true)) else m
  }

  function SetMotionDetected(m: Mon, camNumber: int, detected: bool): Mon {
    var c := CamOf(camNumber);
    var m' := m.With(c, m.Of(c).(motion := detected));
    if m'.mode != MODE_AUTO then m'
    else m'.(modeToSend := if m'.one.motion || m'.two.motion then 1 else 0)
  }
}
