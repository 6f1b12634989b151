/** The sync and async decisions of the client monitor, over whole runs of deliveries. */
module SyncTheorems {
  import opened MonitorSpec

  /** A stored picture as the synchronization logic sees it. */
  datatype Delivery = Delivery(cam: Cam, stamp: int)

  function InitSync(): Sync {
    Sync(false, false, [], [], 0, 0)
  }

  /** The code's state after a run of deliveries that starts in s. */
  function AfterFrom(s: Sync, fs: seq<Delivery>): Sync {
    if fs == [] then s
    else
      var f := fs[|fs| - 1];
      Deliver(AfterFrom(s, fs[..|fs| - 1]), f.cam, f.stamp)
  }

  /** The code's state after a run of deliveries. */
  function After(fs: seq<Delivery>): Sync {
    AfterFrom(InitSync(), fs)
  }

  // ---- A reference definition on the run alone, without queues

  /** The stamp of the camera's latest delivery, 0 before its first one. */
  function Latest(fs: seq<Delivery>, c: Cam): int {
    if fs == [] then 0
    else if fs[|fs| - 1].cam == c then fs[|fs| - 1].stamp
    else Latest(fs[..|fs| - 1], c)
  }

  function OtherLatest(fs: seq<Delivery>, i: nat): int
    requires i < |fs|
  {
    Latest(fs[..i], OtherCam(fs[i].cam))
  }

  /** Delivery i is compared with the other camera's latest one. */
  predicate Checked(fs: seq<Delivery>, i: nat)
    requires i < |fs|
  {
    OtherLatest(fs, i) != 0
  }

  predicate LateAt(fs: seq<Delivery>, i: nat)
    requires i < |fs|
  {
    Late(fs[i].stamp, OtherLatest(fs, i))
  }

  /** Each camera's stamps never decrease. */
  predicate Monotone(fs: seq<Delivery>) {
    forall i :: 0 <= i < |fs| ==> fs[i].stamp >= Latest(fs[..i], fs[i].cam)
  }

  /** Where the late deliveries since the last conforming or behind delivery, of either camera, start. */
  function LateFrom(fs: seq<Delivery>): (k: nat)
    ensures k <= |fs|
  {
    if fs == [] then 0
    else if Checked(fs, |fs| - 1) && !LateAt(fs, |fs| - 1) then |fs|
    else LateFrom(fs[..|fs| - 1])
  }

  /** Camera c's checked deliveries since then. */
  function LateIndices(fs: seq<Delivery>, c: Cam): (ks: seq<nat>)
    ensures forall j :: 0 <= j < |ks| ==> ks[j] < |fs|
  {
    if fs == [] then []
    else
      var n := |fs| - 1;
      if !Checked(fs, n) then LateIndices(fs[..n], c)
      else if !LateAt(fs, n) then []
      else if fs[n].cam == c then LateIndices(fs[..n], c) + [n]
      else LateIndices(fs[..n], c)
  }

  function StampsAt(fs: seq<Delivery>, ks: seq<nat>): (q: seq<int>)
    requires forall j :: 0 <= j < |ks| ==> ks[j] < |fs|
    ensures |q| == |ks| && forall j :: 0 <= j < |q| ==> q[j] == fs[ks[j]].stamp
  {
    seq(|ks|, j requires 0 <= j < |ks| => fs[ks[j]].stamp)
  }

  /** Their stamps. */
  function LateStamps(fs: seq<Delivery>, c: Cam): seq<int> {
    StampsAt(fs, LateIndices(fs, c))
  }

  /** One more delivery does not change the stamps of those before it. */
  lemma StampsAtMore(fs: seq<Delivery>, f: Delivery, ks: seq<nat>)
    requires forall j :: 0 <= j < |ks| ==> ks[j] < |fs|
    ensures StampsAt(fs + [f], ks) == StampsAt(fs, ks)
    ensures StampsAt(fs + [f], ks + [|fs|]) == StampsAt(fs, ks) + [f.stamp]
  {
  }

  /** The stamps past a threshold, wherever they stand. */
  function Beyond(q: seq<int>, t: int): seq<int> {
    if q == [] then [] else (if q[0] > t then [q[0]] else []) + Beyond(q[1..], t)
  }

  /** Synchronous as the run alone defines it: a conforming delivery enters; a late one leaves when ten late stamps
      of its camera lie more than the tolerance past the other camera's latest. */
  predicate InSync(fs: seq<Delivery>) {
    fs != [] &&
    var n := |fs| - 1;
    var was := InSync(fs[..n]);
    var other := OtherLatest(fs, n);
    if !Checked(fs, n) then was
    else if Conforming(fs[n].stamp, other) then true
    else if Behind(fs[n].stamp, other) then was
    else was && |Beyond(LateStamps(fs, fs[n].cam), other + SYNC_TOLERANCE_MILLIS)| < DELAYED_FRAMES_TOLERANCE
  }

  // ---- Filtering and trimming

  predicate Sorted(q: seq<int>) {
    forall i, j :: 0 <= i < j < |q| ==> q[i] <= q[j]
  }

  predicate AtMost(q: seq<int>, t: int) {
    forall i :: 0 <= i < |q| ==> q[i] <= t
  }

  lemma {:induction false} BeyondAppend(q: seq<int>, x: int, t: int)
    ensures Beyond(q + [x], t) == Beyond(q, t) + if x > t then [x] else []
  {
    if q == [] {
      assert [x][1..] == [] && q + [x] == [x];
    } else {
      BeyondAppend(q[1..], x, t);
      assert (q + [x])[1..] == q[1..] + [x];
      assert (q + [x])[0] == q[0];
      var head := if q[0] > t then [q[0]] else [];
      var tail := if x > t then [x] else [];
      assert head + (Beyond(q[1..], t) + tail) == (head + Beyond(q[1..], t)) + tail;
    }
  }

  lemma {:induction false} BeyondAll(q: seq<int>, t: int)
    requires forall i :: 0 <= i < |q| ==> q[i] > t
    ensures Beyond(q, t) == q
  {
    if q != [] {
      BeyondAll(q[1..], t);
      assert q == [q[0]] + q[1..];
    }
  }

  lemma {:induction false} BeyondNone(q: seq<int>, t: int)
    requires AtMost(q, t)
    ensures Beyond(q, t) == []
  {
    if q != [] {
      BeyondNone(q[1..], t);
    }
  }

  lemma {:induction false} BeyondBeyond(q: seq<int>, t: int, u: int)
    requires t <= u
    ensures Beyond(Beyond(q, t), u) == Beyond(q, u)
  {
    if q != [] {
      BeyondBeyond(q[1..], t, u);
      if q[0] > t {
        assert Beyond(q, t)[1..] == Beyond(q[1..], t);
      } else {
        assert Beyond(q, t) == Beyond(q[1..], t);
      }
    }
  }

  /** On a sorted queue popping from the front filters the whole queue. */
  lemma {:induction false} TrimIsFilter(q: seq<int>, other: int)
    requires Sorted(q)
    ensures TrimFront(q, other) == Beyond(q, other + SYNC_TOLERANCE_MILLIS)
  {
    if q != [] {
      if Late(q[0], other) {
        BeyondAll(q, other + SYNC_TOLERANCE_MILLIS);
      } else {
        TrimIsFilter(q[1..], other);
      }
    }
  }

  /** No stamp behind a late one is within the tolerance. */
  predicate LateStaysLate(q: seq<int>, other: int) {
    forall i, j :: 0 <= i < j < |q| && Late(q[i], other) ==> Late(q[j], other)
  }

  lemma LateStaysLateTail(q: seq<int>, other: int)
    requires q != []
    ensures LateStaysLate(q, other) <==>
            LateStaysLate(q[1..], other) && (Late(q[0], other) ==> forall j :: 0 <= j < |q| ==> Late(q[j], other))
  {
    if LateStaysLate(q[1..], other) && (Late(q[0], other) ==> forall j :: 0 <= j < |q| ==> Late(q[j], other)) {
      forall i, j | 0 <= i < j < |q| && Late(q[i], other) ensures Late(q[j], other) {
        if i > 0 {
          assert Late(q[1..][i - 1], other);
          assert Late(q[1..][j - 1], other);
        }
      }
    }
    if LateStaysLate(q, other) {
      forall i, j | 0 <= i < j < |q[1..]| && Late(q[1..][i], other) ensures Late(q[1..][j], other) {
        assert Late(q[i + 1], other);
        assert Late(q[j + 1], other);
      }
    }
  }

  lemma BeyondSame(q: seq<int>, t: int)
    requires Beyond(q, t) == q
    ensures forall i :: 0 <= i < |q| ==> q[i] > t
  {
    BeyondMembers(q, t);
  }

  /** Popping from the front filters exactly the queues in which no stamp behind a late one is within the tolerance. */
  lemma {:induction false} TrimIsFilterIff(q: seq<int>, other: int)
    ensures TrimFront(q, other) == Beyond(q, other + SYNC_TOLERANCE_MILLIS) <==> LateStaysLate(q, other)
  {
    var t := other + SYNC_TOLERANCE_MILLIS;
    if q != [] {
      LateStaysLateTail(q, other);
      if Late(q[0], other) {
        if forall j :: 0 <= j < |q| ==> Late(q[j], other) {
          BeyondAll(q, t);
        } else if Beyond(q, t) == q {
          BeyondSame(q, t);
        }
      } else {
        TrimIsFilterIff(q[1..], other);
      }
    }
  }

  lemma {:induction false} TrimKeeps(q: seq<int>, other: int, top: int)
    requires Sorted(q) && AtMost(q, top)
    ensures Sorted(TrimFront(q, other)) && AtMost(TrimFront(q, other), top)
  {
    if q != [] && !Late(q[0], other) {
      TrimKeeps(q[1..], other, top);
    }
  }

  // ---- The queues simulate the reference

  /** A queue and the full list of late stamps agree above every threshold still to come. */
  ghost predicate Agrees(q: seq<int>, late: seq<int>, top: int, other: int) {
    && Sorted(q) && AtMost(q, top) && Sorted(late) && AtMost(late, top)
    && forall t :: t >= other + SYNC_TOLERANCE_MILLIS ==> Beyond(q, t) == Beyond(late, t)
  }

  lemma AgreesEmpty(top: int, other: int)
    ensures Agrees([], [], top, other)
  {
  }

  /** The stamp stored on entering sync is within the tolerance, so it is never counted. */
  lemma AgreesOnEntry(x: int, other: int)
    requires Conforming(x, other)
    ensures Agrees([x], [], x, other)
  {
    forall t | t >= other + SYNC_TOLERANCE_MILLIS ensures Beyond([x], t) == Beyond([], t) {
      BeyondNone([x], t);
    }
  }

  lemma AgreesLater(q: seq<int>, late: seq<int>, top: int, other: int, top': int, other': int)
    requires Agrees(q, late, top, other) && top <= top' && other <= other'
    ensures Agrees(q, late, top', other')
  {
  }

  /** The queue after a late delivery is the filter of all late stamps. */
  lemma TrimIsRecomputation(q: seq<int>, late: seq<int>, top: int, other: int, x: int)
    requires Agrees(q, late, top, other) && x >= top && Late(x, other)
    ensures TrimFront(q + [x], other) == Beyond(late + [x], other + SYNC_TOLERANCE_MILLIS)
  {
    var t := other + SYNC_TOLERANCE_MILLIS;
    TrimIsFilter(q + [x], other);
    BeyondAppend(q, x, t);
    BeyondAppend(late, x, t);
    assert Beyond(q, t) == Beyond(late, t);
  }

  lemma FilteredAgrees(late: seq<int>, t0: int)
    ensures forall t :: t >= t0 ==> Beyond(Beyond(late, t0), t) == Beyond(late, t)
  {
    forall t | t >= t0 ensures Beyond(Beyond(late, t0), t) == Beyond(late, t) {
      BeyondBeyond(late, t0, t);
    }
  }

  lemma AgreesLate(q: seq<int>, late: seq<int>, top: int, other: int, x: int)
    requires Agrees(q, late, top, other) && x >= top && Late(x, other)
    ensures Agrees(TrimFront(q + [x], other), late + [x], x, other)
  {
    assert Sorted(q + [x]) && AtMost(q + [x], x) && Sorted(late + [x]) && AtMost(late + [x], x);
    TrimIsRecomputation(q, late, top, other, x);
    TrimKeeps(q + [x], other, x);
    FilteredAgrees(late + [x], other + SYNC_TOLERANCE_MILLIS);
  }

  lemma DeliverLate(s: Sync, c: Cam, x: int)
    requires SyncOk(s) && s.synced && !s.force && s.Last(OtherCam(c)) != 0 && Late(x, s.Last(OtherCam(c)))
    ensures var q, s' := TrimFront(s.Stamps(c) + [x], s.Last(OtherCam(c))), Deliver(s, c, x);
            && |q| <= DELAYED_FRAMES_TOLERANCE
            && s'.synced == (|q| < DELAYED_FRAMES_TOLERANCE)
            && (s'.synced ==> s'.Stamps(c) == q && s'.Stamps(OtherCam(c)) == s.Stamps(OtherCam(c)))
  {
  }

  lemma DeliverOnTime(s: Sync, c: Cam, x: int)
    requires SyncOk(s) && !s.force && s.Last(OtherCam(c)) != 0 && !Late(x, s.Last(OtherCam(c)))
    ensures var s' := Deliver(s, c, x);
            && s'.synced == (s.synced || Conforming(x, s.Last(OtherCam(c))))
            && s'.Stamps(OtherCam(c)) == []
            && s'.Stamps(c) == if s.synced || !s'.synced then [] else [x]
  {
  }

  lemma DeliverUnseen(s: Sync, c: Cam, x: int)
    requires s.Last(OtherCam(c)) == 0 || (!s.synced && !s.force && Late(x, s.Last(OtherCam(c))))
    ensures Deliver(s, c, x) == s.WithLast(c, x)
  {
  }

  /** The resting invariant holds after every delivery, forced or not, monotone or not. */
  lemma SyncOkStep(s: Sync, c: Cam, x: int)
    requires SyncOk(s)
    ensures SyncOk(Deliver(s, c, x)) && Deliver(s, c, x).force == s.force
    ensures Deliver(s, c, x).Last(c) == x && Deliver(s, c, x).Last(OtherCam(c)) == s.Last(OtherCam(c))
  {
  }

  ghost predicate CamAgrees(s: Sync, fs: seq<Delivery>, c: Cam) {
    Agrees(s.Stamps(c), LateStamps(fs, c), s.Last(c), s.Last(OtherCam(c)))
  }

  /** The state after a run, compared with the reference. */
  ghost predicate Simulates(s: Sync, fs: seq<Delivery>) {
    && !s.force && SyncOk(s)
    && (forall c :: s.Last(c) == Latest(fs, c))
    && s.synced == InSync(fs)
    && (s.synced ==> forall c :: CamAgrees(s, fs, c))
  }

  /** What one more delivery does to the reference. */
  lemma ReferenceStep(fs: seq<Delivery>, f: Delivery)
    ensures var fs', other := fs + [f], Latest(fs, OtherCam(f.cam));
            && OtherLatest(fs', |fs|) == other
            && Latest(fs', f.cam) == f.stamp && Latest(fs', OtherCam(f.cam)) == other
            && LateStamps(fs', OtherCam(f.cam)) == (if other != 0 && !Late(f.stamp, other) then [] else LateStamps(fs, OtherCam(f.cam)))
            && LateStamps(fs', f.cam) == (if other == 0 then LateStamps(fs, f.cam)
                                          else if Late(f.stamp, other) then LateStamps(fs, f.cam) + [f.stamp] else [])
            && InSync(fs') == if other == 0 then InSync(fs)
                              else if Late(f.stamp, other) then
                                InSync(fs) && |Beyond(LateStamps(fs', f.cam), other + SYNC_TOLERANCE_MILLIS)| < DELAYED_FRAMES_TOLERANCE
                              else InSync(fs) || Conforming(f.stamp, other)
  {
    assert (fs + [f])[..|fs|] == fs;
    StampsAtMore(fs, f, LateIndices(fs, f.cam));
    StampsAtMore(fs, f, LateIndices(fs, OtherCam(f.cam)));
  }

  lemma SimulationStep(s: Sync, fs: seq<Delivery>, f: Delivery)
    requires Simulates(s, fs) && f.stamp >= Latest(fs, f.cam)
    ensures Simulates(Deliver(s, f.cam, f.stamp), fs + [f])
  {
    var c, x, o, s', fs' := f.cam, f.stamp, OtherCam(f.cam), Deliver(s, f.cam, f.stamp), fs + [f];
    var other := s.Last(o);
    ReferenceStep(fs, f);
    SyncOkStep(s, c, x);
    assert forall d :: s'.Last(d) == Latest(fs', d) by {
      forall d ensures s'.Last(d) == Latest(fs', d) { assert d == c || d == o; }
    }
    assert s.synced ==> CamAgrees(s, fs, c) && CamAgrees(s, fs, o);
    if other == 0 || (!s.synced && Late(x, other)) {
      DeliverUnseen(s, c, x);
      if s.synced {
        AgreesLater(s.Stamps(c), LateStamps(fs, c), s.Last(c), other, x, other);
        AgreesLater(s.Stamps(o), LateStamps(fs, o), other, s.Last(c), other, x);
      }
    } else if Late(x, other) {
      DeliverLate(s, c, x);
      TrimIsRecomputation(s.Stamps(c), LateStamps(fs, c), s.Last(c), other, x);
      AgreesLate(s.Stamps(c), LateStamps(fs, c), s.Last(c), other, x);
      AgreesLater(s.Stamps(o), LateStamps(fs, o), other, s.Last(c), other, x);
    } else {
      DeliverOnTime(s, c, x);
      AgreesEmpty(x, other);
      AgreesEmpty(other, x);
      if !s.synced && s'.synced {
        AgreesOnEntry(x, other);
      }
    }
    assert s'.synced ==> CamAgrees(s', fs', c) && CamAgrees(s', fs', o);
    forall d | s'.synced ensures CamAgrees(s', fs', d) { assert d == c || d == o; }
  }

  lemma MonotonePrefix(fs: seq<Delivery>)
    requires Monotone(fs) && fs != []
    ensures Monotone(fs[..|fs| - 1])
    ensures fs[|fs| - 1].stamp >= Latest(fs[..|fs| - 1], fs[|fs| - 1].cam)
  {
    var front := fs[..|fs| - 1];
    assert forall i :: 0 <= i < |front| ==> front[..i] == fs[..i];
  }

  lemma {:induction false} Simulation(fs: seq<Delivery>)
    requires Monotone(fs)
    ensures Simulates(After(fs), fs)
  {
    if fs == [] {
      AgreesEmpty(0, 0);
    } else {
      var n := |fs| - 1;
      MonotonePrefix(fs);
      Simulation(fs[..n]);
      SimulationStep(After(fs[..n]), fs[..n], fs[n]);
      assert fs[..n] + [fs[n]] == fs;
    }
  }

  // ---- Main results

  /** On every run with nondecreasing stamps the code is synchronous exactly when the run alone says so. */
  lemma SyncedIff(fs: seq<Delivery>)
    requires Monotone(fs)
    ensures After(fs).synced == InSync(fs)
  {
    Simulation(fs);
  }

  lemma AfterAppend(fs: seq<Delivery>, f: Delivery)
    ensures After(fs + [f]) == Deliver(After(fs), f.cam, f.stamp)
  {
    assert (fs + [f])[..|fs|] == fs;
  }

  /** The state before the last delivery of a monotone run. */
  lemma BeforeLast(fs: seq<Delivery>, f: Delivery)
    requires Monotone(fs + [f])
    ensures Simulates(After(fs), fs) && f.stamp >= Latest(fs, f.cam)
  {
    assert (fs + [f])[..|fs|] == fs;
    MonotonePrefix(fs + [f]);
    Simulation(fs);
  }

  lemma Recomputation(s: Sync, fs: seq<Delivery>, f: Delivery)
    requires Simulates(s, fs) && f.stamp >= Latest(fs, f.cam)
    requires s.synced && s.Last(OtherCam(f.cam)) != 0 && Late(f.stamp, s.Last(OtherCam(f.cam)))
    ensures TrimFront(s.Stamps(f.cam) + [f.stamp], s.Last(OtherCam(f.cam)))
         == Beyond(LateStamps(fs + [f], f.cam), s.Last(OtherCam(f.cam)) + SYNC_TOLERANCE_MILLIS)
    ensures Sorted(LateStamps(fs + [f], f.cam))
  {
    var c, q, late, other := f.cam, s.Stamps(f.cam), LateStamps(fs, f.cam), s.Last(OtherCam(f.cam));
    assert CamAgrees(s, fs, c);
    TrimIsRecomputation(q, late, s.Last(c), other, f.stamp);
    assert LateStamps(fs + [f], c) == late + [f.stamp] by { ReferenceStep(fs, f); }
    assert Sorted(late + [f.stamp]);
  }

  /** The incrementally trimmed queue equals the filter over all late stamps of the delivering camera. */
  lemma QueueIsRecomputation(fs: seq<Delivery>, f: Delivery)
    requires Monotone(fs + [f]) && After(fs).synced
    requires Checked(fs + [f], |fs|) && LateAt(fs + [f], |fs|)
    ensures TrimFront(After(fs).Stamps(f.cam) + [f.stamp], Latest(fs, OtherCam(f.cam)))
         == Beyond(LateStamps(fs + [f], f.cam), Latest(fs, OtherCam(f.cam)) + SYNC_TOLERANCE_MILLIS)
    ensures Sorted(LateStamps(fs + [f], f.cam))
  {
    BeforeLast(fs, f);
    ReferenceStep(fs, f);
    Recomputation(After(fs), fs, f);
  }

  /** Synchronization is lost exactly on the late delivery that makes ten. */
  lemma LosesSyncIff(fs: seq<Delivery>, f: Delivery)
    requires Monotone(fs + [f]) && After(fs).synced
    ensures !After(fs + [f]).synced <==>
            && Checked(fs + [f], |fs|) && LateAt(fs + [f], |fs|)
            && |Beyond(LateStamps(fs + [f], f.cam), Latest(fs, OtherCam(f.cam)) + SYNC_TOLERANCE_MILLIS)| == DELAYED_FRAMES_TOLERANCE
  {
    BeforeLast(fs, f);
    ReferenceStep(fs, f);
    AfterAppend(fs, f);
    var s, o := After(fs), OtherCam(f.cam);
    if s.Last(o) == 0 {
      DeliverUnseen(s, f.cam, f.stamp);
    } else if Late(f.stamp, s.Last(o)) {
      QueueIsRecomputation(fs, f);
      DeliverLate(s, f.cam, f.stamp);
    } else {
      DeliverOnTime(s, f.cam, f.stamp);
    }
  }

  predicate Increasing(ks: seq<nat>) {
    forall i, j :: 0 <= i < j < |ks| ==> ks[i] < ks[j]
  }

  /** What a run says about delivery i does not change when the run goes on. */
  lemma PrefixFacts(fs: seq<Delivery>)
    requires fs != []
    ensures var front := fs[..|fs| - 1];
            forall i: nat :: i < |front| ==>
              front[i] == fs[i] && (Checked(front, i) <==> Checked(fs, i)) && (LateAt(front, i) <==> LateAt(fs, i))
  {
    var front := fs[..|fs| - 1];
    assert forall i :: 0 <= i < |front| ==> front[..i] == fs[..i];
  }

  lemma {:induction false} IndicesIncrease(fs: seq<Delivery>, c: Cam)
    ensures Increasing(LateIndices(fs, c))
    ensures forall j :: 0 <= j < |LateIndices(fs, c)| ==> LateIndices(fs, c)[j] < |fs|
  {
    if fs != [] {
      IndicesIncrease(fs[..|fs| - 1], c);
    }
  }

  /** Every checked delivery from LateFrom on is late. */
  lemma {:induction false} AllLateFrom(fs: seq<Delivery>, i: nat)
    requires LateFrom(fs) <= i < |fs| && Checked(fs, i)
    ensures LateAt(fs, i)
  {
    if i < |fs| - 1 {
      PrefixFacts(fs);
      AllLateFrom(fs[..|fs| - 1], i);
    }
  }

  /** LateIndices lists exactly the camera's checked deliveries from LateFrom on. */
  lemma {:induction false} IndicesAreExact(fs: seq<Delivery>, c: Cam, i: nat)
    ensures i in LateIndices(fs, c) <==> LateFrom(fs) <= i < |fs| && Checked(fs, i) && fs[i].cam == c
  {
    if fs != [] {
      var front := fs[..|fs| - 1];
      IndicesAreExact(front, c, i);
      assert |fs| - 1 !in LateIndices(front, c) by { IndicesIncrease(front, c); }
      if i < |front| {
        assert front[i] == fs[i] && front[..i] == fs[..i];
      }
    }
  }

  lemma {:induction false} BeyondIsSuffix(q: seq<int>, t: int)
    requires Sorted(q)
    ensures |Beyond(q, t)| <= |q| && Beyond(q, t) == q[|q| - |Beyond(q, t)|..]
  {
    if q != [] {
      if q[0] > t {
        BeyondAll(q, t);
      } else {
        BeyondIsSuffix(q[1..], t);
      }
    }
  }

  lemma {:induction false} BeyondMembers(q: seq<int>, t: int)
    ensures forall i :: 0 <= i < |Beyond(q, t)| ==> Beyond(q, t)[i] > t
  {
    if q != [] {
      BeyondMembers(q[1..], t);
    }
  }

  /** Losing synchronization in terms of deliveries: ks are the last ten checked deliveries of the delivering camera,
      each more than the tolerance past the other camera's latest; since the oldest of them every checked delivery of
      either camera was late, none conforming and none behind. */
  lemma WindowOfTen(fs: seq<Delivery>, f: Delivery) returns (ks: seq<nat>)
    requires Monotone(fs + [f]) && After(fs).synced && !After(fs + [f]).synced
    ensures |ks| == DELAYED_FRAMES_TOLERANCE && Increasing(ks) && ks[|ks| - 1] == |fs|
    ensures forall k :: k in ks ==>
              k <= |fs| && (fs + [f])[k].stamp > Latest(fs, OtherCam(f.cam)) + SYNC_TOLERANCE_MILLIS
    ensures forall i: nat :: ks[0] <= i <= |fs| && Checked(fs + [f], i) ==> LateAt(fs + [f], i)
    ensures forall i: nat :: i in ks <==> ks[0] <= i <= |fs| && Checked(fs + [f], i) && (fs + [f])[i].cam == f.cam
  {
    var fs', t := fs + [f], Latest(fs, OtherCam(f.cam)) + SYNC_TOLERANCE_MILLIS;
    LosesSyncIff(fs, f);
    QueueIsRecomputation(fs, f);
    var idx, stamps := LateIndices(fs', f.cam), LateStamps(fs', f.cam);
    var m := LastBeyond(stamps, t);
    ks := idx[m..];
    forall k | k in ks ensures k <= |fs| && fs'[k].stamp > t {
      var j :| 0 <= j < |ks| && ks[j] == k;
      assert stamps[m + j] == fs'[idx[m + j]].stamp;
    }
    WindowIsExact(fs', f.cam, m);
  }

  /** The stamps past a threshold stand at the end of a sorted list. */
  lemma LastBeyond(q: seq<int>, t: int) returns (m: nat)
    requires Sorted(q)
    ensures m + |Beyond(q, t)| == |q| && forall j :: m <= j < |q| ==> q[j] > t
  {
    BeyondIsSuffix(q, t);
    BeyondMembers(q, t);
    m := |q| - |Beyond(q, t)|;
    forall j | m <= j < |q| ensures q[j] > t {
      assert Beyond(q, t)[j - m] == q[j];
    }
  }

  lemma WindowIsExact(fs: seq<Delivery>, c: Cam, m: nat)
    requires m < |LateIndices(fs, c)|
    requires fs[|fs| - 1].cam == c && Checked(fs, |fs| - 1) && LateAt(fs, |fs| - 1)
    ensures var ks := LateIndices(fs, c)[m..];
            && Increasing(ks) && ks[|ks| - 1] == |fs| - 1
            && (forall i: nat :: ks[0] <= i < |fs| && Checked(fs, i) ==> LateAt(fs, i))
            && (forall i: nat :: i in ks <==> ks[0] <= i < |fs| && Checked(fs, i) && fs[i].cam == c)
  {
    var idx := LateIndices(fs, c);
    IndicesIncrease(fs, c);
    IndicesAreExact(fs, c, idx[m]);
    forall i: nat | idx[m] <= i < |fs| && Checked(fs, i) ensures LateAt(fs, i) {
      AllLateFrom(fs, i);
    }
    forall i: nat
      ensures i in idx[m..] <==> idx[m] <= i < |fs| && Checked(fs, i) && fs[i].cam == c
    {
      SuffixMembers(idx, m, i);
      IndicesAreExact(fs, c, i);
    }
  }

  lemma SuffixMembers(ks: seq<nat>, m: nat, x: nat)
    requires Increasing(ks) && m < |ks|
    ensures x in ks[m..] <==> x in ks && x >= ks[m]
  {
    if x in ks[m..] {
      var j :| 0 <= j < |ks[m..]| && ks[m..][j] == x;
      assert ks[m + j] == x;
    }
    if x in ks && x >= ks[m] {
      var j :| 0 <= j < |ks| && ks[j] == x;
      assert j >= m && ks[m..][j - m] == x;
    }
  }

  // ---- Forced synchronization

  /** Some delivery of the run finds the other camera's latest stamp nonzero. */
  predicate SomeChecked(s: Sync, fs: seq<Delivery>) {
    fs != [] &&
    (SomeChecked(s, fs[..|fs| - 1]) || AfterFrom(s, fs[..|fs| - 1]).Last(OtherCam(fs[|fs| - 1].cam)) != 0)
  }

  /** Forced synchronization is absorbing: the first checked delivery makes the monitor synchronous for good,
      whatever the stamps, and nothing else does. */
  lemma {:induction false} ForcedSyncAbsorbs(s: Sync, fs: seq<Delivery>)
    requires s.force
    ensures AfterFrom(s, fs).force
    ensures AfterFrom(s, fs).synced <==> s.synced || SomeChecked(s, fs)
  {
    if fs != [] {
      ForcedSyncAbsorbs(s, fs[..|fs| - 1]);
    }
  }

  /** The resting invariant: not synchronous means both queues empty, and no queue ever rests with ten stamps. */
  lemma {:induction false} SyncOkAlways(s: Sync, fs: seq<Delivery>)
    requires SyncOk(s)
    ensures SyncOk(AfterFrom(s, fs))
  {
    if fs != [] {
      var f := fs[|fs| - 1];
      SyncOkAlways(s, fs[..|fs| - 1]);
      SyncOkStep(AfterFrom(s, fs[..|fs| - 1]), f.cam, f.stamp);
    }
  }

  // ---- Queues that are not sorted

  /** The stamps 500 of either camera, then 1500 and 750 of camera 1, then 960 of camera 2. */
  function StaleRun(): seq<Delivery> {
    [Delivery(Two, 500)] + [Delivery(One, 500)] + [Delivery(One, 1500)] + [Delivery(One, 750)] + [Delivery(Two, 960)]
  }

  /** What the code and the reference say after a run: the state, and camera 1's late stamps. */
  ghost predicate Reaches(fs: seq<Delivery>, s: Sync, late: seq<int>) {
    After(fs) == s && LateStamps(fs, One) == late && Latest(fs, One) == s.last1 && Latest(fs, Two) == s.last2
  }

  lemma ReachesNext(fs: seq<Delivery>, s: Sync, late: seq<int>, f: Delivery, s': Sync, late': seq<int>)
    requires Reaches(fs, s, late) && Deliver(s, f.cam, f.stamp) == s'
    requires var other := s.Last(OtherCam(f.cam));
             late' == if other != 0 && !Late(f.stamp, other) then []
                      else if other != 0 && f.cam == One then late + [f.stamp] else late
    ensures Reaches(fs + [f], s', late')
  {
    AfterAppend(fs, f);
    ReferenceStep(fs, f);
    SyncLasts(s, f);
  }

  lemma SyncLasts(s: Sync, f: Delivery)
    ensures Deliver(s, f.cam, f.stamp).Last(f.cam) == f.stamp
    ensures Deliver(s, f.cam, f.stamp).Last(OtherCam(f.cam)) == s.Last(OtherCam(f.cam))
  {
  }

  lemma StaleRunState()
    ensures Reaches(StaleRun(), Sync(true, false, [1500, 750], [960], 750, 960), [1500, 750])
  {
    var r0: seq<Delivery> := [];
    var r1 := r0 + [Delivery(Two, 500)];
    var r2 := r1 + [Delivery(One, 500)];
    var r3 := r2 + [Delivery(One, 1500)];
    var r4 := r3 + [Delivery(One, 750)];
    var s1, s2 := Sync(false, false, [], [], 0, 500), Sync(true, false, [500], [], 500, 500);
    var s3, s4 := Sync(true, false, [1500], [], 1500, 500), Sync(true, false, [1500, 750], [], 750, 500);
    ReachesNext(r0, InitSync(), [], Delivery(Two, 500), s1, []);
    ReachesNext(r1, s1, [], Delivery(One, 500), s2, []);
    assert [500] + [1500] == [500, 1500] && [500, 1500][1..] == [1500] && TrimFront([1500], 500) == [1500];
    ReachesNext(r2, s2, [], Delivery(One, 1500), s3, [1500]);
    ReachesNext(r3, s3, [1500], Delivery(One, 750), s4, [1500, 750]);
    ReachesNext(r4, s4, [1500, 750], Delivery(Two, 960), Sync(true, false, [1500, 750], [960], 750, 960), [1500, 750]);
  }

  /** Without nondecreasing stamps the queue is not the filter: in this run a stale stamp hides behind a later one. */
  lemma MonotonicityNeeded()
    ensures exists fs, f: Delivery ::
              && After(fs).synced && Checked(fs + [f], |fs|) && LateAt(fs + [f], |fs|)
              && TrimFront(After(fs).Stamps(f.cam) + [f.stamp], Latest(fs, OtherCam(f.cam)))
              != Beyond(LateStamps(fs + [f], f.cam), Latest(fs, OtherCam(f.cam)) + SYNC_TOLERANCE_MILLIS)
  {
    var fs, f := StaleRun(), Delivery(One, 1300);
    StaleRunState();
    ReferenceStep(fs, f);
    var q := [1500, 750, 1300];
    assert LateStamps(fs + [f], One) == q == After(fs).Stamps(One) + [1300];
    assert TrimFront(q, 960) == q;
    BeyondMembers(q, 1160);
    assert q[1] == 750;
    assert Beyond(q, 1160) != q;
  }
}
