/** The rolling delay average of DisplayMonitor.java. */
module DisplayMonitor {
  import opened Bytes
  import opened MonitorSpec
  import opened Options

  const WINDOW := 180
  const REFRESH_MILLIS := 2000

  // ---- The average

  function Sum(samples: seq<int>): int {
    if samples == [] then 0 else samples[0] + Sum(samples[1..])
  }

  /** The sum of the samples, each first divided by n with truncation. */
  function TruncatedSum(samples: seq<int>, n: nat): int
    requires n > 0
  {
    if samples == [] then 0 else TruncDiv(samples[0], n) + TruncatedSum(samples[1..], n)
  }

  /** The average shown: every sample is divided on its own. */
  function Average(samples: seq<int>): int
    requires samples != []
  {
    TruncatedSum(samples, |samples|)
  }

  lemma Distribute(n: int, q: int, t: int)
    ensures n * (q + t) == n * q + n * t
  {
  }

  lemma OneMore(k: int, m: int)
    ensures k * m == m + (k - 1) * m
  {
  }

  lemma {:induction false} TruncationError(samples: seq<int>, n: nat)
    requires n > 0
    ensures -(|samples| * (n - 1)) <= Sum(samples) - n * TruncatedSum(samples, n) <= |samples| * (n - 1)
  {
    if samples != [] {
      TruncationError(samples[1..], n);
      TruncDivRemainder(samples[0], n);
      Distribute(n, TruncDiv(samples[0], n), TruncatedSum(samples[1..], n));
      OneMore(|samples|, n - 1);
    }
  }

  /** n times the shown value is within n * (n - 1) of the sum of the n samples: it is at most n - 1 off the true mean. */
  predicate CloseToMean(samples: seq<int>, shown: int) {
    var n := |samples|;
    -(n * (n - 1)) <= Sum(samples) - n * shown <= n * (n - 1)
  }

  lemma AverageError(samples: seq<int>)
    requires samples != []
    ensures CloseToMean(samples, Average(samples))
  {
    TruncationError(samples, |samples|);
  }

  lemma TruncDivSmall(v: int, n: nat)
    requires 0 <= v < n
    ensures TruncDiv(v, n) == 0
  {
  }

  lemma {:induction false} ConstantSamples(samples: seq<int>, v: int, n: nat)
    requires 0 <= v < n && forall i :: 0 <= i < |samples| ==> samples[i] == v
    ensures Sum(samples) == |samples| * v && TruncatedSum(samples, n) == 0
  {
    if samples != [] {
      assert samples[0] == v && |samples[1..]| == |samples| - 1;
      ConstantSamples(samples[1..], v, n);
      OneMore(|samples|, v);
      TruncDivSmall(v, n);
    }
  }

  /** The bound is reached: n samples of n - 1 milliseconds are shown as 0. */
  lemma ErrorIsReached(n: nat)
    requires n > 0
    ensures exists samples :: |samples| == n && Sum(samples) - n * Average(samples) == n * (n - 1)
  {
    var samples := seq(n, i => n - 1);
    ConstantSamples(samples, n - 1, n);
    assert |samples| == n && Average(samples) == 0;
  }

  // ---- The window

  /** The last k elements. */
  function LastOf(s: seq<int>, k: nat): (r: seq<int>)
    ensures |r| == if |s| <= k then |s| else k
  {
    if |s| <= k then s else LastOf(s[1..], k)
  }

  lemma {:induction false} LastOfIsDrop(s: seq<int>, k: nat)
    ensures LastOf(s, k) == if |s| <= k then s else s[|s| - k..]
  {
    if |s| > k {
      LastOfIsDrop(s[1..], k);
    }
  }

  /** What checkDelay leaves of a list outside IDLE. */
  function Kept(q: seq<int>): seq<int> {
    if |q| >= WINDOW then q[1..] else q
  }

  /** A list of the last 179 samples, with one more added, is the last 180; without its first it is the last 179 again. */
  lemma NewestWindow(since: seq<int>, sample: int)
    ensures LastOf(since, WINDOW - 1) + [sample] == LastOf(since + [sample], WINDOW)
    ensures Kept(LastOf(since, WINDOW - 1) + [sample]) == LastOf(since + [sample], WINDOW - 1)
  {
    LastOfIsDrop(since, WINDOW - 1);
    LastOfIsDrop(since + [sample], WINDOW);
    LastOfIsDrop(since + [sample], WINDOW - 1);
  }

  // ---- The state and its updates

  /** The readings of the clock: for the sample, for a new interval, and for the length of the interval. */
  datatype Clocks = Clocks(sample: int, start: int, check: int)

  /** The fields of the display monitor that the shown delay depends on; one average serves both cameras. */
  datatype Disp = Disp(average: int, timeOfStart: int, mode: int, rolling1: seq<int>, rolling2: seq<int>) {
    function Rolling(c: Cam): seq<int> { if c.One? then rolling1 else rolling2 }

    /** When the running interval started. */
    function Start(k: Clocks): int { if timeOfStart == -1 then k.start else timeOfStart }

    /** The average is recomputed outside IDLE when the interval has lasted two seconds. */
    predicate Refreshes(k: Clocks) {
      mode != MODE_IDLE && k.check - Start(k) >= REFRESH_MILLIS
    }
  }

  function InitDisp(): Disp {
    Disp(0, -1, 0, [], [])
  }

  /** A list after a picture: with its newest sample, cut, or cleared; the list of the other camera stays. */
  function ListStep(q: seq<int>, mode: int, mine: bool, sample: int): seq<int> {
    if !mine then q else if mode == MODE_IDLE then [] else Kept(q + [sample])
  }

  /** updatePicture1 and updatePicture2. */
  function Updated(d: Disp, c: Cam, stamp: int, k: Clocks): Disp {
    var sample := k.sample - stamp;
    Disp(if d.Refreshes(k) then Average(d.Rolling(c) + [sample]) else d.average,
         if d.Refreshes(k) then -1 else d.Start(k),
         d.mode,
         ListStep(d.rolling1, d.mode, c.One?, sample),
         ListStep(d.rolling2, d.mode, c.Two?, sample))
  }

  /** The delay they show. */
  function Shown(d: Disp, c: Cam, stamp: int, k: Clocks): int {
    if d.mode == MODE_IDLE then k.sample - stamp else Updated(d, c, stamp, k).average
  }

  class Monitor {
    var currentAverageDelay: int
    var timeOfStart: int
    var mode: int
    var rollingTimestampAverage1: seq<int>
    var rollingTimestampAverage2: seq<int>

    ghost function View(): Disp
      reads this
    {
      Disp(currentAverageDelay, timeOfStart, mode, rollingTimestampAverage1, rollingTimestampAverage2)
    }

    constructor ()
      ensures View() == InitDisp()
    {
      currentAverageDelay := 0;
      timeOfStart := -1;
      mode := 0;
      rollingTimestampAverage1 := [];
      rollingTimestampAverage2 := [];
    }

    method SetMode(mode: int)
      modifies this`mode
      ensures View() == old(View()).(mode := mode)
    {
      this.mode := mode;
    }

    /** The averaging loop of checkDelay. */
    method Recompute(rolling: seq<int>)
      requires rolling != []
      modifies this`timeOfStart, this`currentAverageDelay
      ensures timeOfStart == -1 && currentAverageDelay == Average(rolling)
    {
      currentAverageDelay := 0;
      timeOfStart := -1;
      for i := 0 to |rolling|
        invariant currentAverageDelay + TruncatedSum(rolling[i..], |rolling|) == Average(rolling)
        invariant timeOfStart == -1
      {
        currentAverageDelay := currentAverageDelay + TruncDiv(rolling[i], |rolling|);
        assert rolling[i..][1..] == rolling[i + 1..];
      }
      assert rolling[|rolling|..] == [];
    }

    /** checkDelay on a list with the newest sample already added: the delay, and what is left of the list. */
    method CheckDelay(rolling: seq<int>, k: Clocks) returns (delay: int, rolling': seq<int>)
      requires rolling != []
      modifies this`timeOfStart, this`currentAverageDelay
      ensures var d := old(View());
              && currentAverageDelay == (if d.Refreshes(k) then Average(rolling) else d.average)
              && timeOfStart == if d.Refreshes(k) then -1 else d.Start(k)
      ensures rolling' == if mode == MODE_IDLE then [] else Kept(rolling)
      ensures delay == if mode == MODE_IDLE then rolling[|rolling| - 1] else currentAverageDelay
    {
      rolling' := rolling;
      if timeOfStart == -1 {
        timeOfStart := k.start;
      }
      if mode == MODE_IDLE {
        delay := rolling[|rolling| - 1];
        rolling' := [];
      } else {
        if k.check - timeOfStart >= REFRESH_MILLIS {
          Recompute(rolling);
        }
        delay := currentAverageDelay;
      }
      if |rolling'| >= WINDOW {
        rolling' := rolling'[1..];
      }
    }

    method UpdatePicture1(timeStamp: int, k: Clocks) returns (shown: int)
      modifies this
      ensures View() == Updated(old(View()), One, timeStamp, k)
      ensures shown == Shown(old(View()), One, timeStamp, k)
    {
      rollingTimestampAverage1 := rollingTimestampAverage1 + [k.sample - timeStamp];
      shown, rollingTimestampAverage1 := CheckDelay(rollingTimestampAverage1, k);
    }

    method UpdatePicture2(timeStamp: int, k: Clocks) returns (shown: int)
      modifies this
      ensures View() == Updated(old(View()), Two, timeStamp, k)
      ensures shown == Shown(old(View()), Two, timeStamp, k)
    {
      rollingTimestampAverage2 := rollingTimestampAverage2 + [k.sample - timeStamp];
      shown, rollingTimestampAverage2 := CheckDelay(rollingTimestampAverage2, k);
    }
  }

  // ---- Whole runs

  datatype Event = Update(cam: Cam, stamp: int, clocks: Clocks) | SetMode(mode: int)

  function Apply(d: Disp, e: Event): Disp {
    match e
    case Update(c, stamp, k) => Updated(d, c, stamp, k)
    case SetMode(mode) => d.(mode := mode)
  }

  /** The state after the first n events of a run from the constructor. */
  function After(es: seq<Event>, n: nat): Disp
    requires n <= |es|
  {
    if n == 0 then InitDisp() else Apply(After(es, n - 1), es[n - 1])
  }

  /** The mode they leave. */
  function ModeOf(es: seq<Event>, n: nat): int
    requires n <= |es|
  {
    if n == 0 then 0 else if es[n - 1].SetMode? then es[n - 1].mode else ModeOf(es, n - 1)
  }

  /** A camera's samples since its last picture in IDLE. */
  function Since(es: seq<Event>, n: nat, c: Cam): seq<int>
    requires n <= |es|
  {
    if n == 0 then [] else SinceApply(ModeOf(es, n - 1), es[n - 1], Since(es, n - 1, c), c)
  }

  function SinceApply(mode: int, e: Event, since: seq<int>, c: Cam): seq<int> {
    if e.SetMode? then since else SinceStep(since, mode, e.cam == c, e.clocks.sample - e.stamp)
  }

  function SinceStep(since: seq<int>, mode: int, mine: bool, sample: int): seq<int> {
    if !mine then since else if mode == MODE_IDLE then [] else since + [sample]
  }

  // ---- Refreshes, as the run alone determines them

  /** The first update among events m to n - 1 at which an interval can start, n if there is none. A clock that reads -1
      then leaves no mark. */
  function StartAt(es: seq<Event>, m: nat, n: nat): (k: nat)
    requires m <= n <= |es|
    ensures m <= k <= n
    ensures k < n ==> es[k].Update? && es[k].clocks.start != -1
    ensures forall i :: m <= i < k && es[i].Update? ==> es[i].clocks.start == -1
    decreases n - m
  {
    if m == n || (es[m].Update? && es[m].clocks.start != -1) then m else StartAt(es, m + 1, n)
  }

  /** The number of events up to and including the last refresh among the first n, 0 if there was none. */
  function RefreshEnd(es: seq<Event>, n: nat): (m: nat)
    requires n <= |es|
    ensures m <= n
    decreases n, 0
  {
    if n == 0 then 0 else if RefreshAt(es, n - 1) then n else RefreshEnd(es, n - 1)
  }

  /** Event i is a refresh: an update outside IDLE, two seconds or more past the start of the interval, which is the first
      update since the last refresh, or event i itself. */
  predicate RefreshAt(es: seq<Event>, i: nat)
    requires i < |es|
    decreases i, 1
  {
    && es[i].Update? && ModeOf(es, i) != MODE_IDLE
    && es[i].clocks.check - es[StartAt(es, RefreshEnd(es, i), i)].clocks.start >= REFRESH_MILLIS
  }

  /** A recomputation of the average: the camera whose picture caused it, and that camera's newest samples. */
  datatype Refresh = Refresh(cam: Cam, window: seq<int>)

  /** The last recomputation, whichever camera caused it. */
  function LastRefresh(es: seq<Event>, n: nat): Option<Refresh>
    requires n <= |es|
  {
    if n == 0 then None
    else if !RefreshAt(es, n - 1) then LastRefresh(es, n - 1)
    else
      var e := es[n - 1];
      Some(Refresh(e.cam, LastOf(Since(es, n - 1, e.cam) + [e.clocks.sample - e.stamp], WINDOW)))
  }

  lemma {:induction false} StartAtMore(es: seq<Event>, m: nat, n: nat)
    requires m <= n < |es|
    ensures StartAt(es, m, n + 1) ==
            if StartAt(es, m, n) < n then StartAt(es, m, n)
            else if es[n].Update? && es[n].clocks.start != -1 then n else n + 1
    decreases n - m
  {
    if m < n && !(es[m].Update? && es[m].clocks.start != -1) {
      StartAtMore(es, m + 1, n);
    }
  }

  /** The field timeOfStart is the start of the running interval, -1 if none is running. */
  predicate Started(timeOfStart: int, es: seq<Event>, n: nat)
    requires n <= |es|
  {
    var k := StartAt(es, RefreshEnd(es, n), n);
    timeOfStart == if k < n then es[k].clocks.start else -1
  }

  lemma RefreshesAt(es: seq<Event>, i: nat, d: Disp)
    requires i < |es| && es[i].Update? && Started(d.timeOfStart, es, i) && d.mode == ModeOf(es, i)
    ensures d.Refreshes(es[i].clocks) <==> RefreshAt(es, i)
  {
    var k := StartAt(es, RefreshEnd(es, i), i);
    StartOfInterval(d, es[i].clocks, k < i, es[k].clocks.start);
  }

  /** The running interval, or else a new one. */
  lemma StartOfInterval(d: Disp, k: Clocks, running: bool, start: int)
    requires d.timeOfStart == if running then start else -1
    requires if running then start != -1 else start == k.start
    ensures d.Start(k) == start
    ensures d.Refreshes(k) <==> d.mode != MODE_IDLE && k.check - start >= REFRESH_MILLIS
  {
  }

  /** In every run the running interval started with the first update since the last refresh, so that the code refreshes
      the average exactly at the refreshes of the run. */
  lemma {:induction false} StartOfRun(es: seq<Event>, n: nat)
    requires n <= |es|
    ensures Started(After(es, n).timeOfStart, es, n)
    ensures n < |es| && es[n].Update? ==> (After(es, n).Refreshes(es[n].clocks) <==> RefreshAt(es, n))
  {
    if n > 0 {
      StartOfRun(es, n - 1);
      StartedNext(es, n - 1);
    }
    ModeOfRun(es, n);
    if n < |es| && es[n].Update? {
      RefreshesAt(es, n, After(es, n));
    }
  }

  lemma StartedNext(es: seq<Event>, i: nat)
    requires i < |es| && Started(After(es, i).timeOfStart, es, i)
    requires es[i].Update? ==> (After(es, i).Refreshes(es[i].clocks) <==> RefreshAt(es, i))
    ensures Started(After(es, i + 1).timeOfStart, es, i + 1)
  {
    var n: nat := i + 1;
    var d := After(es, i);
    assert After(es, n) == Apply(d, es[i]);
    if !RefreshAt(es, i) {
      assert RefreshEnd(es, n) == RefreshEnd(es, i);
      StartAtMore(es, RefreshEnd(es, i), i);
    }
  }

  /** The average on display: that of the last recomputation, 0 before the first. */
  predicate ShowsRefresh(average: int, r: Option<Refresh>) {
    if r.None? then average == 0
    else r.value.window != [] && average == Average(r.value.window) && CloseToMean(r.value.window, average)
  }

  lemma ListIsWindow(since: seq<int>, mode: int, mine: bool, sample: int)
    ensures ListStep(LastOf(since, WINDOW - 1), mode, mine, sample) == LastOf(SinceStep(since, mode, mine, sample), WINDOW - 1)
  {
    NewestWindow(since, sample);
  }

  lemma {:induction false} ModeOfRun(es: seq<Event>, n: nat)
    requires n <= |es|
    ensures After(es, n).mode == ModeOf(es, n)
  {
    if n > 0 {
      ModeOfRun(es, n - 1);
    }
  }

  /** A state whose list for camera c is the window of these samples. */
  predicate Windowed(d: Disp, since: seq<int>, c: Cam) {
    d.Rolling(c) == LastOf(since, WINDOW - 1)
  }

  lemma WindowedStep(d: Disp, e: Event, since: seq<int>, c: Cam)
    requires Windowed(d, since, c)
    ensures Windowed(Apply(d, e), SinceApply(d.mode, e, since, c), c)
  {
    if e.Update? {
      ListIsWindow(since, d.mode, e.cam == c, e.clocks.sample - e.stamp);
    }
  }

  /** In every run each list is the camera's last 179 samples since it was cleared. */
  lemma {:induction false} WindowOfRun(es: seq<Event>, n: nat, c: Cam)
    requires n <= |es|
    ensures Windowed(After(es, n), Since(es, n, c), c)
  {
    if n > 0 {
      WindowOfRun(es, n - 1, c);
      ModeOfRun(es, n - 1);
      WindowedStep(After(es, n - 1), es[n - 1], Since(es, n - 1, c), c);
    }
  }

  lemma AverageOfWindow(since: seq<int>, sample: int, c: Cam)
    ensures ShowsRefresh(Average(LastOf(since, WINDOW - 1) + [sample]), Some(Refresh(c, LastOf(since + [sample], WINDOW))))
  {
    NewestWindow(since, sample);
    AverageError(LastOf(since + [sample], WINDOW));
  }

  /** In every run the one average is that of the last recomputation. */
  lemma {:induction false} AverageOfRun(es: seq<Event>, n: nat)
    requires n <= |es|
    ensures ShowsRefresh(After(es, n).average, LastRefresh(es, n))
  {
    if n > 0 {
      var e := es[n - 1];
      AverageOfRun(es, n - 1);
      StartOfRun(es, n - 1);
      if e.Update? {
        WindowOfRun(es, n - 1, e.cam);
        AverageOfWindow(Since(es, n - 1, e.cam), e.clocks.sample - e.stamp, e.cam);
      }
    }
  }

  /** The delay shown with a picture, in every run: in IDLE its own, otherwise 0 before the first recomputation and after
      that within n - 1 of the mean of the n samples of the last one, which may be the other camera's. */
  lemma ShownOfRun(es: seq<Event>, n: nat)
    requires n < |es| && es[n].Update?
    ensures var shown := Shown(After(es, n), es[n].cam, es[n].stamp, es[n].clocks);
            if ModeOf(es, n) == MODE_IDLE then shown == es[n].clocks.sample - es[n].stamp
            else ShowsRefresh(shown, LastRefresh(es, n + 1))
  {
    var m: nat := n + 1;
    ModeOfRun(es, n);
    AverageOfRun(es, m);
  }

  /** The average shown need not be the camera's own: here camera 1, 1000 ms late, is shown the 10 ms of camera 2. */
  lemma OtherCamerasAverage()
    ensures exists es: seq<Event>, n: nat ::
              && n < |es| && es[n].Update? && es[n].cam == One && ModeOf(es, n) != MODE_IDLE
              && LastRefresh(es, n + 1) == Some(Refresh(Two, [10])) && Since(es, n + 1, One) == [1000]
              && Shown(After(es, n), One, es[n].stamp, es[n].clocks) == 10
  {
    var es := [Update(Two, 0, Clocks(10, 0, 2000)), Update(One, 2000, Clocks(3000, 3000, 3000))];
    assert ModeOf(es, 0) == ModeOf(es, 1) == 0;
    assert Since(es, 0, Two) == Since(es, 0, One) == Since(es, 1, One) == [];
    assert [] + [10] == [10] && [] + [1000] == [1000];
    assert Average([10]) == TruncDiv(10, 1) == 10 by {
      assert [10][1..] == [] && TruncatedSum([], 1) == 0;
    }
    assert After(es, 0) == InitDisp();
    StartOfRun(es, 0);
    StartOfRun(es, 1);
    assert After(es, 1) == Disp(10, -1, 0, [], [10]);
    assert LastRefresh(es, 1) == Some(Refresh(Two, [10]));
    assert LastRefresh(es, 1 + 1) == LastRefresh(es, 1);
  }
}
