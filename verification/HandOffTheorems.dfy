/** What every run of the hand-off guarantees. */
module HandOffTheorems {
  import opened Bytes
  import opened HandOff
  import opened Options

  predicate Ok(s: State, first: int, init: Packet) {
    ControlOk(s.c) && DataOk(s.c.taker, s.c.sender, s.c.flag, s.d, first, init)
  }

  lemma OkOther(s: State, e: Event, first: int, init: Packet)
    requires Ok(s, first, init) && Enabled(s, e) && !e.Step?
    ensures Ok(Apply(s, e), first, init)
  {
    ControlStep(s, e);
  }

  lemma OkStep(s: State, e: Event, first: int, init: Packet)
    requires Ok(s, first, init) && Enabled(s, e)
    ensures Ok(Apply(s, e), first, init)
  {
    ControlStep(s, e);
    if e == Step(Taker) {
      TakerData(s.c.taker, s.c.sender, s.c.flag, s.c.connected, s.d, first, init);
    } else if e == Step(Sender) {
      SenderData(s.c.taker, s.c.sender, s.c.flag, s.c.connected, s.d, first, init);
    } else {
      OkOther(s, e, first, init);
    }
  }

  lemma {:induction false} OkRunFrom(s: State, es: seq<Event>, first: int, init: Packet)
    requires Ok(s, first, init) && IsRun(s, es)
    ensures Ok(Run(s, es), first, init)
    decreases |es|
  {
    if es != [] {
      OkStep(s, es[0], first, init);
      OkRunFrom(Apply(s, es[0]), es[1..], first, init);
    }
  }

  /** The inductive invariant of every run, whatever flag and slot the connection starts with. */
  lemma OkRun(first: int, slot: Packet, local: Packet, es: seq<Event>)
    requires 0 <= first <= 1 && IsRun(Init(first, slot, local), es)
    ensures Ok(Run(Init(first, slot, local), es), first, slot)
  {
    OkRunFrom(Init(first, slot, local), es, first, slot);
  }

  /** What one connection leaves to the next: when both threads have left their loops, the flag is again 0 or 1, no lock is
      held by them, and the slot is one whole packet, the last one saved. */
  lemma NextConnection(first: int, slot: Packet, local: Packet, es: seq<Event>)
    requires 0 <= first <= 1 && IsRun(Init(first, slot, local), es)
    requires var c := Run(Init(first, slot, local), es).c;
             c.taker.Done? && c.sender.Done?
    ensures var s := Run(Init(first, slot, local), es);
            0 <= s.c.flag <= 1 && !s.c.mutex.Thread? && !s.c.inner.Thread? && s.d.slot == LastSaved(s.d.log, slot)
  {
    OkRun(first, slot, local, es);
  }

  /** No lost wake-up: a thread asleep although it is its turn is about to be woken by the other one. */
  lemma NoLostWakeup(first: int, slot: Packet, local: Packet, es: seq<Event>, t: Tid)
    requires 0 <= first <= 1 && IsRun(Init(first, slot, local), es)
    ensures var c := Run(Init(first, slot, local), es).c;
            PcOf(c, t).Asleep? && c.flag == Turn(t) ==> Waking(PcOf(c, Peer(t)))
  {
    OkRun(first, slot, local, es);
  }

  /** A broadcast wakes every sleeper, also one from outside; what wakes up contends for the mutex and looks at the flag again. */
  lemma BroadcastWakesAll(s: State, e: Event, t: Tid)
    requires Enabled(s, e) && PcOf(s.c, t).Asleep?
    requires e.OtherBroadcast? || (e.Step? && PcOf(s.c, e.t).Broadcast?)
    ensures PcOf(Apply(s, e).c, t).Lock?
  {
  }

  /** The steps of the two threads, as opposed to wake-ups and the rest of the server. */
  predicate OfProgram(e: Event) {
    e.Step? || e.Captured?
  }

  /** No deadlock: while the client is connected, whenever no other thread holds a lock, one of the two can step. */
  lemma Progress(first: int, slot: Packet, local: Packet, es: seq<Event>)
    requires 0 <= first <= 1 && IsRun(Init(first, slot, local), es)
    requires var c := Run(Init(first, slot, local), es).c;
             c.connected && c.mutex != Other && c.inner != Other
    ensures exists e :: OfProgram(e) && Enabled(Run(Init(first, slot, local), es), e)
  {
    var s := Run(Init(first, slot, local), es);
    OkRun(first, slot, local, es);
    var t := if s.c.mutex.Thread? then s.c.mutex.t else if s.c.flag == 0 then Taker else Sender;
    if PcOf(s.c, t).Capture? {
      assert Enabled(s, Captured(None));
    } else if PcOf(s.c, t).Asleep? {
      assert Enabled(s, Step(Peer(t)));
    } else {
      assert Enabled(s, Step(t));
    }
  }

  // ---- How far a run gets

  /** An upper bound on the steps a thread can still take before the next flip. A pending broadcast counts for
      the steps it may cause in the thread it wakes. */
  function ThreadRank(t: Tid, pc: Pc, flag: int): (r: nat)
    ensures r <= 18
  {
    var mine := flag == Turn(t);
    match pc
    case FlipIn => 1
    case Flip => 2
    case SaveBytesIn | Write => 3
    case SaveBytes | LoadSizeIn => 4
    case SaveSizeIn | LoadSize => 5
    case SaveSize | LoadBytesIn => 6
    case Capture | LoadBytes => 7
    case GuardIn => if mine then 8 else 2
    case Guard => if mine then 9 else 3
    case Lock => if mine then 10 else 4
    case Head => if mine then 11 else 5
    case Asleep => if mine then 11 else 0
    case AboutToWait => if mine then 12 else 1
    case Broadcast => if mine then 17 else 11
    case Unlock => if mine then 18 else 12
    case Done => 0
  }

  function Rank(c: Control): (r: nat)
    ensures r <= 36
  {
    ThreadRank(Taker, c.taker, c.flag) + ThreadRank(Sender, c.sender, c.flag)
  }

  lemma RankOfStep(t: Tid, pc: Pc, peer: Pc, mutex: Owner, inner: Owner, flag: int, connected: bool)
    requires ThreadOk(t, pc, peer, mutex, inner, flag, connected)
    requires !pc.Capture? && !pc.Asleep? && !pc.Done? && !pc.FlipIn?
    ensures ThreadRank(t, NextPc(t, pc, flag, connected), flag) + ThreadRank(Peer(t), NextPeer(pc, peer), flag)
          < ThreadRank(t, pc, flag) + ThreadRank(Peer(t), peer, flag)
  {
  }

  predicate WakesUp(e: Event) {
    e.Spurious? || e.OtherBroadcast?
  }

  function Count(p: Event -> bool, es: seq<Event>): nat {
    if es == [] then 0 else (if p(es[0]) then 1 else 0) + Count(p, es[1..])
  }

  lemma RankOther(s: State, e: Event)
    requires Enabled(s, e) && !e.Step?
    ensures Apply(s, e).d.log == s.d.log
    ensures if OfProgram(e) then Rank(Apply(s, e).c) < Rank(s.c)
            else Rank(Apply(s, e).c) <= Rank(s.c) + if WakesUp(e) then 8 else 0
  {
  }

  lemma RankStep(s: State, e: Event)
    requires ControlOk(s.c) && Enabled(s, e)
    ensures var s' := Apply(s, e);
            if |s'.d.log| != |s.d.log| then OfProgram(e) && |s'.d.log| == |s.d.log| + 1
            else if OfProgram(e) then Rank(s'.c) < Rank(s.c)
            else Rank(s'.c) <= Rank(s.c) + if WakesUp(e) then 8 else 0
  {
    if e.Step? && PcOf(s.c, e.t).FlipIn? {
      assert |Apply(s, e).d.log| == |s.d.log| + 1;
    } else if e.Step? {
      assert Apply(s, e).d.log == s.d.log;
      RankOfStep(e.t, PcOf(s.c, e.t), PcOf(s.c, Peer(e.t)), s.c.mutex, s.c.inner, s.c.flag, s.c.connected);
    } else {
      RankOther(s, e);
    }
  }

  lemma {:induction false} RankRun(s: State, es: seq<Event>)
    requires ControlOk(s.c) && IsRun(s, es)
    ensures |Run(s, es).d.log| >= |s.d.log|
    ensures Count(OfProgram, es) + Rank(Run(s, es).c)
         <= Rank(s.c) + 37 * (|Run(s, es).d.log| - |s.d.log|) + 8 * Count(WakesUp, es)
    decreases |es|
  {
    if es != [] {
      ControlStep(s, es[0]);
      RankStep(s, es[0]);
      RankRun(Apply(s, es[0]), es[1..]);
    }
  }

  /** The hand-off keeps moving: apart from eight steps per wake-up from outside, the two threads cannot take more
      than 37 steps per completed turn, whatever the schedule. */
  lemma BoundedProgress(first: int, slot: Packet, local: Packet, es: seq<Event>)
    requires 0 <= first <= 1 && IsRun(Init(first, slot, local), es)
    ensures Count(OfProgram, es) <= 16 + 37 * |Run(Init(first, slot, local), es).d.log| + 8 * Count(WakesUp, es)
  {
    RankRun(Init(first, slot, local), es);
  }

  // ---- After a disconnect

  /** How many turns a thread at pc can still complete once the client is disconnected: it looks at the connection only at
      the head of its loop, and so finishes the turn it is in. */
  function TurnsLeft(pc: Pc): nat {
    if pc.Head? || pc.Done? || pc.Unlock? || pc.Broadcast? then 0 else 1
  }

  lemma CountsMore(log: seq<Act>, a: Act)
    ensures Takes(log + [a]) == Takes(log) + (if a.Took? then 1 else 0)
    ensures Sends(log + [a]) == Sends(log) + (if a.Sent? then 1 else 0)
  {
    assert (log + [a])[..|log|] == log;
  }

  lemma TurnsOfPc(t: Tid, pc: Pc, peer: Pc, flag: int)
    ensures TurnsLeft(NextPc(t, pc, flag, false)) + (if pc.FlipIn? then 1 else 0) == TurnsLeft(pc)
    ensures TurnsLeft(NextPeer(pc, peer)) == TurnsLeft(peer)
  {
  }

  /** No event of a disconnected run begins a turn, and none gives one up. */
  predicate Dwindles(s: State, s': State) {
    && !s'.c.connected
    && Takes(s'.d.log) + TurnsLeft(s'.c.taker) == Takes(s.d.log) + TurnsLeft(s.c.taker)
    && Sends(s'.d.log) + TurnsLeft(s'.c.sender) == Sends(s.d.log) + TurnsLeft(s.c.sender)
  }

  lemma TurnsElsewhere(s: State, e: Event)
    requires Enabled(s, e) && !s.c.connected && !e.Step?
    ensures Dwindles(s, Apply(s, e))
  {
    assert Apply(s, e).d.log == s.d.log;
  }

  lemma LogOfStep(d: Data, t: Tid, pc: Pc)
    ensures var log := StepData(d, t, pc).log;
            && Takes(log) == Takes(d.log) + (if pc.FlipIn? && t.Taker? then 1 else 0)
            && Sends(log) == Sends(d.log) + (if pc.FlipIn? && t.Sender? then 1 else 0)
  {
    if pc.FlipIn? {
      CountsMore(d.log, if t.Taker? then Took(d.taken) else Sent(d.loaded));
    }
  }

  lemma TurnsStep(s: State, e: Event)
    requires Enabled(s, e) && !s.c.connected
    ensures Dwindles(s, Apply(s, e))
  {
    if e.Step? {
      TurnsOfPc(e.t, PcOf(s.c, e.t), PcOf(s.c, Peer(e.t)), s.c.flag);
      LogOfStep(s.d, e.t, PcOf(s.c, e.t));
    } else {
      TurnsElsewhere(s, e);
    }
  }

  lemma {:induction false} TurnsRun(s: State, es: seq<Event>)
    requires IsRun(s, es) && !s.c.connected
    ensures Dwindles(s, Run(s, es))
    decreases |es|
  {
    if es != [] {
      TurnsStep(s, es[0]);
      TurnsRun(Apply(s, es[0]), es[1..]);
    }
  }

  /** After a disconnect, however long the run goes on, each thread completes at most the turn it is in, and none if it is at
      the head of its loop or between its flip and there. Waking up does not make it look at the connection again: a
      thread that reaches the head of its loop has completed that turn. */
  lemma AfterDisconnect(first: int, slot: Packet, local: Packet, es: seq<Event>, more: seq<Event>)
    requires 0 <= first <= 1 && IsRun(Init(first, slot, local), es)
    requires var s := Run(Init(first, slot, local), es);
             !s.c.connected && IsRun(s, more)
    ensures var s := Run(Init(first, slot, local), es);
            var s' := Run(s, more);
            && Takes(s'.d.log) + TurnsLeft(s'.c.taker) == Takes(s.d.log) + TurnsLeft(s.c.taker)
            && Sends(s'.d.log) + TurnsLeft(s'.c.sender) == Sends(s.d.log) + TurnsLeft(s.c.sender)
            && |s'.d.log| <= |s.d.log| + 2
  {
    var s := Run(Init(first, slot, local), es);
    TurnsRun(s, more);
    TakesAndSends(s.d.log);
    TakesAndSends(Run(s, more).d.log);
  }

  lemma {:induction false} TakesAndSends(log: seq<Act>)
    ensures Takes(log) + Sends(log) == |log|
  {
    if log != [] {
      TakesAndSends(log[..|log| - 1]);
    }
  }

  /** A step at the head of the loop ends the thread exactly when the client is disconnected. */
  lemma HeadEndsIff(s: State, t: Tid)
    requires PcOf(s.c, t).Head?
    ensures Enabled(s, Step(t))
    ensures PcOf(Apply(s, Step(t)).c, t).Done? <==> !s.c.connected
    ensures !PcOf(Apply(s, Step(t)).c, t).Done? ==> PcOf(Apply(s, Step(t)).c, t).Lock?
  {
  }

  /** A thread that has entered its turn, waits for the flag, and whose peer has left its loop. */
  predicate Stranded(c: Control, t: Tid) {
    TurnsLeft(PcOf(c, t)) == 1 && c.flag != Turn(t) && PcOf(c, Peer(t)).Done?
  }

  lemma StrandedStep(s: State, e: Event, t: Tid)
    requires ControlOk(s.c) && Enabled(s, e) && Stranded(s.c, t)
    ensures Stranded(Apply(s, e).c, t)
  {
  }

  /** A stranded thread stays so for good: nothing sets the flag for it any more, and a wake-up only puts it back to sleep.
      The joins that precede the next connection then never return. */
  lemma {:induction false} StrandedForGood(s: State, es: seq<Event>, t: Tid)
    requires ControlOk(s.c) && IsRun(s, es) && Stranded(s.c, t)
    ensures Stranded(Run(s, es).c, t) && !PcOf(Run(s, es).c, t).Done?
    decreases |es|
  {
    if es != [] {
      ControlStep(s, es[0]);
      StrandedStep(s, es[0], t);
      StrandedForGood(Apply(s, es[0]), es[1..], t);
    }
  }

  /** The end comes: however long the run goes on after the disconnect, apart from the steps that wake-ups from outside
      cost, the two threads take at most 110 more. */
  lemma BoundedEnding(first: int, slot: Packet, local: Packet, es: seq<Event>, more: seq<Event>)
    requires 0 <= first <= 1 && IsRun(Init(first, slot, local), es)
    requires var s := Run(Init(first, slot, local), es);
             !s.c.connected && IsRun(s, more)
    ensures Count(OfProgram, more) <= 110 + 8 * Count(WakesUp, more)
  {
    OkRun(first, slot, local, es);
    AfterDisconnect(first, slot, local, es, more);
    RankRun(Run(Init(first, slot, local), es), more);
  }

  /** How it ends: where the two threads can take no more steps after a disconnect, although nobody else holds a lock, each
      has left its loop or is stranded in its sleep. */
  lemma HowItEnds(first: int, slot: Packet, local: Packet, es: seq<Event>)
    requires 0 <= first <= 1 && IsRun(Init(first, slot, local), es)
    requires var s := Run(Init(first, slot, local), es);
             !s.c.connected && s.c.mutex != Other && s.c.inner != Other && forall e :: OfProgram(e) ==> !Enabled(s, e)
    ensures var c := Run(Init(first, slot, local), es).c;
            forall t :: PcOf(c, t).Done? || (PcOf(c, t).Asleep? && Stranded(c, t))
  {
    var s := Run(Init(first, slot, local), es);
    OkRun(first, slot, local, es);
    assert !Enabled(s, Step(Taker)) && !Enabled(s, Step(Sender)) && !Enabled(s, Captured(None));
  }

  lemma FirstEvent(s: State, e: Event, es: seq<Event>)
    ensures IsRun(s, [e] + es) <==> Enabled(s, e) && IsRun(Apply(s, e), es)
    ensures Run(s, [e] + es) == Run(Apply(s, e), es)
  {
    assert ([e] + es)[1..] == es;
  }

  lemma FallsAsleep(s: State, es: seq<Event>)
    requires s.c.sender.Head? && s.c.mutex == Free && s.c.inner == Free && s.c.flag == 0 && s.c.connected
    ensures var s' := s.(c := s.c.(sender := Asleep));
            var fall := [Step(Sender)] + ([Step(Sender)] + ([Step(Sender)] + ([Step(Sender)] + ([Step(Sender)] + es))));
            (IsRun(s, fall) <==> IsRun(s', es)) && Run(s, fall) == Run(s', es)
  {
    var e := Step(Sender);
    var s1 := s.(c := s.c.(sender := Lock));
    var s2 := s.(c := s.c.(sender := Guard, mutex := Thread(Sender)));
    var s3 := s.(c := s.c.(sender := GuardIn, mutex := Thread(Sender), inner := Thread(Sender)));
    var s4 := s.(c := s.c.(sender := AboutToWait, mutex := Thread(Sender)));
    FirstEvent(s4, e, es);
    FirstEvent(s3, e, [e] + es);
    FirstEvent(s2, e, [e] + ([e] + es));
    FirstEvent(s1, e, [e] + ([e] + ([e] + es)));
    FirstEvent(s, e, [e] + ([e] + ([e] + ([e] + es))));
  }

  /** It can happen: the sender falls asleep, the client disconnects, and the taker leaves without waking it. */
  lemma StrandedSender(slot: Packet, local: Packet)
    ensures exists es :: IsRun(Init(0, slot, local), es) && Stranded(Run(Init(0, slot, local), es).c, Sender)
  {
    var e := Step(Sender);
    var es := [Disconnect] + ([Step(Taker)] + []);
    var s := Init(0, slot, local);
    FallsAsleep(s, es);
    var s' := s.(c := s.c.(sender := Asleep));
    FirstEvent(s', Disconnect, [Step(Taker)] + []);
    FirstEvent(Apply(s', Disconnect), Step(Taker), []);
    assert IsRun(s, [e] + ([e] + ([e] + ([e] + ([e] + es)))));
  }

  // ---- The channel

  function Takes(log: seq<Act>): nat {
    if log == [] then 0 else Takes(log[..|log| - 1]) + if log[|log| - 1].Took? then 1 else 0
  }

  function Sends(log: seq<Act>): nat {
    if log == [] then 0 else Sends(log[..|log| - 1]) + if log[|log| - 1].Sent? then 1 else 0
  }

  function TakenIn(log: seq<Act>): seq<Packet> {
    if log == [] then []
    else
      var last := log[|log| - 1];
      TakenIn(log[..|log| - 1]) + if last.Took? && last.saved.Some? then [last.saved.value] else []
  }

  predicate AllSaved(log: seq<Act>) {
    forall i :: 0 <= i < |log| && log[i].Took? ==> log[i].saved.Some?
  }

  lemma LogPrefix(log: seq<Act>, first: int, init: Packet)
    requires LogOk(log, first, init) && log != []
    ensures LogOk(log[..|log| - 1], first, init)
    ensures AllSaved(log) ==> AllSaved(log[..|log| - 1])
  {
    var front := log[..|log| - 1];
    assert forall i :: 0 <= i < |front| ==> front[..i] == log[..i];
  }

  /** How many of n alternating turns are takes, or sends. */
  function TakesOf(n: nat, first: int): int {
    if first == SEND_PIC_STATE then n / 2 else (n + 1) / 2
  }

  lemma {:induction false} Alternation(log: seq<Act>, first: int, init: Packet)
    requires 0 <= first <= 1 && LogOk(log, first, init)
    ensures Takes(log) == TakesOf(|log|, first) && Sends(log) == TakesOf(|log|, 1 - first)
  {
    if log != [] {
      LogPrefix(log, first, init);
      Alternation(log[..|log| - 1], first, init);
    }
  }

  /** Completed takes minus completed sends is the flag less the flag at the start, in every state of every run, and turns
      alternate, a take first if the flag was at taking. */
  lemma TakesMinusSends(first: int, slot: Packet, local: Packet, es: seq<Event>)
    requires 0 <= first <= 1 && IsRun(Init(first, slot, local), es)
    ensures var s := Run(Init(first, slot, local), es);
            && Takes(s.d.log) - Sends(s.d.log) == s.c.flag - first
            && 0 <= s.c.flag <= 1
            && forall i :: 0 <= i < |s.d.log| ==> (s.d.log[i].Took? <==> (i + first) % 2 == 0)
  {
    OkRun(first, slot, local, es);
    Alternation(Run(Init(first, slot, local), es).d.log, first, slot);
  }

  /** No tearing: size and bytes that the sender has loaded come from one and the same successful take, the most
      recent one, although they were saved and loaded in four separate sections. The same holds of every completed send. */
  lemma NoTearing(first: int, slot: Packet, local: Packet, es: seq<Event>)
    requires 0 <= first <= 1 && IsRun(Init(first, slot, local), es)
    ensures var s := Run(Init(first, slot, local), es);
            && (s.c.sender.Write? || s.c.sender.Flip? || s.c.sender.FlipIn? ==> s.d.loaded == LastSaved(s.d.log, slot))
            && forall i :: 0 <= i < |s.d.log| && s.d.log[i].Sent? ==> s.d.log[i].packet == LastSaved(s.d.log[..i], slot)
  {
    OkRun(first, slot, local, es);
  }

  lemma {:induction false} Counts(log: seq<Act>)
    ensures |SentIn(log)| == Sends(log)
    ensures AllSaved(log) ==> |TakenIn(log)| == Takes(log)
  {
    if log != [] {
      var front := log[..|log| - 1];
      assert AllSaved(log) ==> AllSaved(front);
      Counts(front);
    }
  }

  lemma LastTaken(log: seq<Act>, init: Packet)
    requires log != [] && log[|log| - 1].Took? && log[|log| - 1].saved.Some?
    ensures TakenIn(log) == TakenIn(log[..|log| - 1]) + [LastSaved(log, init)]
    ensures SentIn(log) == SentIn(log[..|log| - 1])
  {
  }

  lemma LastSent(log: seq<Act>, first: int, init: Packet)
    requires LogOk(log, first, init) && log != [] && log[|log| - 1].Sent?
    ensures SentIn(log) == SentIn(log[..|log| - 1]) + [LastSaved(log[..|log| - 1], init)]
    ensures TakenIn(log) == TakenIn(log[..|log| - 1]) && LastSaved(log, init) == LastSaved(log[..|log| - 1], init)
  {
  }

  /** What can be sent: the packet left in the slot, if it goes first, and the packets taken. */
  function Sendable(log: seq<Act>, first: int, slot: Packet): seq<Packet> {
    Stale(first, slot) + TakenIn(log)
  }

  lemma {:induction false} SentIsPrefix(log: seq<Act>, first: int, init: Packet)
    requires 0 <= first <= 1 && LogOk(log, first, init) && AllSaved(log)
    ensures SentIn(log) <= Sendable(log, first, init)
    ensures |Sendable(log, first, init)| == |SentIn(log)| + (|log| + first) % 2
    ensures (|log| + first) % 2 == 1 ==> Sendable(log, first, init) == SentIn(log) + [LastSaved(log, init)]
  {
    Counts(log);
    Alternation(log, first, init);
    if log != [] {
      LogPrefix(log, first, init);
      var front := log[..|log| - 1];
      SentIsPrefix(front, first, init);
      if log[|log| - 1].Took? {
        LastTaken(log, init);
        assert Sendable(log, first, init) == Sendable(front, first, init) + [LastSaved(log, init)];
      } else {
        LastSent(log, first, init);
      }
    }
  }

  /** When every take succeeds, the packets handed to write_n are a prefix of the packets taken, at most one behind; a
      connection that starts with the flag at sending sends the packet left in the slot first. */
  lemma Fifo(first: int, slot: Packet, local: Packet, es: seq<Event>)
    requires 0 <= first <= 1 && IsRun(Init(first, slot, local), es) && AllSaved(Run(Init(first, slot, local), es).d.log)
    ensures var d := Run(Init(first, slot, local), es).d;
            && SentIn(d.log) <= d.wrote <= Stale(first, slot) + TakenIn(d.log)
            && |Stale(first, slot) + TakenIn(d.log)| - |SentIn(d.log)| == Run(Init(first, slot, local), es).c.flag
  {
    var s := Run(Init(first, slot, local), es);
    OkRun(first, slot, local, es);
    SentIsPrefix(s.d.log, first, slot);
  }

  /** What a connection sends first, also when takes fail: the packet left in the slot, unless the flag is at taking and
      the first take succeeds. */
  lemma FirstSend(first: int, slot: Packet, local: Packet, es: seq<Event>)
    requires 0 <= first <= 1 && IsRun(Init(first, slot, local), es)
    requires SentIn(Run(Init(first, slot, local), es).d.log) != []
    ensures var log := Run(Init(first, slot, local), es).d.log;
            if first == TAKE_PIC_STATE then
              |log| >= 2 && log[0].Took? && SentIn(log)[0] == if log[0].saved.Some? then log[0].saved.value else slot
            else SentIn(log)[0] == slot
  {
    OkRun(first, slot, local, es);
    FirstOfLog(Run(Init(first, slot, local), es).d.log, first, slot);
  }

  lemma {:induction false} FirstOfLog(log: seq<Act>, first: int, init: Packet)
    requires 0 <= first <= 1 && LogOk(log, first, init) && SentIn(log) != []
    ensures if first == TAKE_PIC_STATE then
              |log| >= 2 && log[0].Took? && SentIn(log)[0] == if log[0].saved.Some? then log[0].saved.value else init
            else SentIn(log)[0] == init
  {
    var front := log[..|log| - 1];
    LogPrefix(log, first, init);
    if SentIn(front) != [] {
      FirstOfLog(front, first, init);
    } else {
      NothingSent(front, first, init);
      assert SentIn(log) == [] + [log[|log| - 1].packet];
      if first == TAKE_PIC_STATE {
        assert |log| == 2 && log[..1] == front && front[..0] == [];
        assert front[0] == log[0] && log[1].packet == LastSaved(front, init);
        assert LastSaved(front[..0], init) == init;
      } else {
        assert |log| == 1 && log[..0] == [];
      }
    }
  }

  lemma NothingSent(log: seq<Act>, first: int, init: Packet)
    requires 0 <= first <= 1 && LogOk(log, first, init) && SentIn(log) == []
    ensures |log| <= 1 - first
  {
    Counts(log);
    Alternation(log, first, init);
  }

  /** A FIFO channel of capacity one. */
  datatype Channel = Channel(put: seq<Packet>, got: seq<Packet>)

  predicate ChannelPut(ch: Channel, ch': Channel) {
    |ch.put| == |ch.got| && ch'.got == ch.got && |ch'.put| == |ch.put| + 1 && ch.put <= ch'.put
  }

  predicate ChannelGet(ch: Channel, ch': Channel) {
    |ch.put| == |ch.got| + 1 && ch'.put == ch.put && ch'.got == ch.got + [ch.put[|ch.got|]]
  }

  /** The channel as a run's history shows it; the packet left in the slot counts as put if it goes first. */
  function Abstract(s: State, first: int, slot: Packet): Channel {
    Channel(Sendable(s.d.log, first, slot), SentIn(s.d.log))
  }

  lemma ChannelAppend(log: seq<Act>, a: Act, first: int, init: Packet)
    requires 0 <= first <= 1 && LogOk(log + [a], first, init) && AllSaved(log + [a])
    ensures var ch := Channel(Sendable(log, first, init), SentIn(log));
            var ch' := Channel(Sendable(log + [a], first, init), SentIn(log + [a]));
            ChannelPut(ch, ch') || ChannelGet(ch, ch')
  {
    var log' := log + [a];
    assert log'[..|log|] == log;
    LogPrefix(log', first, init);
    SentIsPrefix(log', first, init);
    SentIsPrefix(log, first, init);
    if a.Took? {
      LastTaken(log', init);
      assert Sendable(log', first, init) == Sendable(log, first, init) + [LastSaved(log', init)];
    } else {
      LastSent(log', first, init);
    }
  }

  lemma LogGrowsByOne(s: State, e: Event)
    ensures Apply(s, e).d.log == s.d.log || exists a :: Apply(s, e).d.log == s.d.log + [a]
  {
  }

  /** Refinement: every event of a run in which all takes succeed is a put, a get, or invisible to the channel. */
  lemma RefinesChannel(first: int, slot: Packet, local: Packet, es: seq<Event>, e: Event)
    requires 0 <= first <= 1 && IsRun(Init(first, slot, local), es)
    requires var s := Run(Init(first, slot, local), es);
             Enabled(s, e) && AllSaved(Apply(s, e).d.log)
    ensures var s := Run(Init(first, slot, local), es);
            var ch, ch' := Abstract(s, first, slot), Abstract(Apply(s, e), first, slot);
            ch' == ch || ChannelPut(ch, ch') || ChannelGet(ch, ch')
  {
    var s := Run(Init(first, slot, local), es);
    OkRun(first, slot, local, es);
    OkStep(s, e, first, slot);
    LogGrowsByOne(s, e);
    if Apply(s, e).d.log != s.d.log {
      var a :| Apply(s, e).d.log == s.d.log + [a];
      ChannelAppend(s.d.log, a, first, slot);
    }
  }
}
