/** The hand-off of packets between take_picture_task and send_picture_task of server.c, as a step machine.

    Each thread has a program counter; the steps are the atomic actions of the two loops: taking and releasing
    global_mutex, every section under camera_mutex, the wait (which releases the mutex and falls asleep in one step),
    and the broadcast, which comes after the unlock. Sleepers may wake up spuriously, other threads of the server may
    hold either lock or broadcast at any time, and the client may disconnect at any time. */
module HandOff {
  import opened Bytes
  import opened Options

  datatype Tid = Taker | Sender

  datatype Pc =
    // shared by both loops
    | Head | Lock | Guard | GuardIn | AboutToWait | Asleep | Flip | FlipIn | Unlock | Broadcast | Done
    // the taker's work: capture, then save the size and the bytes, each under camera_mutex
    | Capture | SaveSize | SaveSizeIn | SaveBytes | SaveBytesIn
    // the sender's work: load the bytes and the size, each under camera_mutex, then write
    | LoadBytes | LoadBytesIn | LoadSize | LoadSizeIn | Write

  datatype Owner = Free | Thread(t: Tid) | Other

  /** Program counters, locks and flag. */
  datatype Control = Control(taker: Pc, sender: Pc, mutex: Owner, inner: Owner, flag: int, connected: bool)

  /** A pic_packet buffer together with a packet_sz. */
  datatype Packet = Packet(bytes: seq<Byte>, size: int)

  /** A completed turn of one of the threads: what a take saved, or what a send handed to write_n. */
  datatype Act = Took(saved: Option<Packet>) | Sent(packet: Packet)

  /** The packets: the shared slot, each thread's local copy, and the history. */
  datatype Data = Data(
    slot: Packet,           // cam_mon->pic_packet and cam_mon->packet_sz
    taken: Option<Packet>,  // the taker's packet; None when the capture failed, and then nothing is saved
    loaded: Packet,         // the sender's copies
    log: seq<Act>,          // the turns completed, that is flipped
    wrote: seq<Packet>)     // the packets handed to write_n

  datatype State = State(c: Control, d: Data)

  datatype Event =
    | Step(t: Tid)
    | Captured(p: Option<Packet>)
    | Spurious(t: Tid)
    | OtherLock | OtherUnlock | OtherInnerLock | OtherInnerUnlock | OtherBroadcast
    | Disconnect

  const TAKE_PIC_STATE := 0
  const SEND_PIC_STATE := 1

  /** flip_pic_take_send */
  function Flipped(flag: int): int {
    if flag == 1 then 0 else 1
  }

  /** The flag value on which a thread works. */
  function Turn(t: Tid): int {
    if t.Taker? then TAKE_PIC_STATE else SEND_PIC_STATE
  }

  function Peer(t: Tid): Tid {
    if t.Taker? then Sender else Taker
  }

  function PcOf(c: Control, t: Tid): Pc {
    if t.Taker? then c.taker else c.sender
  }

  function Goto(c: Control, t: Tid, pc: Pc): Control {
    if t.Taker? then c.(taker := pc) else c.(sender := pc)
  }

  /** The program counters at which a thread is about to take, or holds, camera_mutex. */
  predicate Entering(pc: Pc) {
    pc.Guard? || pc.SaveSize? || pc.SaveBytes? || pc.LoadBytes? || pc.LoadSize? || pc.Flip?
  }

  predicate Inside(pc: Pc) {
    pc.GuardIn? || pc.SaveSizeIn? || pc.SaveBytesIn? || pc.LoadBytesIn? || pc.LoadSizeIn? || pc.FlipIn?
  }

  predicate TakerWork(pc: Pc) {
    pc.Capture? || pc.SaveSize? || pc.SaveSizeIn? || pc.SaveBytes? || pc.SaveBytesIn?
  }

  predicate SenderWork(pc: Pc) {
    pc.LoadBytes? || pc.LoadBytesIn? || pc.LoadSize? || pc.LoadSizeIn? || pc.Write?
  }

  predicate Working(pc: Pc) {
    TakerWork(pc) || SenderWork(pc) || pc.Flip? || pc.FlipIn?
  }

  /** The program counters at which a thread owns global_mutex. */
  predicate Holds(pc: Pc) {
    pc.Guard? || pc.GuardIn? || pc.AboutToWait? || Working(pc) || pc.Unlock?
  }

  /** Between its flip and its broadcast. */
  predicate Waking(pc: Pc) {
    pc.Unlock? || pc.Broadcast?
  }

  function Wake(pc: Pc): Pc {
    if pc.Asleep? then Lock else pc
  }

  predicate Enabled(s: State, e: Event) {
    match e
    case Step(t) =>
      var pc := PcOf(s.c, t);
      !pc.Capture? && !pc.Asleep? && !pc.Done? && (pc.Lock? ==> s.c.mutex == Free) && (Entering(pc) ==> s.c.inner == Free)
    case Captured(_) => s.c.taker.Capture?
    case Spurious(t) => PcOf(s.c, t).Asleep?
    case OtherLock => s.c.mutex == Free
    case OtherUnlock => s.c.mutex == Other
    case OtherInnerLock => s.c.inner == Free
    case OtherInnerUnlock => s.c.inner == Other
    case OtherBroadcast => true
    case Disconnect => true
  }

  /** Where a thread goes from pc, for the values of the flag and the connection it sees there. */
  function NextPc(t: Tid, pc: Pc, flag: int, connected: bool): Pc {
    match pc
    case Head => if connected then Lock else Done
    case Lock => Guard
    case Guard => GuardIn
    case GuardIn => if flag != Turn(t) then AboutToWait else if t.Taker? then Capture else LoadBytes
    case AboutToWait => Asleep
    case SaveSize => SaveSizeIn
    case SaveSizeIn => SaveBytes
    case SaveBytes => SaveBytesIn
    case SaveBytesIn => Flip
    case LoadBytes => LoadBytesIn
    case LoadBytesIn => LoadSize
    case LoadSize => LoadSizeIn
    case LoadSizeIn => Write
    case Write => Flip
    case Flip => FlipIn
    case FlipIn => Unlock
    case Unlock => Broadcast
    case Broadcast => Head
    case _ => pc
  }

  function NextMutex(t: Tid, pc: Pc, mutex: Owner): Owner {
    if pc.Lock? then Thread(t) else if pc.AboutToWait? || pc.Unlock? then Free else mutex
  }

  function NextInner(t: Tid, pc: Pc, inner: Owner): Owner {
    if Entering(pc) then Thread(t) else if Inside(pc) then Free else inner
  }

  function NextFlag(pc: Pc, flag: int): int {
    if pc.FlipIn? then Flipped(flag) else flag
  }

  /** The peer's program counter after a thread's step at pc. */
  function NextPeer(pc: Pc, peer: Pc): Pc {
    if pc.Broadcast? then Wake(peer) else peer
  }

  function StepControl(c: Control, t: Tid): Control {
    var pc, peer := PcOf(c, t), PcOf(c, Peer(t));
    Goto(Goto(c, t, NextPc(t, pc, c.flag, c.connected)), Peer(t), NextPeer(pc, peer)).(
      mutex := NextMutex(t, pc, c.mutex), inner := NextInner(t, pc, c.inner), flag := NextFlag(pc, c.flag))
  }

  function StepData(d: Data, t: Tid, pc: Pc): Data {
    match pc
    case SaveSizeIn => if d.taken.Some? then d.(slot := d.slot.(size := d.taken.value.size)) else d
    case SaveBytesIn => if d.taken.Some? then d.(slot := d.slot.(bytes := d.taken.value.bytes)) else d
    case LoadBytesIn => d.(loaded := d.loaded.(bytes := d.slot.bytes))
    case LoadSizeIn => d.(loaded := d.loaded.(size := d.slot.size))
    case Write => d.(wrote := d.wrote + [d.loaded])
    case FlipIn => d.(log := d.log + [if t.Taker? then Took(d.taken) else Sent(d.loaded)])
    case _ => d
  }

  function Apply(s: State, e: Event): State {
    match e
    case Step(t) => State(StepControl(s.c, t), StepData(s.d, t, PcOf(s.c, t)))
    case Captured(p) => State(s.c.(taker := if p.Some? then SaveSize else Flip), s.d.(taken := p))
    case Spurious(t) => s.(c := Goto(s.c, t, Lock))
    case OtherLock => s.(c := s.c.(mutex := Other))
    case OtherUnlock => s.(c := s.c.(mutex := Free))
    case OtherInnerLock => s.(c := s.c.(inner := Other))
    case OtherInnerUnlock => s.(c := s.c.(inner := Free))
    case OtherBroadcast => s.(c := s.c.(taker := Wake(s.c.taker), sender := Wake(s.c.sender)))
    case Disconnect => s.(c := s.c.(connected := false))
  }

  /** The state at connection time. The server initializes the flag and the slot once, for its first connection; a later
      one finds both as the connection before it left them. */
  function Init(first: int, slot: Packet, local: Packet): State {
    State(Control(Head, Head, Free, Free, first, true), Data(slot, None, local, [], []))
  }

  /** The packet that is sent without having been taken on this connection, if it starts with the flag at sending. */
  function Stale(first: int, slot: Packet): seq<Packet> {
    if first == SEND_PIC_STATE then [slot] else []
  }

  /** A run: every event is enabled where it occurs. */
  predicate IsRun(s: State, es: seq<Event>)
    decreases |es|
  {
    es == [] || (Enabled(s, es[0]) && IsRun(Apply(s, es[0]), es[1..]))
  }

  function Run(s: State, es: seq<Event>): State
    decreases |es|
  {
    if es == [] then s else Run(Apply(s, es[0]), es[1..])
  }

  // ---- Control: locks, guards and sleepers

  /** What holds of a thread t at pc while its peer is at peer. */
  predicate ThreadOk(t: Tid, pc: Pc, peer: Pc, mutex: Owner, inner: Owner, flag: int, connected: bool) {
    && (mutex == Thread(t) <==> Holds(pc))
    && (inner == Thread(t) <==> Inside(pc))
    && (Working(pc) ==> flag == Turn(t))
    && (pc.AboutToWait? || pc.Unlock? ==> flag != Turn(t))
    && (pc.Asleep? && flag == Turn(t) ==> Waking(peer))
    && (pc.Done? ==> !connected)
    && (if t.Taker? then !SenderWork(pc) else !TakerWork(pc))
  }

  predicate ControlOk(c: Control) {
    && (c.flag == 0 || c.flag == 1)
    && ThreadOk(Taker, c.taker, c.sender, c.mutex, c.inner, c.flag, c.connected)
    && ThreadOk(Sender, c.sender, c.taker, c.mutex, c.inner, c.flag, c.connected)
  }

  lemma OwnIdleStep(t: Tid, pc: Pc, peer: Pc, mutex: Owner, inner: Owner, flag: int, connected: bool)
    requires flag == 0 || flag == 1
    requires ThreadOk(t, pc, peer, mutex, inner, flag, connected) && !Working(pc) && !pc.Asleep?
    requires Entering(pc) ==> inner == Free
    ensures ThreadOk(t, NextPc(t, pc, flag, connected), NextPeer(pc, peer), NextMutex(t, pc, mutex),
                     NextInner(t, pc, inner), NextFlag(pc, flag), connected)
  {
  }

  lemma OwnWorkStep(t: Tid, pc: Pc, peer: Pc, mutex: Owner, inner: Owner, flag: int, connected: bool)
    requires flag == 0 || flag == 1
    requires ThreadOk(t, pc, peer, mutex, inner, flag, connected) && Working(pc) && !pc.Capture?
    requires Entering(pc) ==> inner == Free
    ensures ThreadOk(t, NextPc(t, pc, flag, connected), NextPeer(pc, peer), NextMutex(t, pc, mutex),
                     NextInner(t, pc, inner), NextFlag(pc, flag), connected)
  {
  }

  lemma PeerStep(t: Tid, pc: Pc, peer: Pc, mutex: Owner, inner: Owner, flag: int, connected: bool)
    requires flag == 0 || flag == 1
    requires ThreadOk(t, pc, peer, mutex, inner, flag, connected)
    requires ThreadOk(Peer(t), peer, pc, mutex, inner, flag, connected)
    requires (pc.Lock? ==> mutex == Free) && (Entering(pc) ==> inner == Free)
    ensures ThreadOk(Peer(t), NextPeer(pc, peer), NextPc(t, pc, flag, connected), NextMutex(t, pc, mutex),
                     NextInner(t, pc, inner), NextFlag(pc, flag), connected)
  {
  }

  lemma OtherStep(s: State, e: Event)
    requires ControlOk(s.c) && Enabled(s, e) && !e.Step?
    ensures ControlOk(Apply(s, e).c)
  {
  }

  lemma ThreadStep(c: Control, t: Tid)
    requires ControlOk(c)
    requires var pc := PcOf(c, t);
             !pc.Capture? && !pc.Asleep? && (pc.Lock? ==> c.mutex == Free) && (Entering(pc) ==> c.inner == Free)
    ensures ControlOk(StepControl(c, t))
  {
    var pc, peer := PcOf(c, t), PcOf(c, Peer(t));
    if Working(pc) {
      OwnWorkStep(t, pc, peer, c.mutex, c.inner, c.flag, c.connected);
    } else {
      OwnIdleStep(t, pc, peer, c.mutex, c.inner, c.flag, c.connected);
    }
    PeerStep(t, pc, peer, c.mutex, c.inner, c.flag, c.connected);
  }

  lemma ControlStep(s: State, e: Event)
    requires ControlOk(s.c) && Enabled(s, e)
    ensures ControlOk(Apply(s, e).c)
  {
    if e.Step? {
      ThreadStep(s.c, e.t);
    } else {
      OtherStep(s, e);
    }
  }

  // ---- Data: the slot, the local copies and the history

  /** The packet of the most recent successful take, or what the slot held at the start. */
  function LastSaved(log: seq<Act>, init: Packet): Packet {
    if log == [] then init
    else
      var last := log[|log| - 1];
      if last.Took? && last.saved.Some? then last.saved.value else LastSaved(log[..|log| - 1], init)
  }

  /** Takes and sends alternate, from the flag the connection started with; every send transmits the most recent
      successful save. */
  predicate LogOk(log: seq<Act>, first: int, init: Packet) {
    forall i :: 0 <= i < |log| ==>
      && (log[i].Took? <==> (i + first) % 2 == 0)
      && (log[i].Sent? ==> log[i].packet == LastSaved(log[..i], init))
  }

  function SentIn(log: seq<Act>): (ps: seq<Packet>)
  {
    if log == [] then []
    else
      var last := log[|log| - 1];
      SentIn(log[..|log| - 1]) + if last.Sent? then [last.packet] else []
  }

  /** What the slot holds while the taker is at pc. */
  function SlotAt(pc: Pc, taken: Option<Packet>, last: Packet): Packet {
    if taken.None? then last
    else if pc.SaveBytes? || pc.SaveBytesIn? then last.(size := taken.value.size)
    else if pc.Flip? || pc.FlipIn? then taken.value
    else last
  }

  predicate DataOk(taker: Pc, sender: Pc, flag: int, d: Data, first: int, init: Packet) {
    && LogOk(d.log, first, init) && (|d.log| + first) % 2 == flag
    && d.slot == SlotAt(taker, d.taken, LastSaved(d.log, init))
    && (TakerWork(taker) && !taker.Capture? ==> d.taken.Some?)
    && (sender.LoadSize? || sender.LoadSizeIn? ==> d.loaded.bytes == d.slot.bytes)
    && (sender.Write? || sender.Flip? || sender.FlipIn? ==> d.loaded == d.slot)
    && d.wrote == SentIn(d.log) + if sender.Flip? || sender.FlipIn? then [d.loaded] else []
  }

  lemma LogAppend(log: seq<Act>, a: Act, first: int, init: Packet)
    requires LogOk(log, first, init) && (a.Took? <==> (|log| + first) % 2 == 0)
    requires a.Sent? ==> a.packet == LastSaved(log, init)
    ensures LogOk(log + [a], first, init)
    ensures LastSaved(log + [a], init) == if a.Took? && a.saved.Some? then a.saved.value else LastSaved(log, init)
    ensures SentIn(log + [a]) == SentIn(log) + if a.Sent? then [a.packet] else []
  {
    var log' := log + [a];
    assert log'[..|log|] == log;
    forall i | 0 <= i < |log'|
      ensures (log'[i].Took? <==> (i + first) % 2 == 0) && (log'[i].Sent? ==> log'[i].packet == LastSaved(log'[..i], init))
    {
      assert log'[..i] == log[..i];
    }
  }

  lemma TakerData(pc: Pc, sender: Pc, flag: int, connected: bool, d: Data, first: int, init: Packet)
    requires DataOk(pc, sender, flag, d, first, init) && !SenderWork(pc)
    requires Working(pc) ==> flag == 0 && !Working(sender)
    requires Holds(pc) ==> !Working(sender)
    requires flag == 0 || flag == 1
    requires !pc.Capture? && !pc.Asleep?
    ensures DataOk(NextPc(Taker, pc, flag, connected), NextPeer(pc, sender), NextFlag(pc, flag), StepData(d, Taker, pc), first, init)
  {
    if pc.FlipIn? {
      LogAppend(d.log, Took(d.taken), first, init);
    }
  }

  lemma SenderFlip(taker: Pc, d: Data, first: int, init: Packet)
    requires DataOk(taker, FlipIn, 1, d, first, init) && !Working(taker)
    ensures DataOk(taker, Unlock, 0, d.(log := d.log + [Sent(d.loaded)]), first, init)
  {
    LogAppend(d.log, Sent(d.loaded), first, init);
  }

  lemma SenderWorkData(taker: Pc, pc: Pc, connected: bool, d: Data, first: int, init: Packet)
    requires DataOk(taker, pc, 1, d, first, init) && (SenderWork(pc) || pc.Flip?) && !Working(taker)
    ensures DataOk(taker, NextPc(Sender, pc, 1, connected), 1, StepData(d, Sender, pc), first, init)
  {
  }

  lemma SenderIdleData(taker: Pc, pc: Pc, flag: int, connected: bool, d: Data, first: int, init: Packet)
    requires DataOk(taker, pc, flag, d, first, init) && !TakerWork(pc) && !Working(pc) && !pc.Asleep?
    ensures DataOk(NextPeer(pc, taker), NextPc(Sender, pc, flag, connected), flag, StepData(d, Sender, pc), first, init)
  {
  }

  lemma SenderData(taker: Pc, pc: Pc, flag: int, connected: bool, d: Data, first: int, init: Packet)
    requires DataOk(taker, pc, flag, d, first, init) && !TakerWork(pc)
    requires Working(pc) ==> flag == 1 && !Working(taker)
    requires !pc.Asleep?
    ensures DataOk(NextPeer(pc, taker), NextPc(Sender, pc, flag, connected), NextFlag(pc, flag), StepData(d, Sender, pc), first, init)
  {
    if pc.FlipIn? {
      SenderFlip(taker, d, first, init);
    } else if Working(pc) {
      SenderWorkData(taker, pc, connected, d, first, init);
    } else {
      SenderIdleData(taker, pc, flag, connected, d, first, init);
    }
  }
}
