/** The way of the mode from the client monitor through ModeSender and its one-byte packets to the camera. */
module ModePropagation {
  import opened Bytes
  import opened MonitorSpec
  import opened Options
  import ClientMonitor
  import CameraMonitor
  import Monitor = MonitorTheorems

  // ---- The loop bodies at the two ends

  /** ModePack.pack */
  function Packed(mode: int): Byte {
    if mode == 1 then 1 else 0
  }

  /** The mode socket's output; failing when the connection is gone and a write throws. */
  class OutputStream {
    var bytes: seq<Byte>
    var failing: bool

    method Write(buffer: array<Byte>, off: nat, len: nat) returns (ok: bool)
      requires off + len <= buffer.Length
      modifies this`bytes
      ensures ok <==> !failing
      ensures bytes == old(bytes) + if ok then buffer[off..off + len] else []
    {
      ok := !failing;
      if ok {
        bytes := bytes + buffer[off..off + len];
      }
    }
  }

  /** How a turn of the sender's inner loop ends: still waiting in getNewMode, written, or out of the loop. */
  datatype TurnEnd = Waits | Wrote | Failed

  class ModeSender {
    var mode: int
    const buffer: array<Byte>

    constructor ()
      ensures fresh(buffer) && buffer.Length == 1 && mode == 0
    {
      mode := 0;
      buffer := new Byte[1];
    }

    method Pack(movieMode: int)
      requires buffer.Length == 1
      modifies buffer
      ensures buffer[0] == if movieMode == 1 then 1 else 0
    {
      if movieMode == 1 {
        buffer[0] := 0x01;
      } else {
        buffer[0] := 0x00;
      }
    }

    /** One turn of the inner loop, for what the monitor's mode is at each wake-up: the steps NewMode and then Write or
        WriteFails of the machine below. */
    method Turn(mon: ClientMonitor.Monitor, os: OutputStream, wakeups: seq<int>) returns (t: TurnEnd)
      requires buffer.Length == 1 && mon.Valid()
      modifies this, buffer, os`bytes, mon`modeToSend
      ensures mode == mon.modeToSend
      ensures os.bytes == old(os.bytes) + if t.Wrote? then [Packed(mode)] else []
      ensures t.Waits? || (t.Wrote? <==> !os.failing)
      ensures forall s: State :: AtHead(s, old(mode), mon.modeToSend) ==>
                if t.Waits? then !Enabled(s, NewMode)
                else Enabled(s, NewMode) && TookMode(Apply(s, NewMode), mode, Packed(mode))
    {
      var r, woken := mon.GetNewMode(mode, wakeups);
      if r.None? {
        return TurnEnd.Waits;
      }
      mode := r.value;
      Pack(mode);
      assert buffer[0..1] == [Packed(mode)];
      var ok := os.Write(buffer, 0, 1);
      t := if ok then Wrote else Failed;
    }
  }

  /** The sender is about to call getNewMode. */
  predicate AtHead(s: State, mode: int, modeToSend: int) {
    s.link.sending && s.link.pending.None? && s.link.mode == mode && s.mon.modeToSend == modeToSend
  }

  /** The sender is about to write this byte. */
  predicate TookMode(s: State, mode: int, byte: Byte) {
    s.link.mode == mode && s.link.pending.Some? && s.link.pending.value.byte == byte
  }

  /** One turn of update_mode_task, for the result rres of a one-byte read and the byte it delivered: the step
      CameraReads, CameraSeesEnd or CameraReadFails of the machine below. */
  method UpdateModeTurn(cam: CameraMonitor.Monitor, buf: array<Byte>, rres: int, input: Byte) returns (isConnected: bool, exits: bool)
    requires buf.Length == 1 && buf != cam.picPacket
    modifies cam`mode, buf
    ensures isConnected <==> rres != 0
    ensures exits <==> rres < 0
    ensures buf[0] == if rres > 0 then input else old(buf[0])
    ensures cam.mode == if rres < 0 then old(cam.mode) else buf[0]
    ensures forall s: State :: Serves(s, old(buf[0]), old(cam.mode)) && Enabled(s, ReadEvent(rres)) && (rres > 0 ==> Next(s) == input) ==>
              Serves(Apply(s, ReadEvent(rres)).(link := Apply(s, ReadEvent(rres)).link.(serving := true)), buf[0], cam.mode)
  {
    isConnected := true;
    if rres > 0 {
      buf[0] := input;
    }
    if rres == 0 {
      isConnected := false;
    }
    if rres < 0 {
      return isConnected, true;
    }
    cam.SetMode(buf[0]);
    exits := false;
  }

  function ReadEvent(rres: int): Event {
    if rres > 0 then CameraReads else if rres == 0 then CameraSeesEnd else CameraReadFails
  }

  predicate Serves(s: State, buf: Byte, mode: int) {
    s.link.serving && s.link.buf == buf && s.link.cameraMode == mode
  }

  /** The byte that the camera reads next. */
  function Next(s: State): Byte
    requires Enabled(s, CameraReads)
  {
    s.link.conns[0].bytes[0].byte
  }

  // ---- One sender, its connections and its camera, under any run of the monitor

  /** A packed mode, and which of the sender's modes it is, counting from 1. */
  datatype Sent = Sent(byte: Byte, number: nat)

  /** A connection: the bytes accepted by the sender's socket and not yet read, and whether the sender's end is open. */
  datatype Conn = Conn(bytes: seq<Sent>, open: bool)

  datatype Link = Link(
    mode: int,              // ModeSender.mode, which outlives a connection
    sending: bool,          // the sender is in its inner loop
    pending: Option<Sent>,  // packed, not yet written
    conns: seq<Conn>,       // the connections the camera is not done with, the oldest first; it serves the first
    attached: bool,         // the sender's connection is the last of these
    serving: bool,          // update_mode_task runs
    buf: Byte,              // its buffer, 0 when it starts
    cameraMode: int,        // the camera's mode, which outlives a connection
    stuck: bool)            // a read failed: the server waits for its other threads and accepts no more

  datatype State = State(
    mon: Mon, link: Link,
    history: seq<int>,      // every value modeToSend has had, event by event
    emitted: seq<int>,      // what getNewMode returned
    at: seq<nat>,           // where in the history it did
    read: seq<Sent>,        // what the camera read
    lost: seq<Sent>)        // what was not written, or written and will not be read

  datatype Event =
    | OnMonitor(e: Monitor.Event)
    | Connect                // ClientConnectionThread makes a new connection
    | NewMode
    | Write
    | WriteFails(cut: nat)   // and the last cut bytes still on their way are lost as well
    | Accept                 // try_accept starts update_mode_task on the oldest connection
    | CameraReads | CameraSeesEnd | CameraReadFails

  function LastConn(k: Link): Conn
    requires k.conns != []
  {
    k.conns[|k.conns| - 1]
  }

  predicate Enabled(s: State, e: Event) {
    var k := s.link;
    match e
    case OnMonitor(_) => true
    case Connect => !k.sending
    case NewMode => k.sending && k.pending.None? && k.mode != s.mon.modeToSend
    case Write => k.pending.Some? && (k.attached ==> k.conns != [])
    case WriteFails(cut) => k.pending.Some? && (k.attached ==> k.conns != [] && cut <= |LastConn(k).bytes|)
    case Accept => !k.serving && !k.stuck && k.conns != []
    case CameraReads => k.serving && k.conns != [] && k.conns[0].bytes != []
    case CameraSeesEnd => k.serving && k.conns != [] && k.conns[0].bytes == [] && !k.conns[0].open
    case CameraReadFails => k.serving && k.conns != []
  }

  /** The connections when the sender's, the last one, is c. */
  function WithLast(conns: seq<Conn>, c: Conn): seq<Conn>
    requires conns != []
  {
    conns[..|conns| - 1] + [c]
  }

  function ApplyWriteFails(s: State, cut: nat): State
    requires Enabled(s, WriteFails(cut))
  {
    var k := s.link;
    var k' := k.(pending := None, sending := false, attached := false);
    if !k.attached then s.(link := k', lost := s.lost + [k.pending.value])
    else
      var bytes := LastConn(k).bytes;
      var kept := |bytes| - cut;
      s.(link := k'.(conns := WithLast(k.conns, Conn(bytes[..kept], false))), lost := s.lost + (bytes[kept..] + [k.pending.value]))
  }

  function Apply(s: State, e: Event): State
    requires Enabled(s, e)
  {
    var k := s.link;
    match e
    case OnMonitor(me) =>
      var mon := Monitor.Apply(s.mon, me);
      s.(mon := mon, history := s.history + [mon.modeToSend])
    case Connect => s.(link := k.(sending := true, attached := true, conns := k.conns + [Conn([], true)]))
    case NewMode =>
      var mode := s.mon.modeToSend;
      s.(link := k.(mode := mode, pending := Some(Sent(Packed(mode), |s.emitted| + 1))),
         emitted := s.emitted + [mode], at := s.at + [|s.history|])
    case Write =>
      if !k.attached then s.(link := k.(pending := None), lost := s.lost + [k.pending.value])
      else
        var c := LastConn(k);
        s.(link := k.(pending := None, conns := WithLast(k.conns, c.(bytes := c.bytes + [k.pending.value]))))
    case WriteFails(cut) => ApplyWriteFails(s, cut)
    case Accept => s.(link := k.(serving := true, buf := 0))
    case CameraReads =>
      var c := k.conns[0];
      var x := c.bytes[0];
      s.(link := k.(conns := [c.(bytes := c.bytes[1..])] + k.conns[1..], buf := x.byte, cameraMode := x.byte),
         read := s.read + [x])
    case CameraSeesEnd =>
      s.(link := k.(conns := k.conns[1..], serving := false, cameraMode := k.buf))
    case CameraReadFails =>
      s.(link := k.(conns := k.conns[1..], serving := false, stuck := true, attached := k.attached && |k.conns| > 1),
         lost := s.lost + k.conns[0].bytes)
  }

  function Init(): State {
    State(InitMon(), Link(0, false, None, [], false, false, 0, CameraMonitor.IDLE_MODE, false), [], [], [], [], [])
  }

  predicate IsRun(es: seq<Event>)
    decreases |es|, 0
  {
    es == [] || (IsRun(es[..|es| - 1]) && Enabled(After(es[..|es| - 1]), es[|es| - 1]))
  }

  function After(es: seq<Event>): State
    requires IsRun(es)
    decreases |es|, 1
  {
    if es == [] then Init() else Apply(After(es[..|es| - 1]), es[|es| - 1])
  }

  /** The value of modeToSend after i monitor events. */
  function ModeAt(history: seq<int>, i: nat): int
    requires i <= |history|
  {
    if i == 0 then 0 else history[i - 1]
  }

  // ---- What a sender emits

  /** The emitted values are taken from the history at strictly increasing places, no two in a row are equal, the first
      is not the initial mode, and the last is the sender's mode. */
  predicate Subsequence(history: seq<int>, emitted: seq<int>, at: seq<nat>, mode: int) {
    && |at| == |emitted|
    && (forall i :: 0 <= i < |at| ==> at[i] <= |history| && emitted[i] == ModeAt(history, at[i]))
    && (forall i :: 0 < i < |at| ==> at[i - 1] < at[i] && emitted[i - 1] != emitted[i])
    && (emitted != [] ==> emitted[0] != 0)
    && mode == if emitted == [] then 0 else emitted[|emitted| - 1]
  }

  lemma HistoryGrows(history: seq<int>, emitted: seq<int>, at: seq<nat>, mode: int, m: int)
    requires Subsequence(history, emitted, at, mode)
    ensures Subsequence(history + [m], emitted, at, mode)
  {
    assert forall i :: 0 <= i <= |history| ==> ModeAt(history + [m], i) == ModeAt(history, i);
  }

  lemma EmitsCurrent(history: seq<int>, emitted: seq<int>, at: seq<nat>, mode: int)
    requires Subsequence(history, emitted, at, mode) && mode != ModeAt(history, |history|)
    ensures var m := ModeAt(history, |history|);
            Subsequence(history, emitted + [m], at + [|history|], m)
  {
  }

  predicate Emission(s: State) {
    s.mon.modeToSend == ModeAt(s.history, |s.history|) && Subsequence(s.history, s.emitted, s.at, s.link.mode)
  }

  lemma EmissionStep(s: State, e: Event)
    requires Emission(s) && Enabled(s, e)
    ensures Emission(Apply(s, e))
  {
    if e.OnMonitor? {
      HistoryGrows(s.history, s.emitted, s.at, s.link.mode, Apply(s, e).mon.modeToSend);
    } else if e.NewMode? {
      EmitsCurrent(s.history, s.emitted, s.at, s.link.mode);
    }
  }

  /** Every sender emits a stutter-free subsequence of the history of modeToSend, whatever is lost on the way. */
  lemma {:induction false} EmissionRun(es: seq<Event>)
    requires IsRun(es)
    ensures Emission(After(es))
  {
    if es != [] {
      EmissionRun(es[..|es| - 1]);
      EmissionStep(After(es[..|es| - 1]), es[|es| - 1]);
    }
  }

  /** Only the three modes of the user interface are ever set. */
  predicate KnownModes(es: seq<Event>) {
    forall i :: 0 <= i < |es| && es[i].OnMonitor? && es[i].e.SetMode? ==> es[i].e.mode in {MODE_AUTO, MODE_IDLE, MODE_MOVIE}
  }

  predicate Binary(s: State) {
    0 <= s.mon.mode <= 2 && 0 <= s.mon.modeToSend <= 1 && forall i :: 0 <= i < |s.history| ==> 0 <= s.history[i] <= 1
  }

  lemma BinaryCall(m: Mon, e: Monitor.Event)
    requires 0 <= m.mode <= 2 && 0 <= m.modeToSend <= 1
    requires e.SetMode? ==> e.mode in {MODE_AUTO, MODE_IDLE, MODE_MOVIE}
    ensures 0 <= Monitor.Apply(m, e).mode <= 2 && 0 <= Monitor.Apply(m, e).modeToSend <= 1
  {
  }

  lemma BinaryStep(s: State, e: Event)
    requires Binary(s) && Enabled(s, e)
    requires e.OnMonitor? && e.e.SetMode? ==> e.e.mode in {MODE_AUTO, MODE_IDLE, MODE_MOVIE}
    ensures Binary(Apply(s, e))
  {
    if e.OnMonitor? {
      BinaryCall(s.mon, e.e);
    }
  }

  lemma {:induction false} HistoryIsBinary(es: seq<Event>)
    requires IsRun(es) && KnownModes(es)
    ensures Binary(After(es))
  {
    if es != [] {
      HistoryIsBinary(es[..|es| - 1]);
      BinaryStep(After(es[..|es| - 1]), es[|es| - 1]);
    }
  }

  /** Strictly 1, 0, 1, 0, and so on. */
  predicate Alternates(emitted: seq<int>) {
    forall i :: 0 <= i < |emitted| ==> emitted[i] == if i % 2 == 0 then 1 else 0
  }

  lemma {:induction false} AlternatesAt(s: State, i: nat)
    requires Emission(s) && Binary(s) && i < |s.emitted|
    ensures s.emitted[i] == if i % 2 == 0 then 1 else 0
  {
    assert s.emitted[i] == ModeAt(s.history, s.at[i]);
    if i > 0 {
      AlternatesAt(s, i - 1);
    }
  }

  /** With the three modes of the user interface a sender emits strictly 1, 0, 1, 0, and so on. */
  lemma EmissionAlternates(es: seq<Event>)
    requires IsRun(es) && KnownModes(es)
    ensures Alternates(After(es).emitted)
  {
    EmissionRun(es);
    HistoryIsBinary(es);
    var s := After(es);
    forall i | 0 <= i < |s.emitted| ensures s.emitted[i] == if i % 2 == 0 then 1 else 0 {
      AlternatesAt(s, i);
    }
  }

  // ---- The connections

  /** A byte is pending only inside the sender's loop; its connection, while the camera is not done with it, is the last
      one and open; and the camera serves a connection that is there. */
  predicate ConnsOk(k: Link) {
    && (k.pending.Some? ==> k.sending)
    && (k.attached ==> k.sending && k.conns != [] && LastConn(k).open)
    && (k.serving ==> k.conns != [])
  }

  lemma ConnsStep(s: State, e: Event)
    requires ConnsOk(s.link) && Enabled(s, e)
    ensures ConnsOk(Apply(s, e).link)
  {
  }

  /** The conditions on connections never keep a side from going on: a pending byte can be written or fail, and a serving
      camera can read a byte, see the end, fail, or has nothing to read yet. */
  lemma {:induction false} ConnsOfRun(es: seq<Event>)
    requires IsRun(es)
    ensures var s := After(es);
            && ConnsOk(s.link)
            && (s.link.pending.Some? ==> Enabled(s, Write) && Enabled(s, WriteFails(0)))
            && (s.link.serving ==> Enabled(s, CameraReadFails))
  {
    if es != [] {
      ConnsOfRun(es[..|es| - 1]);
      ConnsStep(After(es[..|es| - 1]), es[|es| - 1]);
    }
  }

  // ---- What becomes of an emitted mode

  /** The bytes on their way, oldest first. */
  function Flight(conns: seq<Conn>): seq<Sent> {
    if conns == [] then [] else conns[0].bytes + Flight(conns[1..])
  }

  lemma {:induction false} FlightLast(conns: seq<Conn>, c: Conn)
    ensures Flight(conns + [c]) == Flight(conns) + c.bytes
  {
    if conns == [] {
      assert [c][1..] == [] && conns + [c] == [c];
      assert c.bytes + [] == [] + c.bytes;
    } else {
      FlightLast(conns[1..], c);
      assert (conns + [c])[1..] == conns[1..] + [c];
      assert conns[0].bytes + (Flight(conns[1..]) + c.bytes) == (conns[0].bytes + Flight(conns[1..])) + c.bytes;
    }
  }

  function PendingOf(k: Link): seq<Sent> {
    if k.pending.Some? then [k.pending.value] else []
  }

  /** The emitted modes that are not lost: read, on their way, about to be written. */
  function Line(s: State): seq<Sent> {
    s.read + (Flight(s.link.conns) + PendingOf(s.link))
  }

  /** In the order of emission, each with its own byte. */
  predicate Numbered(line: seq<Sent>, emitted: seq<int>) {
    && (forall i :: 0 <= i < |line| ==> 1 <= line[i].number <= |emitted| && line[i].byte == Packed(emitted[line[i].number - 1]))
    && (forall i, j :: 0 <= i < j < |line| ==> line[i].number < line[j].number)
  }

  predicate Has(line: seq<Sent>, number: nat) {
    exists i :: 0 <= i < |line| && line[i].number == number
  }

  /** Every emitted mode is in the line or lost. */
  predicate Accounted(line: seq<Sent>, lost: seq<Sent>, n: nat) {
    forall k :: 1 <= k <= n ==> Has(line, k) || Has(lost, k)
  }

  lemma HasAppend(a: seq<Sent>, b: seq<Sent>, k: nat)
    ensures Has(a + b, k) <==> Has(a, k) || Has(b, k)
  {
    if Has(a, k) {
      var i :| 0 <= i < |a| && a[i].number == k;
      assert (a + b)[i].number == k;
    }
    if Has(b, k) {
      var i :| 0 <= i < |b| && b[i].number == k;
      assert (a + b)[|a| + i].number == k;
    }
  }

  /** Losing a part of the line. */
  lemma Cut(a: seq<Sent>, b: seq<Sent>, c: seq<Sent>, lost: seq<Sent>, emitted: seq<int>)
    requires Numbered(a + (b + c), emitted) && Accounted(a + (b + c), lost, |emitted|)
    ensures Numbered(a + c, emitted) && Accounted(a + c, lost + b, |emitted|)
  {
    var line, line' := a + (b + c), a + c;
    assert forall i :: 0 <= i < |line'| ==> line'[i] == line[if i < |a| then i else i + |b|];
    forall k | 1 <= k <= |emitted| ensures Has(line', k) || Has(lost + b, k) {
      assert Has(line, k) || Has(lost, k);
      HasAppend(a, b + c, k);
      HasAppend(b, c, k);
      HasAppend(a, c, k);
      HasAppend(lost, b, k);
    }
  }

  /** Emitting one more mode. */
  lemma Extend(line: seq<Sent>, lost: seq<Sent>, emitted: seq<int>, m: int)
    requires Numbered(line, emitted) && Accounted(line, lost, |emitted|)
    ensures var line' := line + [Sent(Packed(m), |emitted| + 1)];
            Numbered(line', emitted + [m]) && Accounted(line', lost, |emitted| + 1)
  {
    var x := Sent(Packed(m), |emitted| + 1);
    forall k | 1 <= k <= |emitted| + 1 ensures Has(line + [x], k) || Has(lost, k) {
      HasAppend(line, [x], k);
      assert k == |emitted| + 1 ==> [x][0].number == k;
    }
  }

  predicate Fate(s: State) {
    Numbered(Line(s), s.emitted) && Accounted(Line(s), s.lost, |s.emitted|)
  }

  lemma LastOfFlight(conns: seq<Conn>)
    requires conns != []
    ensures Flight(conns) == Flight(conns[..|conns| - 1]) + conns[|conns| - 1].bytes
  {
    FlightLast(conns[..|conns| - 1], conns[|conns| - 1]);
    assert conns == conns[..|conns| - 1] + [conns[|conns| - 1]];
  }

  lemma FateOfWrite(s: State)
    requires Fate(s) && Enabled(s, Write)
    ensures Fate(Apply(s, Write))
  {
    var k, k' := s.link, Apply(s, Write).link;
    if k.attached {
      var front, c := k.conns[..|k.conns| - 1], LastConn(k);
      LastOfFlight(k.conns);
      FlightLast(front, c.(bytes := c.bytes + [k.pending.value]));
      assert Flight(front) + c.bytes + [k.pending.value] == Flight(front) + (c.bytes + [k.pending.value]) + [];
      assert Line(Apply(s, Write)) == Line(s);
    } else {
      var a, p := s.read + Flight(k.conns), [k.pending.value];
      assert Line(s) == a + (p + []);
      Cut(a, p, [], s.lost, s.emitted);
      assert Line(Apply(s, Write)) == a + [];
    }
  }

  /** Losing the end of the line from somewhere in its last connection on. */
  lemma CutEnd(read: seq<Sent>, front: seq<Sent>, bytes: seq<Sent>, p: seq<Sent>, kept: nat, lost: seq<Sent>, emitted: seq<int>)
    requires kept <= |bytes|
    requires Numbered(read + ((front + bytes) + p), emitted) && Accounted(read + ((front + bytes) + p), lost, |emitted|)
    ensures Numbered(read + ((front + bytes[..kept]) + []), emitted)
    ensures Accounted(read + ((front + bytes[..kept]) + []), lost + (bytes[kept..] + p), |emitted|)
  {
    var a := read + (front + bytes[..kept]);
    assert bytes == bytes[..kept] + bytes[kept..];
    assert read + ((front + bytes) + p) == a + ((bytes[kept..] + p) + []);
    Cut(a, bytes[kept..] + p, [], lost, emitted);
    assert a + [] == read + ((front + bytes[..kept]) + []);
  }

  lemma FateOfWriteFails(s: State, cut: nat)
    requires Fate(s) && Enabled(s, WriteFails(cut))
    ensures Fate(Apply(s, WriteFails(cut)))
  {
    var k := s.link;
    var p := [k.pending.value];
    if k.attached {
      var front, bytes := k.conns[..|k.conns| - 1], LastConn(k).bytes;
      LastOfFlight(k.conns);
      FlightLast(front, Conn(bytes[..|bytes| - cut], false));
      CutEnd(s.read, Flight(front), bytes, p, |bytes| - cut, s.lost, s.emitted);
    } else {
      var flight, none: seq<Sent> := Flight(k.conns), [];
      assert flight + none == flight && none[0..] + p == p && none[..0] == none;
      CutEnd(s.read, flight, none, p, 0, s.lost, s.emitted);
    }
  }

  lemma FateOfRead(s: State)
    requires Fate(s) && Enabled(s, CameraReads)
    ensures Fate(Apply(s, CameraReads))
  {
    var s' := Apply(s, CameraReads);
    var bytes, rest := s.link.conns[0].bytes, Flight(s.link.conns[1..]);
    assert s'.link.conns[1..] == s.link.conns[1..];
    MoveFirst(s.read, bytes, rest, PendingOf(s.link));
    assert Flight(s'.link.conns) == bytes[1..] + rest;
  }

  lemma MoveFirst(read: seq<Sent>, bytes: seq<Sent>, rest: seq<Sent>, p: seq<Sent>)
    requires bytes != []
    ensures read + ((bytes + rest) + p) == (read + [bytes[0]]) + ((bytes[1..] + rest) + p)
  {
  }

  lemma FateOfEnd(s: State)
    requires Fate(s) && Enabled(s, CameraSeesEnd)
    ensures Fate(Apply(s, CameraSeesEnd))
  {
    var rest := Flight(s.link.conns[1..]);
    assert [] + rest == rest;
    assert Flight(s.link.conns) == rest;
  }

  lemma FateOfReadFailure(s: State)
    requires Fate(s) && Enabled(s, CameraReadFails)
    ensures Fate(Apply(s, CameraReadFails))
  {
    var bytes, rest, p := s.link.conns[0].bytes, Flight(s.link.conns[1..]), PendingOf(s.link);
    assert (bytes + rest) + p == bytes + (rest + p);
    Cut(s.read, bytes, rest + p, s.lost, s.emitted);
  }

  lemma FateStep(s: State, e: Event)
    requires Fate(s) && Enabled(s, e)
    ensures Fate(Apply(s, e))
  {
    match e
    case Write => FateOfWrite(s);
    case WriteFails(cut) => FateOfWriteFails(s, cut);
    case NewMode =>
      Extend(Line(s), s.lost, s.emitted, s.mon.modeToSend);
      var x := Sent(Packed(s.mon.modeToSend), |s.emitted| + 1);
      assert Line(Apply(s, e)) == Line(s) + [x];
    case Connect =>
      FlightLast(s.link.conns, Conn([], true));
      assert Line(Apply(s, e)) == Line(s);
    case OnMonitor(_) =>
      assert Line(Apply(s, e)) == Line(s);
    case Accept =>
      assert Line(Apply(s, e)) == Line(s);
    case CameraReads => FateOfRead(s);
    case CameraSeesEnd => FateOfEnd(s);
    case CameraReadFails => FateOfReadFailure(s);
  }

  /** The camera reads modes that were emitted, in the order of emission; every mode emitted is read, on its way, about to
      be written, or lost. */
  lemma {:induction false} FateOfRun(es: seq<Event>)
    requires IsRun(es)
    ensures Fate(After(es))
  {
    if es != [] {
      FateOfRun(es[..|es| - 1]);
      FateStep(After(es[..|es| - 1]), es[|es| - 1]);
    }
  }

  // ---- What the camera ends up with

  /** The number of the last mode read. */
  function LastRead(s: State): nat {
    if s.read == [] then 0 else s.read[|s.read| - 1].number
  }

  /** update_mode_task has read a byte since it was last started. */
  predicate ReadSinceAccept(es: seq<Event>) {
    es != [] &&
    var e := es[|es| - 1];
    e.CameraReads? || (!e.Accept? && ReadSinceAccept(es[..|es| - 1]))
  }

  /** The last connection that was seen to end had delivered no byte, and none was read since. */
  predicate EndedEmpty(es: seq<Event>) {
    es != [] &&
    var front, e := es[..|es| - 1], es[|es| - 1];
    if e.CameraSeesEnd? then !ReadSinceAccept(front) else !e.CameraReads? && EndedEmpty(front)
  }

  /** The number of the mode that the camera applied last: that of the last byte read; 0, for its initial mode, before the
      first and after a connection that ended before it delivered a byte. */
  function Applied(es: seq<Event>): nat
    requires IsRun(es)
  {
    if EndedEmpty(es) then 0 else LastRead(After(es))
  }

  /** The camera has the mode with that number, and its buffer the byte read last on this connection. */
  predicate CameraOk(s: State, applied: nat, reading: bool) {
    && applied <= |s.emitted|
    && s.link.cameraMode == (if applied == 0 then 0 else Packed(s.emitted[applied - 1]))
    && (s.link.serving ==> s.link.buf == if reading then s.link.cameraMode else 0)
  }

  /** While nothing is lost no connection has ended. */
  predicate UnbrokenOk(s: State, ended: bool) {
    s.lost == [] ==> !ended && forall i :: 0 <= i < |s.link.conns| ==> s.link.conns[i].open
  }

  lemma NextIsNumbered(s: State)
    requires Fate(s) && Enabled(s, CameraReads)
    ensures var x := s.link.conns[0].bytes[0];
            1 <= x.number <= |s.emitted| && x.byte == Packed(s.emitted[x.number - 1])
  {
    assert Line(s)[|s.read|] == s.link.conns[0].bytes[0];
  }

  /** The events of update_mode_task. */
  predicate AtCamera(e: Event) {
    e.Accept? || e.CameraReads? || e.CameraSeesEnd? || e.CameraReadFails?
  }

  lemma CameraElsewhere(s: State, e: Event, applied: nat, reading: bool)
    requires CameraOk(s, applied, reading) && Enabled(s, e) && !AtCamera(e)
    ensures CameraOk(Apply(s, e), applied, reading) && Apply(s, e).read == s.read
  {
    var s' := Apply(s, e);
    assert s.emitted <= s'.emitted;
    assert s'.link.cameraMode == s.link.cameraMode && s'.link.serving == s.link.serving && s'.link.buf == s.link.buf;
  }

  lemma UnbrokenAtSender(s: State, e: Event, ended: bool)
    requires UnbrokenOk(s, ended) && Enabled(s, e) && !AtCamera(e)
    ensures UnbrokenOk(Apply(s, e), ended)
  {
    if e.WriteFails? {
      assert Apply(s, e).lost != [];
    }
  }

  lemma CameraThere(s: State, e: Event, applied: nat, reading: bool)
    requires Fate(s) && CameraOk(s, applied, reading) && Enabled(s, e) && AtCamera(e)
    ensures var s' := Apply(s, e);
            match e
            case Accept => CameraOk(s', applied, false) && s'.read == s.read
            case CameraReads => CameraOk(s', LastRead(s'), true)
            case CameraSeesEnd => CameraOk(s', if reading then applied else 0, reading) && s'.read == s.read
            case _ => CameraOk(s', applied, reading) && s'.read == s.read
  {
    if e.CameraReads? {
      NextIsNumbered(s);
    }
  }

  lemma {:induction false} ReadingNotEnded(es: seq<Event>)
    ensures ReadSinceAccept(es) ==> !EndedEmpty(es)
  {
    if es != [] {
      ReadingNotEnded(es[..|es| - 1]);
    }
  }

  lemma AppliedStep(es: seq<Event>)
    requires IsRun(es) && es != []
    requires var front := es[..|es| - 1];
             es[|es| - 1].CameraReads? || After(es).read == After(front).read
    ensures var front, e := es[..|es| - 1], es[|es| - 1];
            Applied(es) == if e.CameraReads? then LastRead(After(es))
                           else if e.CameraSeesEnd? && !ReadSinceAccept(front) then 0 else Applied(front)
  {
    ReadingNotEnded(es[..|es| - 1]);
  }

  lemma CameraStep(es: seq<Event>)
    requires IsRun(es) && es != []
    requires var front := es[..|es| - 1];
             Fate(After(front)) && CameraOk(After(front), Applied(front), ReadSinceAccept(front))
    ensures CameraOk(After(es), Applied(es), ReadSinceAccept(es))
  {
    var front, e := es[..|es| - 1], es[|es| - 1];
    if AtCamera(e) {
      CameraThere(After(front), e, Applied(front), ReadSinceAccept(front));
    } else {
      CameraElsewhere(After(front), e, Applied(front), ReadSinceAccept(front));
    }
    AppliedStep(es);
  }

  lemma UnbrokenAtCamera(s: State, e: Event, ended: bool, reading: bool)
    requires UnbrokenOk(s, ended) && Enabled(s, e) && AtCamera(e)
    ensures UnbrokenOk(Apply(s, e), if e.CameraSeesEnd? then !reading else !e.CameraReads? && ended)
  {
    if s.lost == [] && !e.Accept? {
      assert s.link.conns[0].open;
    }
  }

  lemma UnbrokenStep(es: seq<Event>)
    requires IsRun(es) && es != []
    requires var front := es[..|es| - 1];
             UnbrokenOk(After(front), EndedEmpty(front))
    ensures UnbrokenOk(After(es), EndedEmpty(es))
  {
    var front, e := es[..|es| - 1], es[|es| - 1];
    if AtCamera(e) {
      UnbrokenAtCamera(After(front), e, EndedEmpty(front), ReadSinceAccept(front));
    } else {
      UnbrokenAtSender(After(front), e, EndedEmpty(front));
    }
  }

  /** In every run the camera's mode is the one applied last, as the events say it. */
  lemma {:induction false} CameraOfRun(es: seq<Event>)
    requires IsRun(es)
    ensures CameraOk(After(es), Applied(es), ReadSinceAccept(es)) && UnbrokenOk(After(es), EndedEmpty(es))
  {
    if es != [] {
      CameraOfRun(es[..|es| - 1]);
      FateOfRun(es[..|es| - 1]);
      CameraStep(es);
      UnbrokenStep(es);
    }
  }

  /** The sender waits in getNewMode, and the camera has read all there is to read. */
  predicate Settled(s: State) {
    && s.link.sending && s.link.pending.None? && s.link.mode == s.mon.modeToSend
    && forall i :: 0 <= i < |s.link.conns| ==> s.link.conns[i].bytes == [] && s.link.conns[i].open
  }

  lemma {:induction false} NothingOnItsWay(conns: seq<Conn>)
    requires forall i :: 0 <= i < |conns| ==> conns[i].bytes == []
    ensures Flight(conns) == []
  {
    if conns != [] {
      NothingOnItsWay(conns[1..]);
    }
  }

  lemma NotPastTheLast(line: seq<Sent>, emitted: seq<int>, number: nat)
    requires Numbered(line, emitted) && (line != [] ==> line[|line| - 1].number < number)
    ensures !Has(line, number)
  {
    forall i | 0 <= i < |line| ensures line[i].number != number {
      assert line[i].number <= line[|line| - 1].number;
    }
  }

  /** Once settled, every mode emitted after the last one the camera read is lost. */
  lemma UnreadAreLost(es: seq<Event>, number: nat)
    requires IsRun(es) && Settled(After(es)) && LastRead(After(es)) < number <= |After(es).emitted|
    ensures Has(After(es).lost, number)
  {
    var s := After(es);
    FateOfRun(es);
    NothingOnItsWay(s.link.conns);
    assert Line(s) == s.read;
    NotPastTheLast(s.read, s.emitted, number);
  }

  /** While nothing is lost, a settled camera has the mode to send. */
  lemma CameraFollows(es: seq<Event>)
    requires IsRun(es) && Settled(After(es)) && After(es).lost == []
    ensures After(es).link.cameraMode == Packed(After(es).mon.modeToSend)
  {
    var s := After(es);
    FateOfRun(es);
    CameraOfRun(es);
    EmissionRun(es);
    if LastRead(s) < |s.emitted| {
      UnreadAreLost(es, |s.emitted|);
    }
  }

  /** The sender's mode alternates, starting from 0. */
  lemma SenderParity(s: State)
    requires Emission(s) && Alternates(s.emitted)
    ensures s.link.mode == |s.emitted| % 2
  {
  }

  /** So does the camera's, by the number of the mode it applied last. */
  lemma CameraParity(s: State, applied: nat, reading: bool)
    requires CameraOk(s, applied, reading) && Alternates(s.emitted)
    ensures s.link.cameraMode == applied % 2
  {
  }

  /** How many modes were emitted since the one the camera applied last. */
  function Missed(es: seq<Event>): int
    requires IsRun(es)
  {
    |After(es).emitted| - Applied(es)
  }

  /** The exact condition, whatever is lost: a settled camera has the mode to send exactly when an even number of modes was
      emitted since the one it applied last. Those modes are lost, unless a connection that ended before it delivered a
      byte has taken the camera back to its initial mode; then all modes emitted count. */
  lemma CameraFollowsIff(es: seq<Event>)
    requires IsRun(es) && KnownModes(es) && Settled(After(es))
    ensures After(es).link.cameraMode == After(es).mon.modeToSend <==> Missed(es) % 2 == 0
  {
    EmissionRun(es);
    CameraOfRun(es);
    EmissionAlternates(es);
    SenderParity(After(es));
    CameraParity(After(es), Applied(es), ReadSinceAccept(es));
  }

  lemma OneMoreEvent(es: seq<Event>, e: Event)
    requires IsRun(es) && Enabled(After(es), e)
    ensures IsRun(es + [e]) && After(es + [e]) == Apply(After(es), e)
  {
    assert (es + [e])[..|es|] == es;
  }

  // ---- After a failed read

  /** No camera loop runs, none will be started, and this is the camera's mode. */
  predicate Frozen(s: State, mode: int, read: seq<Sent>) {
    s.link.stuck && !s.link.serving && s.link.cameraMode == mode && s.read == read
  }

  lemma FrozenStep(s: State, e: Event, mode: int, read: seq<Sent>)
    requires Frozen(s, mode, read) && Enabled(s, e)
    ensures Frozen(Apply(s, e), mode, read)
  {
  }

  lemma StuckStep(s: State, e: Event)
    requires Enabled(s, e)
    ensures Apply(s, e).link.stuck <==> s.link.stuck || e.CameraReadFails?
  {
  }

  /** The server stops accepting exactly when a read has failed. */
  lemma {:induction false} StuckIff(es: seq<Event>)
    requires IsRun(es)
    ensures After(es).link.stuck <==> CameraReadFails in es
  {
    if es != [] {
      StuckIff(es[..|es| - 1]);
      StuckStep(After(es[..|es| - 1]), es[|es| - 1]);
      assert es == es[..|es| - 1] + [es[|es| - 1]];
    }
  }

  /** A failed read is final: the camera reads nothing more and keeps the mode it has. */
  lemma {:induction false} ReadFailureIsFinal(es: seq<Event>, more: seq<Event>)
    requires IsRun(es) && es != [] && es[|es| - 1] == CameraReadFails && IsRun(es + more)
    ensures Frozen(After(es + more), After(es).link.cameraMode, After(es).read)
    decreases |more|
  {
    if more == [] {
      assert es + more == es;
    } else {
      var shorter := more[..|more| - 1];
      assert (es + more)[..|es + more| - 1] == es + shorter;
      ReadFailureIsFinal(es, shorter);
      FrozenStep(After(es + shorter), more[|more| - 1], After(es).link.cameraMode, After(es).read);
    }
  }

  // ---- Without failures

  predicate NoFailures(es: seq<Event>) {
    forall i :: 0 <= i < |es| ==> !es[i].WriteFails? && !es[i].CameraReadFails?
  }

  /** There is one connection at most, both ends stay open, and no byte is lost. */
  predicate Lossless(s: State) {
    && s.lost == [] && !s.link.stuck
    && (if s.link.sending then s.link.attached && |s.link.conns| == 1 && s.link.conns[0].open
        else s.link.conns == [] && s.link.pending.None?)
    && (s.link.serving ==> s.link.sending)
  }

  lemma LosslessStep(s: State, e: Event)
    requires Lossless(s) && Enabled(s, e) && !e.WriteFails? && !e.CameraReadFails?
    ensures Lossless(Apply(s, e))
  {
  }

  /** A run in which no write and no read fails loses nothing. */
  lemma {:induction false} NothingLost(es: seq<Event>)
    requires IsRun(es) && NoFailures(es)
    ensures Lossless(After(es))
  {
    if es != [] {
      NothingLost(es[..|es| - 1]);
      LosslessStep(After(es[..|es| - 1]), es[|es| - 1]);
    }
  }

  /** How far such a state is from being settled. */
  function Distance(s: State): nat
    requires Lossless(s)
  {
    var k := s.link;
    (if k.sending then |k.conns[0].bytes| else 8) + (if k.mode != s.mon.modeToSend then 4 else 0)
    + (if k.pending.Some? then 2 else 0) + (if k.serving then 0 else 1)
  }

  function DistanceOf(s: State): nat {
    if Lossless(s) then Distance(s) else 0
  }

  /** An event that brings it nearer. */
  function Nearer(s: State): Event
    requires Lossless(s)
  {
    var k := s.link;
    if !k.sending then Connect
    else if k.pending.Some? then Write
    else if k.mode != s.mon.modeToSend then NewMode
    else if !k.serving then Accept
    else CameraReads
  }

  lemma NearerStep(s: State)
    requires Lossless(s) && !Settled(s)
    ensures var e := Nearer(s);
            && Enabled(s, e) && !e.WriteFails? && !e.CameraReadFails? && !e.OnMonitor?
            && Lossless(Apply(s, e)) && Distance(Apply(s, e)) < Distance(s) && Apply(s, e).mon == s.mon
  {
  }

  /** From every state of a run without failures the two sides can go on, without further calls of the monitor's methods, to
      a state in which the camera has the mode to send. */
  lemma {:induction false} CanSettle(es: seq<Event>) returns (es': seq<Event>)
    requires IsRun(es) && NoFailures(es)
    ensures es <= es' && IsRun(es') && NoFailures(es') && Settled(After(es')) && After(es').mon == After(es).mon
    ensures After(es').link.cameraMode == Packed(After(es).mon.modeToSend)
    decreases DistanceOf(After(es))
  {
    NothingLost(es);
    var s := After(es);
    if Settled(s) {
      es' := es;
      CameraFollows(es);
    } else {
      NearerStep(s);
      OneMoreEvent(es, Nearer(s));
      NothingLost(es + [Nearer(s)]);
      es' := CanSettle(es + [Nearer(s)]);
    }
  }

  // ---- Concrete runs

  /** Both sides wait on one open connection. */
  predicate Waiting(k: Link) {
    k.sending && k.pending.None? && k.conns == [Conn([], true)] && k.attached && k.serving && !k.stuck
  }

  /** Neither side has a connection. */
  predicate Apart(k: Link) {
    !k.sending && k.pending.None? && k.conns == [] && !k.attached && !k.serving && !k.stuck
  }

  lemma Chosen(es: seq<Event>, mode: int) returns (es': seq<Event>)
    requires IsRun(es) && Waiting(After(es).link) && mode != MODE_AUTO && After(es).link.mode != mode - 1
    ensures IsRun(es') && ReadSinceAccept(es') == ReadSinceAccept(es) && After(es').read == After(es).read
    ensures After(es').link == After(es).link.(mode := mode - 1, pending := Some(Sent(Packed(mode - 1), |After(es).emitted| + 1)))
  {
    var choose := OnMonitor(Monitor.SetMode(mode));
    OneMoreEvent(es, choose);
    OneMoreEvent(es + [choose], NewMode);
    es' := es + [choose] + [NewMode];
    assert es'[..|es'| - 1] == es + [choose] && (es + [choose])[..|es|] == es;
  }

  /** The sender has a byte to write on an open connection with nothing on its way. */
  predicate Pending(k: Link) {
    k.pending.Some? && Waiting(k.(pending := None))
  }

  lemma WriteAndRead(s: State)
    requires Pending(s.link)
    ensures var s1 := Apply(s, Write);
            && Enabled(s1, CameraReads)
            && var s2 := Apply(s1, CameraReads);
               Waiting(s2.link) && s2.link.mode == s.link.mode && s2.read == s.read + [s.link.pending.value]
  {
    var x := s.link.pending.value;
    var none: seq<Conn> := [];
    assert Apply(s, Write).link.conns == [Conn([x], true)] by {
      assert [] + [x] == [x] && s.link.conns[..0] == none;
      assert none + [Conn([x], true)] == [Conn([x], true)];
    }
    assert [x][1..] == [];
  }

  lemma FailAndEnd(s: State)
    requires Pending(s.link)
    ensures var s1 := Apply(s, WriteFails(0));
            && Enabled(s1, CameraSeesEnd)
            && var s2 := Apply(s1, CameraSeesEnd);
               Apart(s2.link) && s2.link.mode == s.link.mode && s2.read == s.read
  {
    assert Apply(s, WriteFails(0)).link.conns == [Conn([], false)];
  }

  lemma Delivered(es: seq<Event>, mode: int) returns (es': seq<Event>)
    requires IsRun(es) && Waiting(After(es).link) && mode != MODE_AUTO && After(es).link.mode != mode - 1
    ensures IsRun(es') && After(es').read != [] && Waiting(After(es').link) && After(es').link.mode == mode - 1
    ensures ReadSinceAccept(es')
  {
    es' := Chosen(es, mode);
    WriteAndRead(After(es'));
    OneMoreEvent(es', Write);
    OneMoreEvent(es' + [Write], CameraReads);
    es' := es' + [Write] + [CameraReads];
  }

  lemma FailedAndEnded(es: seq<Event>, mode: int) returns (es': seq<Event>)
    requires IsRun(es) && Waiting(After(es).link) && mode != MODE_AUTO && After(es).link.mode != mode - 1
    ensures IsRun(es') && (EndedEmpty(es') <==> !ReadSinceAccept(es)) && After(es').read == After(es).read
    ensures Apart(After(es').link) && After(es').link.mode == mode - 1
  {
    var chosen := Chosen(es, mode);
    var failed := chosen + [WriteFails(0)];
    FailAndEnd(After(chosen));
    OneMoreEvent(chosen, WriteFails(0));
    OneMoreEvent(failed, CameraSeesEnd);
    es' := failed + [CameraSeesEnd];
    assert failed[..|failed| - 1] == chosen && es'[..|es'| - 1] == failed;
  }

  lemma Reopened(es: seq<Event>) returns (es': seq<Event>)
    requires IsRun(es) && Apart(After(es).link)
    ensures IsRun(es') && !ReadSinceAccept(es') && After(es').read == After(es).read
    ensures Waiting(After(es').link) && After(es').link.mode == After(es).link.mode
  {
    OneMoreEvent(es, Connect);
    OneMoreEvent(es + [Connect], Accept);
    es' := es + [Connect] + [Accept];
  }

  /** A connection that ends before it delivers a byte takes the camera back to its initial mode: it can happen after mode 1
      was delivered, when the write of 0 fails and the next connection fails as well. */
  lemma EmptyConnection()
    ensures exists es :: IsRun(es) && EndedEmpty(es) && After(es).read != [] && After(es).link.cameraMode == 0
  {
    var none: seq<Event> := [];
    assert IsRun(none) && After(none) == Init();
    var es := Reopened(none);
    es := Delivered(es, MODE_MOVIE);
    es := FailedAndEnded(es, MODE_IDLE);
    es := Reopened(es);
    es := FailedAndEnded(es, MODE_MOVIE);
    CameraOfRun(es);
  }

  lemma FailedWrite() returns (es: seq<Event>)
    ensures IsRun(es) && KnownModes(es) && After(es).mon.modeToSend == 1
    ensures After(es).link == Link(1, false, None, [Conn([], false)], false, false, 0, 0, false)
  {
    var movie := OnMonitor(Monitor.SetMode(MODE_MOVIE));
    es := [];
    assert IsRun(es) && After(es) == Init();
    OneMoreEvent(es, movie);
    OneMoreEvent(es + [movie], Connect);
    es := es + [movie] + [Connect];
    assert After(es).link == Link(0, true, None, [Conn([], true)], true, false, 0, 0, false);
    OneMoreEvent(es, NewMode);
    OneMoreEvent(es + [NewMode], WriteFails(0));
    es := es + [NewMode] + [WriteFails(0)];
  }

  lemma EndedConnection() returns (es: seq<Event>)
    ensures IsRun(es) && KnownModes(es) && After(es).mon.modeToSend == 1
    ensures After(es).link == Link(1, false, None, [], false, false, 0, 0, false)
  {
    es := FailedWrite();
    OneMoreEvent(es, Accept);
    OneMoreEvent(es + [Accept], CameraSeesEnd);
    es := es + [Accept] + [CameraSeesEnd];
  }

  /** One failed write is enough: the sender settles on its next connection while the camera still has the old mode. */
  lemma LostUpdate()
    ensures exists es :: IsRun(es) && KnownModes(es) && Settled(After(es)) && After(es).link.cameraMode != After(es).mon.modeToSend
  {
    var es := EndedConnection();
    OneMoreEvent(es, Connect);
    assert After(es + [Connect]).link == Link(1, true, None, [Conn([], true)], true, false, 0, 0, false);
    assert Settled(After(es + [Connect]));
  }
}
