/** From the camera to getPicture: the hand-off, the packets, the framing and the picture buffer composed. */
module EndToEnd {
  import opened Bytes
  import opened PacketCodec
  import opened HandOff
  import opened HandOffTheorems
  import opened Sending
  import opened Framing
  import opened CameraMonitor
  import opened MonitorSpec
  import Monitor = MonitorTheorems

  /** The packets hold the encodings of the first of these frames. */
  ghost predicate CarryAll(ps: seq<Packet>, frames: seq<Frame>) {
    |ps| <= |frames| && forall i :: 0 <= i < |ps| ==> Carries(ps[i], frames[i])
  }

  /** Every packet is accepted whole: by write_n in one call, or by an advancing loop in any number of calls. */
  predicate AllFaithful(ps: seq<Packet>, ts: seq<Transfer>) {
    |ts| == |ps| && forall i :: 0 <= i < |ps| ==> 0 <= ps[i].size <= |ps[i].bytes| && Faithful(ts[i], ps[i].size)
  }

  /** What is put on the wire for these packets. */
  function Written(ps: seq<Packet>, ts: seq<Transfer>): seq<Byte>
    requires AllFaithful(ps, ts)
  {
    if ps == [] then []
    else
      assert Faithful(ts[0], ps[0].size);
      OnWire(ps[0].bytes[..ps[0].size], ts[0]) + Written(ps[1..], ts[1..])
  }

  lemma {:induction false} WrittenIsEncoding(ps: seq<Packet>, ts: seq<Transfer>, frames: seq<Frame>)
    requires AllFaithful(ps, ts) && CarryAll(ps, frames)
    ensures Written(ps, ts) == EncodeAll(frames[..|ps|])
  {
    if ps != [] {
      FaithfulTransfer(ps[0].bytes[..ps[0].size], ts[0]);
      assert Carries(ps[0], frames[0]) && frames[..|ps|][0] == frames[0];
      WrittenIsEncoding(ps[1..], ts[1..], frames[1..]);
      assert frames[..|ps|][1..] == frames[1..][..|ps| - 1];
    }
  }

  lemma {:induction false} EncodePrefix(frames: seq<Frame>, n: nat)
    requires n <= |frames|
    ensures EncodeAll(frames[..n]) <= EncodeAll(frames)
  {
    if n > 0 {
      EncodePrefix(frames[1..], n - 1);
      assert frames[..n][1..] == frames[1..][..n - 1];
    }
  }

  /** The frames of a connection: the one whose packet was left in the slot, if it goes first, and those captured. */
  ghost predicate FramesOf(first: int, slot: Packet, log: seq<Act>, frames: seq<Frame>) {
    AllSaved(log) && CarryAll(Stale(first, slot) + TakenIn(log), frames)
  }

  /** The bytes on the wire are a prefix of the encoded frames, in the order of capture. */
  lemma WireOfRun(first: int, slot: Packet, local: Packet, es: seq<HandOff.Event>, frames: seq<Frame>, ts: seq<Transfer>)
    requires 0 <= first <= 1 && IsRun(Init(first, slot, local), es)
    requires var d := Run(Init(first, slot, local), es).d;
             FramesOf(first, slot, d.log, frames) && AllFaithful(d.wrote, ts)
    ensures Written(Run(Init(first, slot, local), es).d.wrote, ts) <= EncodeAll(frames)
  {
    var d := Run(Init(first, slot, local), es).d;
    Fifo(first, slot, local, es);
    assert forall i :: 0 <= i < |d.wrote| ==> d.wrote[i] == (Stale(first, slot) + TakenIn(d.log))[i];
    WrittenIsEncoding(d.wrote, ts, frames);
    EncodePrefix(frames, |d.wrote|);
  }

  lemma {:induction false} PicturesOfPrefix(frames: seq<Frame>, k: nat)
    requires k <= |frames|
    ensures PicturesOf(frames[..k]) <= PicturesOf(frames)
  {
    if k > 0 {
      PicturesOfPrefix(frames[1..], k - 1);
      assert frames[..k][1..] == frames[1..][..k - 1];
    }
  }

  /** The receiver hands on the pictures of a prefix of the frames, whatever part of the bytes has arrived. */
  lemma ReceivedOfWire(wire: seq<Byte>, grants: seq<Grant>, frames: seq<Frame>)
    requires AllTransmissible(frames) && wire <= EncodeAll(frames)
    requires HeadersInTwoReads(Filling(), Stream(wire, 0, grants), frames)
    ensures Receive(Filling(), Stream(wire, 0, grants)).pictures <= PicturesOf(frames)
  {
    var s := Stream(wire, 0, grants);
    assert Unread(s) == wire;
    ReceivePrefix(Filling(), s, frames);
    PicturesOfPrefix(frames, Complete(frames, s.Left()));
  }

  /** The pictures that a run of the monitor was given for a camera. */
  function Given(es: seq<Monitor.Event>, c: Cam): (ps: seq<Picture>)
    ensures |ps| == |Monitor.RawPuts(es, c)|
  {
    seq(|Monitor.RawPuts(es, c)|, i requires 0 <= i < |Monitor.RawPuts(es, c)| => Monitor.RawPuts(es, c)[i].pic)
  }

  /** A picture shows a frame: the same bytes, and its time in milliseconds on a clock that is off by b. */
  predicate Shows(p: Picture, f: Frame, b: int) {
    p.bytes == f.data && p.timeStamp == f.timeStamp / NANOS_PER_MILLI + b
  }

  predicate ShowPrefix(ps: seq<Picture>, frames: seq<Frame>, b: int) {
    |ps| <= |frames| && forall i :: 0 <= i < |ps| ==> Shows(ps[i], frames[i], b)
  }

  lemma ReturnedShow(es: seq<Monitor.Event>, c: Cam, frames: seq<Frame>, b: int)
    requires Given(es, c) <= PicturesOf(frames) && Monitor.ShiftedBy(es, c, b)
    ensures ShowPrefix(Monitor.Returned(es, c), frames, b)
  {
    Monitor.Conservation(es, c);
    var raws, stored, out := Monitor.RawPuts(es, c), Monitor.Stored(es, c), Monitor.Returned(es, c);
    assert out <= stored;
    forall i | 0 <= i < |out|
      ensures Shows(out[i], frames[i], b)
    {
      assert out[i] == stored[i] == Shift(raws[i].pic, b);
      assert raws[i].pic == Given(es, c)[i] == PictureOf(frames[i]);
    }
  }

  // ---- The hypotheses of the end-to-end theorem

  /** The server, after a run of its two threads on a connection: no capture failed, the frames fit the format, each packet
      was accepted whole, and written is what was put on the wire. */
  ghost predicate ServerSide(first: int, slot: Packet, local: Packet, es: seq<HandOff.Event>, frames: seq<Frame>, written: seq<Byte>) {
    && 0 <= first <= 1 && IsRun(Init(first, slot, local), es)
    && AllTransmissible(frames)
    && var d := Run(Init(first, slot, local), es).d;
       && FramesOf(first, slot, d.log, frames)
       && exists ts :: AllFaithful(d.wrote, ts) && written == Written(d.wrote, ts)
  }

  /** The connection: what has arrived is a prefix of what was written, each header in at most two reads, and pictures
      is what the receiver makes of it. */
  ghost predicate Connection(written: seq<Byte>, wire: seq<Byte>, grants: seq<Grant>, frames: seq<Frame>, pictures: seq<Picture>) {
    && wire <= written
    && HeadersInTwoReads(Filling(), Stream(wire, 0, grants), frames)
    && pictures == Receive(Filling(), Stream(wire, 0, grants)).pictures
  }

  /** The client: the monitor was given a prefix of the pictures, and the first one's clock offset is not zero. */
  predicate ClientSide(pictures: seq<Picture>, es: seq<Monitor.Event>, c: Cam) {
    && Monitor.NumberedOneTwo(es)
    && Given(es, c) <= pictures
    && (Monitor.RawPuts(es, c) != [] ==> Monitor.Offset(Monitor.RawPuts(es, c)[0]) != 0)
  }

  /** The shift of the camera's stamps: the offset of its first picture. */
  function ClockOffset(es: seq<Monitor.Event>, c: Cam): int {
    if Monitor.RawPuts(es, c) == [] then 0 else Monitor.Offset(Monitor.RawPuts(es, c)[0])
  }

  lemma ShiftedByOffset(es: seq<Monitor.Event>, c: Cam)
    requires Monitor.NumberedOneTwo(es)
    requires Monitor.RawPuts(es, c) != [] ==> Monitor.Offset(Monitor.RawPuts(es, c)[0]) != 0
    ensures Monitor.ShiftedBy(es, c, ClockOffset(es, c))
  {
    Monitor.Rebasing(es, c);
  }

  /** For one camera and one connection, the first or a later one, in every state of every run of the two server threads, of
      the receiver and of the monitor: the pictures that getPicture has returned show a prefix of the frames captured (and
      of the one left from the connection before, if that goes first), with the same bytes and with time stamps that are
      off by one constant. */
  lemma PicturesAreFrames(first: int, slot: Packet, local: Packet, es: seq<HandOff.Event>, frames: seq<Frame>, written: seq<Byte>,
                          wire: seq<Byte>, grants: seq<Grant>, pictures: seq<Picture>, mes: seq<Monitor.Event>, c: Cam)
    requires ServerSide(first, slot, local, es, frames, written)
    requires Connection(written, wire, grants, frames, pictures)
    requires ClientSide(pictures, mes, c)
    ensures ShowPrefix(Monitor.Returned(mes, c), frames, ClockOffset(mes, c))
  {
    var wrote := Run(Init(first, slot, local), es).d.wrote;
    var ts :| AllFaithful(wrote, ts) && written == Written(wrote, ts);
    WireOfRun(first, slot, local, es, frames, ts);
    ReceivedOfWire(wire, grants, frames);
    ShiftedByOffset(mes, c);
    ReturnedShow(mes, c, frames, ClockOffset(mes, c));
  }
}
