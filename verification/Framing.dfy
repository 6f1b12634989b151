/** The read loops of PictureReciever.java as functions, and what they make of an encoded stream. */
module Framing {
  import opened Bytes
  import opened PacketCodec

  type Grant = n: nat | n >= 1 witness 1

  /** A connection: the bytes that arrive before end of stream, how many of them have been read, and an oracle
      for fragmentation, the most that each coming non-empty read delivers. A read beyond the oracle delivers
      all it was asked for. */
  datatype Stream = Stream(wire: seq<Byte>, pos: nat, grants: seq<Grant>) {
    function Left(): nat { if pos <= |wire| then |wire| - pos else 0 }
  }

  function Min(a: nat, b: nat): nat { if a <= b then a else b }

  /** How many bytes a read of at most len bytes delivers; 0 stands for Java's 0 and -1 alike. */
  function Delivered(s: Stream, len: nat): (k: nat)
    ensures k <= len && k <= s.Left()
    ensures k == 0 <==> len == 0 || s.Left() == 0
  {
    var available := Min(len, s.Left());
    if s.grants == [] then available else Min(available, s.grants[0])
  }

  function After(s: Stream, len: nat): Stream {
    var k := Delivered(s, len);
    s.(pos := s.pos + k, grants := if k == 0 || s.grants == [] then s.grants else s.grants[1..])
  }

  /** buf after k bytes of wire, from position pos, were copied to offset off. */
  function Store(buf: seq<Byte>, off: nat, wire: seq<Byte>, pos: nat, k: nat): (r: seq<Byte>)
    requires off + k <= |buf| && (k > 0 ==> pos + k <= |wire|)
    ensures |r| == |buf|
    ensures forall i :: 0 <= i < |r| ==> r[i] == if off <= i < off + k then wire[pos + i - off] else buf[i]
  {
    seq(|buf|, i requires 0 <= i < |buf| => if off <= i < off + k then wire[pos + i - off] else buf[i])
  }

  /** buf after a read of at most len bytes to offset off. */
  function Filled(buf: seq<Byte>, off: nat, len: nat, s: Stream): (r: seq<Byte>)
    requires off + len <= |buf|
    ensures |r| == |buf|
  {
    Store(buf, off, s.wire, s.pos, Delivered(s, len))
  }

  datatype LoopEnd = LoopEnd(buf: seq<Byte>, size: nat, s: Stream)

  /** The header loop: each chunk is stored at the length of the chunk before it. */
  function HeaderLoop(buf: seq<Byte>, n: nat, size: nat, s: Stream): (e: LoopEnd)
    requires n + size <= |buf|
    ensures |e.buf| == |buf| && e.size == size - Min(size, s.Left())
    ensures e.s.wire == s.wire && e.s.pos == s.pos + Min(size, s.Left())
    decreases size
  {
    var k := Delivered(s, size);
    if k == 0 then LoopEnd(buf, size, s)
    else HeaderLoop(Filled(buf, n, size, s), k, size - k, After(s, size))
  }

  /** The header loop as the receiver starts it. */
  function ReadHeader(buf: seq<Byte>, s: Stream): (e: LoopEnd)
    requires |buf| >= HEAD_SIZE
  {
    HeaderLoop(buf, 0, HEAD_SIZE, s)
  }

  /** A read that delivers nothing changes nothing. */
  lemma NothingRead(buf: seq<Byte>, off: nat, size: nat, s: Stream)
    requires off + size <= |buf| && Delivered(s, size) == 0
    ensures Filled(buf, off, size, s) == buf && After(s, size) == s
  {
  }

  lemma HeaderTurn(buf: seq<Byte>, n: nat, size: nat, s: Stream, k: nat, buf': seq<Byte>, s': Stream)
    requires n + size <= |buf| && k == Delivered(s, size)
    requires buf' == Filled(buf, n, size, s) && s' == After(s, size)
    ensures HeaderLoop(buf, n, size, s) == if k == 0 then LoopEnd(buf', size, s') else HeaderLoop(buf', k, size - k, s')
  {
    if k == 0 {
      NothingRead(buf, n, size, s);
    }
  }

  /** The payload loop: chunks are stored one after the other. */
  function PayloadLoop(buf: seq<Byte>, at: nat, size: nat, s: Stream): (e: LoopEnd)
    requires at + size <= |buf|
    ensures |e.buf| == |buf| && e.size == size - Min(size, s.Left())
    ensures e.s.wire == s.wire && e.s.pos == s.pos + Min(size, s.Left())
    decreases size
  {
    var k := Delivered(s, size);
    if k == 0 then LoopEnd(buf, size, s)
    else PayloadLoop(Filled(buf, at, size, s), at + k, size - k, After(s, size))
  }

  lemma PayloadTurn(buf: seq<Byte>, at: nat, size: nat, s: Stream, k: nat, buf': seq<Byte>, s': Stream)
    requires at + size <= |buf| && k == Delivered(s, size)
    requires buf' == Filled(buf, at, size, s) && s' == After(s, size)
    ensures PayloadLoop(buf, at, size, s) == if k == 0 then LoopEnd(buf', size, s') else PayloadLoop(buf', at + k, size - k, s')
  {
    if k == 0 {
      NothingRead(buf, at, size, s);
    }
  }

  /** However the payload is cut, it ends up contiguous in the buffer, and nothing else changes. */
  lemma {:induction false} PayloadStored(buf: seq<Byte>, at: nat, size: nat, s: Stream)
    requires at + size <= |buf|
    ensures forall i :: 0 <= i < |buf| ==>
              PayloadLoop(buf, at, size, s).buf[i] ==
              if at <= i < at + Min(size, s.Left()) then s.wire[s.pos + i - at] else buf[i]
    decreases size
  {
    var k := Delivered(s, size);
    if k != 0 {
      PayloadStored(Filled(buf, at, size, s), at + k, size - k, After(s, size));
    }
  }

  /** Where the payload loop leaves the stream does not depend on the buffer. */
  lemma {:induction false} PayloadStreamOnly(b1: seq<Byte>, b2: seq<Byte>, at: nat, size: nat, s: Stream)
    requires |b1| == |b2| && at + size <= |b1|
    ensures PayloadLoop(b1, at, size, s).s == PayloadLoop(b2, at, size, s).s
    decreases size
  {
    var k := Delivered(s, size);
    if k != 0 {
      PayloadStreamOnly(Filled(b1, at, size, s), Filled(b2, at, size, s), at + k, size - k, After(s, size));
    }
  }

  /** Why the receive loop of one connection ended: a short read, or a size that overruns the buffer. */
  datatype Ending = EndOfStream | OutOfBounds

  /** What one connection hands to the client monitor, why it ended, and how many bytes it consumed. */
  datatype Reception = Reception(pictures: seq<Picture>, ending: Ending, consumed: nat)

  const FILLER: Byte := 65

  /** The buffer after the refill at the head of the loop. */
  predicate Refilled(buf: seq<Byte>) {
    |buf| == BUFSIZE && forall i :: 0 <= i < BUFSIZE ==> buf[i] == FILLER
  }

  /** The one refilled buffer. */
  ghost function Filling(): (b: seq<Byte>)
    ensures Refilled(b) && forall b' | Refilled(b') :: b' == b
  {
    assert Refilled(seq(BUFSIZE, i => FILLER));
    var b: seq<Byte> :| Refilled(b);
    b
  }

  /** The receive loop of one connection; buf is the refilled buffer every turn starts from. */
  function Receive(buf: seq<Byte>, s: Stream): Reception
    requires |buf| == BUFSIZE
    decreases s.Left()
  {
    var h := ReadHeader(buf, s);
    if h.size != 0 then Reception([], EndOfStream, h.s.pos)
    else if HEAD_SIZE + SizeOf(h.buf) > BUFSIZE then Reception([], OutOfBounds, h.s.pos)
    else
      var size := SizeOf(h.buf);
      var p := PayloadLoop(h.buf, HEAD_SIZE, size, h.s);
      if p.size != 0 then Reception([], EndOfStream, p.s.pos)
      else
        var rest := Receive(buf, p.s);
        rest.(pictures := [Picture(p.buf[HEAD_SIZE..HEAD_SIZE + size], StampOf(h.buf))] + rest.pictures)
  }

  // ---- Headers in at most two reads

  /** The fragmentation lets ten bytes arrive in at most two reads. */
  predicate TwoReadsCover(grants: seq<Grant>) {
    |grants| < 2 || grants[0] + grants[1] >= HEAD_SIZE
  }

  /** With two reads the header is stored contiguously. */
  lemma TwoReadHeader(buf: seq<Byte>, s: Stream)
    requires |buf| >= HEAD_SIZE && s.Left() >= HEAD_SIZE && TwoReadsCover(s.grants)
    ensures ReadHeader(buf, s).buf == Store(buf, 0, s.wire, s.pos, HEAD_SIZE)
  {
    var size: nat := HEAD_SIZE;
    var k := Delivered(s, size);
    var s1 := After(s, size);
    var buf1 := Filled(buf, 0, size, s);
    if k == size {
      assert HeaderLoop(buf1, k, 0, s1).buf == buf1;
    } else {
      var m := size - k;
      assert Delivered(s1, m) == m;
      var buf2 := Filled(buf1, k, m, s1);
      assert HeaderLoop(buf1, k, m, s1).buf == HeaderLoop(buf2, m, 0, After(s1, m)).buf == buf2;
      assert buf2 == Store(buf, 0, s.wire, s.pos, size);
    }
  }

  /** Later chunks overlap earlier ones: positions from n + size up are never written. */
  lemma {:induction false} HeaderWritesBelow(buf: seq<Byte>, n: nat, size: nat, s: Stream, i: nat)
    requires n + size <= i < |buf|
    ensures HeaderLoop(buf, n, size, s).buf[i] == buf[i]
    decreases size
  {
    var k := Delivered(s, size);
    if k != 0 {
      HeaderWritesBelow(Filled(buf, n, size, s), k, size - k, After(s, size), i);
    }
  }

  /** A second read that is still short leaves the last header byte unwritten for good. */
  lemma ShortSecondRead(buf: seq<Byte>, n: nat, size: nat, s: Stream)
    requires 0 < n && n + size <= |buf| && 0 < Delivered(s, size) < size
    ensures HeaderLoop(buf, n, size, s).buf[n + size - 1] == buf[n + size - 1]
  {
    HeaderTurn(buf, n, size, s, Delivered(s, size), Filled(buf, n, size, s), After(s, size));
    var k := Delivered(s, size);
    HeaderWritesBelow(Filled(buf, n, size, s), k, size - k, After(s, size), n + size - 1);
  }

  /** With three or more reads byte 9, the high byte of the size, is lost: the filler stays. */
  lemma ThirdReadLosesSize(buf: seq<Byte>, s: Stream)
    requires |buf| >= HEAD_SIZE && s.Left() >= HEAD_SIZE && !TwoReadsCover(s.grants)
    ensures ReadHeader(buf, s).buf[HEAD_SIZE - 1] == buf[HEAD_SIZE - 1]
  {
    var size: nat := HEAD_SIZE;
    HeaderTurn(buf, 0, size, s, Delivered(s, size), Filled(buf, 0, size, s), After(s, size));
    var k := Delivered(s, size);
    ShortSecondRead(Filled(buf, 0, size, s), k, size - k, After(s, size));
  }

  /** The header loop is right for every header exactly when the fragmentation allows at most two reads. */
  lemma HeaderExactIff(buf: seq<Byte>, grants: seq<Grant>)
    requires Refilled(buf)
    ensures (forall h: seq<Byte> | |h| == HEAD_SIZE :: ReadHeader(buf, Stream(h, 0, grants)).buf[..HEAD_SIZE] == h)
            <==> TwoReadsCover(grants)
  {
    if TwoReadsCover(grants) {
      forall h: seq<Byte> | |h| == HEAD_SIZE
        ensures ReadHeader(buf, Stream(h, 0, grants)).buf[..HEAD_SIZE] == h
      {
        TwoReadHeader(buf, Stream(h, 0, grants));
      }
    } else {
      var h: seq<Byte> := seq(HEAD_SIZE, i => 0);
      ThirdReadLosesSize(buf, Stream(h, 0, grants));
      var b := ReadHeader(buf, Stream(h, 0, grants)).buf;
      assert b[..HEAD_SIZE][HEAD_SIZE - 1] == FILLER && h[HEAD_SIZE - 1] == 0;
    }
  }

  // ---- Whole streams

  function EncodeAll(frames: seq<Frame>): seq<Byte> {
    if frames == [] then [] else Encode(frames[0]) + EncodeAll(frames[1..])
  }

  /** The picture a frame becomes: same bytes, capture time in milliseconds. */
  function PictureOf(f: Frame): Picture {
    Picture(f.data, f.timeStamp / NANOS_PER_MILLI)
  }

  function PicturesOf(frames: seq<Frame>): (ps: seq<Picture>)
    ensures |ps| == |frames| && forall i :: 0 <= i < |ps| ==> ps[i] == PictureOf(frames[i])
  {
    if frames == [] then [] else [PictureOf(frames[0])] + PicturesOf(frames[1..])
  }

  /** The frames the packet format can carry: within the buffers, and captured before 2^31 ms. */
  predicate Transmissible(f: Frame) {
    Fits(f) && f.timeStamp / NANOS_PER_MILLI < 0x8000_0000
  }

  predicate AllTransmissible(frames: seq<Frame>) {
    forall f :: f in frames ==> Transmissible(f)
  }

  function Unread(s: Stream): seq<Byte> {
    if s.pos <= |s.wire| then s.wire[s.pos..] else []
  }

  /** The state of the stream after the two loops have taken a packet with n payload bytes. */
  function AfterPacket(buf: seq<Byte>, s: Stream, n: nat): (r: Stream)
    requires |buf| == BUFSIZE && HEAD_SIZE + n <= BUFSIZE && HEAD_SIZE + n <= s.Left()
    ensures r.wire == s.wire && r.pos == s.pos + HEAD_SIZE + n
  {
    PayloadLoop(buf, HEAD_SIZE, n, ReadHeader(buf, s).s).s
  }

  /** Along the receive loop's run over these frames, every complete header comes in at most two reads. */
  predicate HeadersInTwoReads(buf: seq<Byte>, s: Stream, frames: seq<Frame>)
    requires |buf| == BUFSIZE
    decreases |frames|
  {
    frames == [] || s.Left() < HEAD_SIZE ||
    (TwoReadsCover(s.grants) &&
     (Fits(frames[0]) && |Encode(frames[0])| <= s.Left() ==>
        HeadersInTwoReads(buf, AfterPacket(buf, s, |frames[0].data|), frames[1..])))
  }

  /** How many whole packets the first n bytes of the encoded frames hold. */
  function Complete(frames: seq<Frame>, n: nat): (k: nat)
    ensures k <= |frames|
  {
    if frames == [] || n < |Encode(frames[0])| then 0
    else 1 + Complete(frames[1..], n - |Encode(frames[0])|)
  }

  /** Complete is the largest number of frames whose encodings fit in n bytes. */
  lemma {:induction false} CompleteIsGreatest(frames: seq<Frame>, n: nat)
    ensures var k := Complete(frames, n);
            && |EncodeAll(frames[..k])| <= n
            && (k < |frames| ==> n < |EncodeAll(frames[..k + 1])|)
  {
    var k := Complete(frames, n);
    if frames != [] {
      if k == 0 {
        assert frames[..1][1..] == [];
      } else {
        CompleteIsGreatest(frames[1..], n - |Encode(frames[0])|);
        assert frames[..k][1..] == frames[1..][..k - 1];
        if k < |frames| {
          assert frames[..k + 1][1..] == frames[1..][..k];
        }
      }
    }
  }

  /** The header loop on a stream that starts with f's header recovers f's fields. */
  lemma HeaderRead(buf: seq<Byte>, s: Stream, f: Frame)
    requires |buf| == BUFSIZE && Transmissible(f) && TwoReadsCover(s.grants)
    requires s.Left() >= HEAD_SIZE && Unread(s)[..HEAD_SIZE] == Encode(f)[..HEAD_SIZE]
    ensures var h := ReadHeader(buf, s);
            SizeOf(h.buf) == |f.data| && StampOf(h.buf) == f.timeStamp / NANOS_PER_MILLI
  {
    var h := ReadHeader(buf, s);
    TwoReadHeader(buf, s);
    assert h.buf[..HEAD_SIZE] == Unread(s)[..HEAD_SIZE];
    DecodeEncode(f, []);
    assert Encode(f) + [] == Encode(f);
    FieldsOfHeader(h.buf, Encode(f));
  }

  /** The payload loop on a stream that stands at f's payload fills it in. */
  lemma PayloadRead(buf: seq<Byte>, s: Stream, f: Frame)
    requires HEAD_SIZE + |f.data| <= |buf| && |f.data| <= s.Left()
    requires forall i :: 0 <= i < |f.data| ==> s.wire[s.pos + i] == f.data[i]
    ensures PayloadLoop(buf, HEAD_SIZE, |f.data|, s).buf[HEAD_SIZE..HEAD_SIZE + |f.data|] == f.data
  {
    PayloadStored(buf, HEAD_SIZE, |f.data|, s);
    var b := PayloadLoop(buf, HEAD_SIZE, |f.data|, s).buf;
    assert forall i :: 0 <= i < |f.data| ==> b[HEAD_SIZE + i] == f.data[i];
  }

  /** One full turn of the receive loop. */
  lemma ReceiveTurn(buf: seq<Byte>, s: Stream, size: nat)
    requires |buf| == BUFSIZE && HEAD_SIZE + size <= s.Left() && HEAD_SIZE + size <= BUFSIZE
    requires SizeOf(ReadHeader(buf, s).buf) == size
    ensures var h := ReadHeader(buf, s);
            var p := PayloadLoop(h.buf, HEAD_SIZE, size, h.s);
            var rest := Receive(buf, p.s);
            Receive(buf, s) == rest.(pictures := [Picture(p.buf[HEAD_SIZE..HEAD_SIZE + size], StampOf(h.buf))] + rest.pictures)
  {
  }

  lemma PayloadFollows(s: Stream, f: Frame)
    requires Encode(f) <= Unread(s)
    ensures forall i :: 0 <= i < |f.data| ==> s.wire[s.pos + HEAD_SIZE + i] == f.data[i]
  {
    forall i | 0 <= i < |f.data| ensures s.wire[s.pos + HEAD_SIZE + i] == f.data[i] {
      assert Unread(s)[HEAD_SIZE + i] == Encode(f)[HEAD_SIZE + i];
    }
  }

  /** One turn of the receive loop on a stream that starts with a whole packet yields that packet's picture. */
  lemma ReceiveOne(buf: seq<Byte>, s: Stream, f: Frame)
    requires |buf| == BUFSIZE && Transmissible(f) && Encode(f) <= Unread(s) && TwoReadsCover(s.grants)
    ensures var rest := Receive(buf, AfterPacket(buf, s, |f.data|));
            Receive(buf, s) == rest.(pictures := [PictureOf(f)] + rest.pictures)
  {
    assert Unread(s)[..HEAD_SIZE] == Encode(f)[..HEAD_SIZE];
    HeaderRead(buf, s, f);
    var h := ReadHeader(buf, s);
    PayloadFollows(s, f);
    PayloadRead(h.buf, h.s, f);
    PayloadStreamOnly(h.buf, buf, HEAD_SIZE, |f.data|, h.s);
    ReceiveTurn(buf, s, |f.data|);
  }

  /** A packet that is cut short yields nothing. */
  lemma ReceiveCut(buf: seq<Byte>, s: Stream, f: Frame)
    requires |buf| == BUFSIZE && Transmissible(f) && (s.Left() >= HEAD_SIZE ==> TwoReadsCover(s.grants))
    requires s.pos <= |s.wire| && s.Left() < |Encode(f)| && Unread(s) <= Encode(f)
    ensures Receive(buf, s) == Reception([], EndOfStream, |s.wire|)
  {
    if s.Left() >= HEAD_SIZE {
      assert Unread(s)[..HEAD_SIZE] == Encode(f)[..HEAD_SIZE];
      HeaderRead(buf, s, f);
    }
  }

  lemma PrefixParts(u: seq<Byte>, a: seq<Byte>, b: seq<Byte>)
    requires u <= a + b
    ensures |u| < |a| ==> u <= a
    ensures |a| <= |u| ==> a <= u && u[|a|..] <= b
  {
    assert u == (a + b)[..|u|];
    if |a| <= |u| {
      assert u[..|a|] == a;
      assert u[|a|..] == b[..|u| - |a|];
    }
  }

  lemma CompleteStep(f: Frame, rest: seq<Frame>, n: nat)
    requires n >= |Encode(f)|
    ensures Complete([f] + rest, n) == 1 + Complete(rest, n - |Encode(f)|)
    ensures PicturesOf(([f] + rest)[..Complete([f] + rest, n)])
         == [PictureOf(f)] + PicturesOf(rest[..Complete(rest, n - |Encode(f)|)])
  {
    assert ([f] + rest)[1..] == rest;
    var k := Complete(rest, n - |Encode(f)|);
    assert ([f] + rest)[..k + 1][1..] == rest[..k];
  }

  /** The hypotheses of ReceivePrefix pass from one packet to the next. */
  lemma NextPacket(buf: seq<Byte>, s: Stream, f: Frame, rest: seq<Frame>)
    requires |buf| == BUFSIZE && Transmissible(f) && |Encode(f)| <= s.Left()
    requires s.pos <= |s.wire| && Unread(s) <= EncodeAll([f] + rest) && HeadersInTwoReads(buf, s, [f] + rest)
    ensures TwoReadsCover(s.grants) && Encode(f) <= Unread(s)
    ensures var s' := AfterPacket(buf, s, |f.data|);
            && s'.Left() == s.Left() - |Encode(f)|
            && Unread(s') <= EncodeAll(rest)
            && HeadersInTwoReads(buf, s', rest)
  {
    assert ([f] + rest)[1..] == rest;
    PrefixParts(Unread(s), Encode(f), EncodeAll(rest));
    assert Unread(AfterPacket(buf, s, |f.data|)) == Unread(s)[|Encode(f)|..];
  }

  /** Any prefix of the encoded frames, cut anywhere and fragmented in any way that brings each header in two reads,
      yields exactly the frames that arrived whole, in order, and never overruns the buffer. */
  lemma {:induction false} ReceivePrefix(buf: seq<Byte>, s: Stream, frames: seq<Frame>)
    requires |buf| == BUFSIZE && AllTransmissible(frames)
    requires s.pos <= |s.wire| && Unread(s) <= EncodeAll(frames) && HeadersInTwoReads(buf, s, frames)
    ensures Receive(buf, s) == Reception(PicturesOf(frames[..Complete(frames, s.Left())]), EndOfStream, |s.wire|)
    decreases |frames|
  {
    if frames == [] || s.Left() < |Encode(frames[0])| {
      ReceiveNothing(buf, s, frames);
    } else {
      var f, rest := frames[0], frames[1..];
      assert f in frames && frames == [f] + rest;
      NextPacket(buf, s, f, rest);
      ReceiveOne(buf, s, f);
      CompleteStep(f, rest, s.Left());
      ReceivePrefix(buf, AfterPacket(buf, s, |f.data|), rest);
    }
  }

  lemma ReceiveNothing(buf: seq<Byte>, s: Stream, frames: seq<Frame>)
    requires |buf| == BUFSIZE && AllTransmissible(frames)
    requires s.pos <= |s.wire| && Unread(s) <= EncodeAll(frames) && HeadersInTwoReads(buf, s, frames)
    requires frames == [] || s.Left() < |Encode(frames[0])|
    ensures Receive(buf, s) == Reception([], EndOfStream, |s.wire|)
  {
    if frames == [] {
      assert s.Left() == 0;
    } else {
      assert frames[0] in frames;
      PrefixParts(Unread(s), Encode(frames[0]), EncodeAll(frames[1..]));
      ReceiveCut(buf, s, frames[0]);
    }
  }

  /** Fragmentation-independent framing: the encoded frames come out unchanged and every byte is consumed. */
  lemma ReceiveAll(buf: seq<Byte>, s: Stream, frames: seq<Frame>)
    requires |buf| == BUFSIZE && AllTransmissible(frames)
    requires s.pos <= |s.wire| && Unread(s) == EncodeAll(frames) && HeadersInTwoReads(buf, s, frames)
    ensures Receive(buf, s) == Reception(PicturesOf(frames), EndOfStream, |s.wire|)
  {
    ReceivePrefix(buf, s, frames);
    CompleteAll(frames);
    assert frames[..|frames|] == frames;
  }

  lemma {:induction false} CompleteAll(frames: seq<Frame>)
    ensures Complete(frames, |EncodeAll(frames)|) == |frames|
  {
    if frames != [] {
      CompleteAll(frames[1..]);
    }
  }
}
