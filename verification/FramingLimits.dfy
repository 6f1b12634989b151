/** Exactly which fragmentations the receive loop survives. */
module FramingLimits {
  import opened Bytes
  import opened PacketCodec
  import opened Framing

  // ---- Whole streams

  /** No payload has the filler as the high byte of its size. */
  predicate NoFillerSize(frames: seq<Frame>) {
    forall f :: f in frames ==> |f.data| / 256 != 65
  }

  /** When a header takes more than two reads, the picture that comes out of it, if any, has a size with that high byte. */
  lemma BrokenHeader(buf: seq<Byte>, s: Stream, n: nat)
    requires Refilled(buf) && s.Left() >= HEAD_SIZE && !TwoReadsCover(s.grants) && n / 256 != 65
    ensures var ps := Receive(buf, s).pictures;
            ps == [] || |ps[0].bytes| != n
  {
    ThirdReadLosesSize(buf, s);
    var h := ReadHeader(buf, s);
    assert SizeOf(h.buf) == h.buf[8] as int + 256 * 65;
    var ps := Receive(buf, s).pictures;
    assert ps == [] || |ps[0].bytes| == SizeOf(h.buf);
  }

  lemma FirstPacket(buf: seq<Byte>, s: Stream, f: Frame, rest: seq<Frame>)
    requires |buf| == BUFSIZE && Transmissible(f) && s.pos <= |s.wire| && Unread(s) == Encode(f) + EncodeAll(rest)
    ensures Encode(f) <= Unread(s) && HEAD_SIZE + |f.data| <= s.Left()
    ensures var s' := AfterPacket(buf, s, |f.data|);
            s'.pos <= |s'.wire| && Unread(s') == EncodeAll(rest)
  {
    assert Unread(s)[..|Encode(f)|] == Encode(f);
    assert Unread(AfterPacket(buf, s, |f.data|)) == Unread(s)[|Encode(f)|..];
  }

  /** All frames of a stream come out unchanged exactly when every header comes in at most two reads. */
  lemma {:induction false} StreamSurvivesIff(buf: seq<Byte>, s: Stream, frames: seq<Frame>)
    requires Refilled(buf) && AllTransmissible(frames) && NoFillerSize(frames)
    requires s.pos <= |s.wire| && Unread(s) == EncodeAll(frames)
    ensures Receive(buf, s).pictures == PicturesOf(frames) <==> HeadersInTwoReads(buf, s, frames)
    decreases |frames|
  {
    if frames == [] {
      assert s.Left() == 0;
    } else {
      var f, rest := frames[0], frames[1..];
      assert f in frames && forall g :: g in rest ==> g in frames;
      FirstPacket(buf, s, f, rest);
      var ps := Receive(buf, s).pictures;
      if TwoReadsCover(s.grants) {
        var s' := AfterPacket(buf, s, |f.data|);
        ReceiveOne(buf, s, f);
        StreamSurvivesIff(buf, s', rest);
        var qs := Receive(buf, s').pictures;
        assert ps == [PictureOf(f)] + qs && ps[1..] == qs;
        assert PicturesOf(frames)[1..] == PicturesOf(rest);
      } else {
        BrokenHeader(buf, s, |f.data|);
        assert PicturesOf(frames)[0] == PictureOf(f);
      }
    }
  }

  /** One packet survives its fragmentation exactly when its header needs at most two reads. */
  lemma PacketSurvivesIff(buf: seq<Byte>, f: Frame, grants: seq<Grant>)
    requires Refilled(buf) && Transmissible(f) && |f.data| / 256 != 65
    ensures Receive(buf, Stream(Encode(f), 0, grants)).pictures == [PictureOf(f)] <==> TwoReadsCover(grants)
  {
    var s := Stream(Encode(f), 0, grants);
    assert Unread(s) == Encode(f) == Encode(f) + [];
    assert [f][1..] == [] && EncodeAll([f][1..]) == [];
    assert EncodeAll([f]) == Encode(f) + EncodeAll([f][1..]);
    assert PicturesOf([f]) == [PictureOf(f)];
    StreamSurvivesIff(buf, s, [f]);
    FirstPacket(buf, s, f, []);
  }

  // ---- Frames that do not fit the receiver's buffer

  /** A header in two reads decodes to the size modulo 2^16. */
  lemma SizeRead(buf: seq<Byte>, s: Stream, f: Frame)
    requires |buf| == BUFSIZE && s.Left() >= HEAD_SIZE && TwoReadsCover(s.grants)
    requires Unread(s)[..HEAD_SIZE] == Encode(f)[..HEAD_SIZE]
    ensures SizeOf(ReadHeader(buf, s).buf) == |f.data| % 0x1_0000
  {
    var h := ReadHeader(buf, s);
    TwoReadHeader(buf, s);
    assert h.buf[..HEAD_SIZE] == Unread(s)[..HEAD_SIZE];
    SizeRoundTrip(f.timeStamp, |f.data|, f.data);
    FieldsOfHeader(h.buf, Encode(f));
  }

  /** The exception that ends the receiver, and with it the client, comes with the first packet exactly when the frame's size
      modulo 2^16 does not fit the buffer: for 49991 to 65535 bytes, but not for 65536. */
  lemma OutOfBoundsIff(buf: seq<Byte>, s: Stream, f: Frame)
    requires |buf| == BUFSIZE && s.Left() >= HEAD_SIZE && TwoReadsCover(s.grants)
    requires Unread(s)[..HEAD_SIZE] == Encode(f)[..HEAD_SIZE]
    ensures Receive(buf, s) == Reception([], OutOfBounds, s.pos + HEAD_SIZE) <==> |f.data| % 0x1_0000 > MAX_FRAME
  {
    SizeRead(buf, s, f);
    var h := ReadHeader(buf, s);
    var size := SizeOf(h.buf);
    assert h.s.pos == s.pos + HEAD_SIZE;
    if size <= MAX_FRAME {
      var p := PayloadLoop(h.buf, HEAD_SIZE, size, h.s);
      if p.size == 0 {
        assert Receive(buf, s).pictures != [];
      } else {
        assert Receive(buf, s).ending == EndOfStream;
      }
    }
  }

  // ---- Payloads whose size has the filler as its high byte

  /** Three reads that bring nine bytes in the first two, and put the tenth on one of the four bytes of the time stamp that
      the decoder ignores. */
  predicate NineThenOne(grants: seq<Grant>) {
    |grants| >= 2 && grants[0] + grants[1] == HEAD_SIZE - 1 && 4 <= grants[1] <= 7
  }

  lemma StoreTwice(buf: seq<Byte>, wire: seq<Byte>, pos: nat, k1: nat, k2: nat)
    requires k1 + k2 <= |buf| && pos + k1 + k2 <= |wire|
    ensures Store(Store(buf, 0, wire, pos, k1), k1, wire, pos + k1, k2) == Store(buf, 0, wire, pos, k1 + k2)
  {
  }

  /** One read of the header loop that brings no more than its grant. */
  lemma OneRead(buf: seq<Byte>, n: nat, size: nat, s: Stream, k: nat, buf': seq<Byte>, s': Stream)
    requires n + size <= |buf| && s.grants != [] && k == s.grants[0] <= size <= s.Left()
    requires buf' == Store(buf, n, s.wire, s.pos, k) && s' == Stream(s.wire, s.pos + k, s.grants[1..])
    ensures HeaderLoop(buf, n, size, s) == HeaderLoop(buf', k, size - k, s')
  {
    assert Delivered(s, size) == k;
    HeaderTurn(buf, n, size, s, k, buf', s');
  }

  function AfterGrants(s: Stream): Stream
    requires |s.grants| >= 2
  {
    Stream(s.wire, s.pos + s.grants[0] + s.grants[1], s.grants[2..])
  }

  lemma TwoReads(buf: seq<Byte>, n: nat, size: nat, s: Stream, k1: nat, k2: nat, b1: seq<Byte>, b: seq<Byte>, s1: Stream, s2: Stream)
    requires n + size <= |buf| && size <= s.Left() && |s.grants| >= 2 && k1 == s.grants[0] && k2 == s.grants[1] && k1 + k2 <= size
    requires b1 == Store(buf, n, s.wire, s.pos, k1) && s1 == Stream(s.wire, s.pos + k1, s.grants[1..])
    requires b == Store(b1, k1, s1.wire, s1.pos, k2) && s2 == Stream(s1.wire, s1.pos + k2, s1.grants[1..])
    ensures HeaderLoop(buf, n, size, s) == HeaderLoop(b, k2, size - k1 - k2, s2)
  {
    OneRead(buf, n, size, s, k1, b1, s1);
    OneRead(b1, k1, size - k1, s1, k2, b, s2);
  }

  /** The state of the header loop after two reads that bring less than ten bytes. */
  lemma AfterTwoReads(buf: seq<Byte>, s: Stream)
    requires |buf| >= HEAD_SIZE && s.Left() >= HEAD_SIZE && !TwoReadsCover(s.grants)
    ensures ReadHeader(buf, s) ==
            HeaderLoop(Store(buf, 0, s.wire, s.pos, s.grants[0] + s.grants[1]), s.grants[1],
                       HEAD_SIZE - s.grants[0] - s.grants[1], AfterGrants(s))
  {
    var k1: nat, k2: nat := s.grants[0], s.grants[1];
    var b1, s1 := Store(buf, 0, s.wire, s.pos, k1), Stream(s.wire, s.pos + k1, s.grants[1..]);
    assert s1.grants[1..] == s.grants[2..];
    StoreTwice(buf, s.wire, s.pos, k1, k2);
    TwoReads(buf, 0, HEAD_SIZE, s, k1, k2, b1, Store(buf, 0, s.wire, s.pos, k1 + k2), s1, AfterGrants(s));
  }

  /** Nine bytes in two reads: the tenth goes to the length of the second. */
  lemma TenthByteAlone(buf: seq<Byte>, s: Stream)
    requires |buf| >= HEAD_SIZE && s.Left() >= HEAD_SIZE
    requires |s.grants| >= 2 && s.grants[0] + s.grants[1] == HEAD_SIZE - 1
    ensures var k, b := s.grants[1], ReadHeader(buf, s).buf;
            forall i :: 0 <= i < HEAD_SIZE ==>
              b[i] == if i == k then s.wire[s.pos + HEAD_SIZE - 1] else if i < HEAD_SIZE - 1 then s.wire[s.pos + i] else buf[i]
  {
    AfterTwoReads(buf, s);
    var b, s' := Store(buf, 0, s.wire, s.pos, HEAD_SIZE - 1), AfterGrants(s);
    var k, one: nat := s.grants[1], 1;
    assert Delivered(s', one) == one;
    var b' := Filled(b, k, one, s');
    HeaderTurn(b, k, one, s', one, b', After(s', one));
    var none: nat := 0;
    HeaderTurn(b', one, none, After(s', one), none, Filled(b', one, none, After(s', one)), After(After(s', one), none));
    NothingRead(b', one, none, After(s', one));
  }

  /** Such a header is still decoded correctly. */
  lemma NineThenOneHeader(buf: seq<Byte>, s: Stream, f: Frame)
    requires Refilled(buf) && Transmissible(f) && |f.data| / 256 == 65 && NineThenOne(s.grants) && Encode(f) <= Unread(s)
    ensures SizeOf(ReadHeader(buf, s).buf) == |f.data| && StampOf(ReadHeader(buf, s).buf) == f.timeStamp / NANOS_PER_MILLI
  {
    var b, e := ReadHeader(buf, s).buf, Encode(f);
    TenthByteAlone(buf, s);
    assert forall i :: 0 <= i < HEAD_SIZE ==> s.wire[s.pos + i] == Unread(s)[i] == e[i];
    DecodeEncode(f, []);
    assert e + [] == e;
    assert e[9] == 65 by {
      assert SizeOf(e) == e[8] as int + 256 * e[9] as int;
    }
    assert b[..4] == e[..4] && b[8] == e[8] && b[9] == e[9];
  }

  /** One turn of the receive loop on a header that is decoded correctly. */
  lemma DecodedPacket(buf: seq<Byte>, s: Stream, f: Frame)
    requires |buf| == BUFSIZE && Fits(f) && s.pos <= |s.wire| && Unread(s) == Encode(f)
    requires SizeOf(ReadHeader(buf, s).buf) == |f.data| && StampOf(ReadHeader(buf, s).buf) == f.timeStamp / NANOS_PER_MILLI
    ensures Receive(buf, s).pictures == [PictureOf(f)]
  {
    var h := ReadHeader(buf, s);
    assert |Unread(s)| == s.Left();
    PayloadFollows(s, f);
    PayloadRead(h.buf, h.s, f);
    ReceiveTurn(buf, s, |f.data|);
    var s' := PayloadLoop(h.buf, HEAD_SIZE, |f.data|, h.s).s;
    assert s'.Left() == 0;
    assert Receive(buf, s').pictures == [];
    assert [PictureOf(f)] + [] == [PictureOf(f)];
  }

  /** A frame captured at time 0, all of whose bytes are 0. */
  function Blank(high: nat): Frame {
    Frame(0, seq(256 * high, i => 0))
  }

  lemma BlankBytes(high: nat)
    requires high <= 195
    ensures var e := Encode(Blank(high));
            && (forall i :: 0 <= i < 9 ==> e[i] == 0) && e[9] == high
            && Transmissible(Blank(high)) && |Blank(high).data| == 256 * high
  {
    var e := Encode(Blank(high));
    DecodeEncode(Blank(high), []);
    assert e + [] == e;
    assert SizeOf(e) == e[8] as int + 256 * e[9] as int;
    ZeroBytes(8);
    EncodeAt(0, Blank(high).data, 9);
    forall i | 0 <= i < 8 ensures e[i] == 0 {
      EncodeAt(0, Blank(high).data, i);
    }
  }

  lemma {:induction false} ZeroBytes(n: nat)
    ensures forall i :: 0 <= i < n ==> LittleEndian(0, n)[i] == 0
  {
    if n > 0 {
      ZeroBytes(n - 1);
    }
  }

  /** A stamp of 0 has four bytes 0. */
  lemma StampZero(b: seq<Byte>)
    requires |b| >= HEAD_SIZE && StampOf(b) == 0
    ensures forall i :: 0 <= i < 4 ==> b[i] == 0
  {
    var q := b[..4];
    assert q[1..] == [b[1], b[2], b[3]] && q[1..][1..] == [b[2], b[3]] && q[1..][1..][1..] == [b[3]];
    assert Value([b[3]]) == b[3] as int by {
      assert [b[3]][1..] == [];
    }
    assert Value(q[1..][1..]) == b[2] as int + 256 * b[3] as int;
    assert Value(q[1..]) == b[1] as int + 256 * (b[2] as int + 256 * b[3] as int);
    assert Value(q) == b[0] as int + 256 * (b[1] as int + 256 * (b[2] as int + 256 * b[3] as int));
    assert 0 <= Value(q) < 0x1_0000_0000;
  }

  /** With less than nine bytes in the first two reads, position 8 keeps the filler or gets the tenth byte. */
  lemma ByteEight(buf: seq<Byte>, s: Stream)
    requires Refilled(buf) && s.Left() >= HEAD_SIZE && |s.grants| >= 2 && s.grants[0] + s.grants[1] < HEAD_SIZE - 1
    ensures var b := ReadHeader(buf, s).buf;
            b[8] == FILLER || b[8] == s.wire[s.pos + HEAD_SIZE - 1]
  {
    AfterTwoReads(buf, s);
    var b, s' := Store(buf, 0, s.wire, s.pos, s.grants[0] + s.grants[1]), AfterGrants(s);
    assert b[8] == FILLER;
    ByteEightLater(b, s.grants[1], HEAD_SIZE - s.grants[0] - s.grants[1], s');
  }

  lemma ByteEightLater(b: seq<Byte>, n: nat, size: nat, s: Stream)
    requires |b| == BUFSIZE && b[8] == FILLER && 0 < n && 0 < size <= s.Left() && n + size <= 9
    ensures var b' := HeaderLoop(b, n, size, s).buf;
            b'[8] == FILLER || b'[8] == s.wire[s.pos + size - 1]
  {
    if n + size <= 8 {
      HeaderWritesBelow(b, n, size, s, 8);
    } else if Delivered(s, size) < size {
      ShortSecondRead(b, n, size, s);
    } else {
      LastByteStored(b, n, size, s);
    }
  }

  /** A read that brings the rest of the header ends the loop. */
  lemma LastByteStored(b: seq<Byte>, n: nat, size: nat, s: Stream)
    requires size > 0 && n + size <= |b| && Delivered(s, size) == size
    ensures HeaderLoop(b, n, size, s).buf[n + size - 1] == s.wire[s.pos + size - 1]
  {
    var b' := Filled(b, n, size, s);
    HeaderTurn(b, n, size, s, size, b', After(s, size));
    var none: nat := 0;
    NothingRead(b', size, none, After(s, size));
    HeaderTurn(b', size, none, After(s, size), none, b', After(s, size));
  }

  /** In every other fragmentation with a third read, the blank frame with the filler as high byte is damaged. */
  lemma BlankDamaged(buf: seq<Byte>, grants: seq<Grant>)
    requires Refilled(buf) && !TwoReadsCover(grants) && !NineThenOne(grants)
    ensures Receive(buf, Stream(Encode(Blank(65)), 0, grants)).pictures != [PictureOf(Blank(65))]
  {
    var f := Blank(65);
    var s := Stream(Encode(f), 0, grants);
    BlankBytes(65);
    var h := ReadHeader(buf, s);
    ThirdReadLosesSize(buf, s);
    if grants[0] + grants[1] < HEAD_SIZE - 1 {
      ByteEight(buf, s);
      assert SizeOf(h.buf) == 65 + 256 * 65;
    } else {
      TenthByteAlone(buf, s);
      if grants[1] == 8 {
        assert SizeOf(h.buf) == 65 + 256 * 65;
      } else {
        assert h.buf[grants[1]] == 65 && grants[1] < 4;
        if StampOf(h.buf) == 0 {
          StampZero(h.buf);
        }
      }
    }
    FirstPicture(buf, s);
  }

  lemma FirstPicture(buf: seq<Byte>, s: Stream)
    requires |buf| == BUFSIZE
    ensures var h, ps := ReadHeader(buf, s), Receive(buf, s).pictures;
            ps == [] || (|ps[0].bytes| == SizeOf(h.buf) && ps[0].timeStamp == StampOf(h.buf))
  {
  }

  ghost predicate AllSurvive(buf: seq<Byte>, high: nat, grants: seq<Grant>)
    requires |buf| == BUFSIZE
  {
    forall f: Frame | Transmissible(f) && |f.data| / 256 == high ::
      Receive(buf, Stream(Encode(f), 0, grants)).pictures == [PictureOf(f)]
  }

  /** For every high byte of the size: all packets with it survive a fragmentation exactly when that brings the header in at
      most two reads or, for the filler 65, nine bytes of it in two reads of which the second has four to seven. */
  lemma AllSurviveIff(buf: seq<Byte>, high: nat, grants: seq<Grant>)
    requires Refilled(buf) && high <= 195
    ensures AllSurvive(buf, high, grants) <==> TwoReadsCover(grants) || (high == 65 && NineThenOne(grants))
  {
    if TwoReadsCover(grants) {
      forall f: Frame | Transmissible(f) && |f.data| / 256 == high
        ensures Receive(buf, Stream(Encode(f), 0, grants)).pictures == [PictureOf(f)]
      {
        var s := Stream(Encode(f), 0, grants);
        assert Unread(s) == Encode(f);
        HeaderRead(buf, s, f);
        DecodedPacket(buf, s, f);
      }
    } else if high == 65 && NineThenOne(grants) {
      forall f: Frame | Transmissible(f) && |f.data| / 256 == high
        ensures Receive(buf, Stream(Encode(f), 0, grants)).pictures == [PictureOf(f)]
      {
        var s := Stream(Encode(f), 0, grants);
        assert Unread(s) == Encode(f);
        NineThenOneHeader(buf, s, f);
        DecodedPacket(buf, s, f);
      }
    } else {
      BlankBytes(high);
      if high == 65 {
        BlankDamaged(buf, grants);
      } else {
        PacketSurvivesIff(buf, Blank(high), grants);
      }
      assert Receive(buf, Stream(Encode(Blank(high)), 0, grants)).pictures != [PictureOf(Blank(high))];
    }
  }
}
