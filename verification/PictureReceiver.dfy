/** The receiver thread of PictureReciever.java, on one connection, updating its buffer in place. */
module PictureReceiver {
  import opened Bytes
  import opened PacketCodec
  import opened Framing

  /** What InputStream.read does: a count (-1 at end of stream), or an exception when the range exceeds the array. */
  datatype ReadResult = Count(n: int) | RangeError

  class InputStream {
    var state: Stream

    constructor (s: Stream)
      ensures state == s
    {
      state := s;
    }

    method Read(buf: array<Byte>, off: nat, len: nat) returns (r: ReadResult)
      modifies this, buf
      ensures off + len > buf.Length ==> r == RangeError && buf[..] == old(buf[..]) && state == old(state)
      ensures off + len <= buf.Length ==>
                && r == Count(if len > 0 && old(state).Left() == 0 then -1 else Delivered(old(state), len))
                && buf[..] == Filled(old(buf[..]), off, len, old(state))
                && state == After(old(state), len)
    {
      if off + len > buf.Length {
        return RangeError;
      }
      var k := Delivered(state, len);
      var s := state;
      forall i | 0 <= i < k { buf[off + i] := s.wire[s.pos + i]; }
      state := After(s, len);
      r := Count(if len > 0 && s.Left() == 0 then -1 else k);
    }
  }

  class Receiver {
    const buffer: array<Byte>

    constructor ()
      ensures fresh(buffer) && buffer.Length == BUFSIZE
    {
      buffer := new Byte[BUFSIZE];
    }

    method Refill()
      requires buffer.Length == BUFSIZE
      modifies buffer
      ensures Refilled(buffer[..])
    {
      for i := 0 to buffer.Length
        invariant forall j :: 0 <= j < i ==> buffer[j] == FILLER
      {
        buffer[i] := FILLER;
      }
    }

    /** The header loop: reads at offset n, the length of the previous chunk. */
    method FillHeader(input: InputStream) returns (size: nat)
      requires buffer.Length == BUFSIZE
      modifies input, buffer
      ensures var h := ReadHeader(old(buffer[..]), old(input.state));
              size == h.size && buffer[..] == h.buf && input.state == h.s
    {
      size := HEAD_SIZE;
      var n := 0;
      ghost var h := ReadHeader(buffer[..], input.state);
      while true
        invariant 0 <= n && n + size <= BUFSIZE
        invariant h == HeaderLoop(buffer[..], n, size, input.state)
        decreases size
      {
        ghost var b, s := buffer[..], input.state;
        var r := input.Read(buffer, n, size);
        HeaderTurn(b, n, size, s, Delivered(s, size), buffer[..], input.state);
        if r.n <= 0 {
          break;
        }
        n := r.n;
        size := size - n;
      }
    }

    /** The payload loop: reads at the current position. */
    method FillPart(input: InputStream, pictureSize: nat) returns (size: nat)
      requires HEAD_SIZE + pictureSize <= buffer.Length
      modifies input, buffer
      ensures var p := PayloadLoop(old(buffer[..]), HEAD_SIZE, pictureSize, old(input.state));
              size == p.size && buffer[..] == p.buf && input.state == p.s
    {
      size := pictureSize;
      var currentPosition := HEAD_SIZE;
      ghost var p := PayloadLoop(buffer[..], HEAD_SIZE, pictureSize, input.state);
      while true
        invariant HEAD_SIZE <= currentPosition && currentPosition + size <= buffer.Length
        invariant p == PayloadLoop(buffer[..], currentPosition, size, input.state)
        decreases size
      {
        ghost var b, s := buffer[..], input.state;
        var r := input.Read(buffer, currentPosition, size);
        PayloadTurn(b, currentPosition, size, s, Delivered(s, size), buffer[..], input.state);
        if r.n <= 0 {
          break;
        }
        currentPosition := currentPosition + r.n;
        size := size - r.n;
      }
    }

    /** The payload loop or, for an oversized packet, the exception from its first read. */
    method FillPayload(input: InputStream, pictureSize: nat) returns (size: nat, rangeError: bool)
      requires buffer.Length == BUFSIZE
      modifies input, buffer
      ensures rangeError <==> HEAD_SIZE + pictureSize > BUFSIZE
      ensures rangeError ==> buffer[..] == old(buffer[..]) && input.state == old(input.state)
      ensures !rangeError ==>
                var p := PayloadLoop(old(buffer[..]), HEAD_SIZE, pictureSize, old(input.state));
                size == p.size && buffer[..] == p.buf && input.state == p.s
    {
      rangeError := HEAD_SIZE + pictureSize > BUFSIZE;
      if rangeError {
        size := pictureSize;
        var r := input.Read(buffer, HEAD_SIZE, size);
        assert r == RangeError;
      } else {
        size := FillPart(input, pictureSize);
      }
    }

    /** One turn of the receive loop: a picture, or the reason for leaving the loop. */
    method Turn(input: InputStream) returns (turn: TurnEnd)
      requires buffer.Length == BUFSIZE
      modifies input, buffer
      ensures turn.Got? ==> input.state.Left() < old(input.state).Left()
      ensures Receive(Filling(), old(input.state)) ==
                if turn.Got? then Prepend([turn.picture], Receive(Filling(), input.state))
                else Reception([], turn.ending, input.state.pos)
    {
      Refill();
      ghost var b := buffer[..];
      ghost var s := input.state;
      var size := FillHeader(input);
      if size != 0 {
        return Left(EndOfStream);
      }
      var ts := GetTimeStamp(buffer);
      var pictureSize := GetPictureSize(buffer);
      var rangeError;
      size, rangeError := FillPayload(input, pictureSize);
      if rangeError {
        return Left(OutOfBounds);
      }
      if size != 0 {
        return Left(EndOfStream);
      }
      ReceiveTurn(b, s, pictureSize);
      turn := Got(Picture(buffer[HEAD_SIZE..HEAD_SIZE + pictureSize], ts));
    }

    /** The receive loop of one connection: the pictures put into the client monitor, in order, and how it ended. */
    method Run(input: InputStream) returns (pictures: seq<Picture>, ending: Ending)
      requires buffer.Length == BUFSIZE
      modifies input, buffer
      ensures Receive(Filling(), old(input.state)) == Reception(pictures, ending, input.state.pos)
    {
      pictures := [];
      ghost var whole := Receive(Filling(), input.state);
      while true
        invariant whole == Prepend(pictures, Receive(Filling(), input.state))
        decreases input.state.Left()
      {
        var turn := Turn(input);
        if turn.Left? {
          return pictures, turn.ending;
        }
        PrependPrepend(pictures, turn.picture, Receive(Filling(), input.state));
        pictures := pictures + [turn.picture];
      }
    }
  }

  datatype TurnEnd = Got(picture: Picture) | Left(ending: Ending)

  ghost function Prepend(ps: seq<Picture>, r: Reception): Reception {
    r.(pictures := ps + r.pictures)
  }

  lemma PrependPrepend(ps: seq<Picture>, p: Picture, r: Reception)
    ensures Prepend(ps, Prepend([p], r)) == Prepend(ps + [p], r)
  {
    assert ps + ([p] + r.pictures) == (ps + [p]) + r.pictures;
  }
}
