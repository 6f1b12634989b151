/** The picture packet: setup_packet of server.c and the decoders of PicturePack.java. */
module PacketCodec {
  import opened Bytes

  const HEAD_SIZE := 10
  const BUFSIZE := 50000
  const MAX_FRAME := BUFSIZE - HEAD_SIZE
  const NANOS_PER_MILLI := 1000000

  /** A captured frame: time stamp in nanoseconds and image bytes. */
  datatype Frame = Frame(timeStamp: nat, data: seq<Byte>)

  /** A received picture: image bytes and time stamp in milliseconds. */
  datatype Picture = Picture(bytes: seq<Byte>, timeStamp: int)

  function Header(timeStamp: nat, frameSize: nat): (h: seq<Byte>)
    ensures |h| == HEAD_SIZE
  {
    LittleEndian(timeStamp / NANOS_PER_MILLI, 8) + LittleEndian(frameSize, 2)
  }

  function Encode(f: Frame): seq<Byte> {
    Header(f.timeStamp, |f.data|) + f.data
  }

  /** The frames that fit the fixed buffers on both sides. */
  predicate Fits(f: Frame) {
    HEAD_SIZE + |f.data| <= BUFSIZE
  }

  // ---- The encoder, in a memory that goes on behind the packet buffer

  /** memory with these bytes written from address base on. */
  function Overlay(memory: seq<Byte>, base: nat, bytes: seq<Byte>): (r: seq<Byte>)
    requires base + |bytes| <= |memory|
    ensures |r| == |memory|
    ensures forall i :: 0 <= i < |r| ==> r[i] == if base <= i < base + |bytes| then bytes[i - base] else memory[i]
  {
    memory[..base] + bytes + memory[base + |bytes|..]
  }

  /** setup_packet: three memcpy calls from address base on. Nothing compares the size with that of the buffer. */
  method SetupPacket(memory: array<Byte>, base: nat, timeStamp: nat, frameSize: nat, data: array<Byte>) returns (size: int)
    requires memory != data
    requires base + HEAD_SIZE + frameSize <= memory.Length && frameSize <= data.Length
    modifies memory
    ensures size == Int32(HEAD_SIZE + frameSize)
    ensures memory[..] == Overlay(old(memory[..]), base, Encode(Frame(timeStamp, data[..frameSize])))
  {
    var millis := LittleEndian(timeStamp / NANOS_PER_MILLI, 8);
    var sizeField := LittleEndian(frameSize, 2);
    forall i | 0 <= i < 8 { memory[base + i] := millis[i]; }
    forall i | 0 <= i < 2 { memory[base + 8 + i] := sizeField[i]; }
    forall i | 0 <= i < frameSize { memory[base + HEAD_SIZE + i] := data[i]; }
    size := Int32(HEAD_SIZE + frameSize);
    ghost var packet := Encode(Frame(timeStamp, data[..frameSize]));
    forall i | base <= i < base + |packet| ensures memory[i] == packet[i - base] {
      EncodeAt(timeStamp, data[..frameSize], i - base);
    }
  }

  lemma EncodeAt(timeStamp: nat, data: seq<Byte>, i: nat)
    requires i < HEAD_SIZE + |data|
    ensures Encode(Frame(timeStamp, data))[i] ==
            if i < 8 then LittleEndian(timeStamp / NANOS_PER_MILLI, 8)[i]
            else if i < HEAD_SIZE then LittleEndian(|data|, 2)[i - 8] else data[i - HEAD_SIZE]
  {
  }

  /** The result as a 32-bit ssize_t: the packet size for every frame below 2^31 - 10 bytes, however large for the buffer.
      The documented -1 comes out for one size only, by overflow. */
  lemma SetupResultIff(frameSize: nat)
    requires frameSize < 0x1_0000_0000
    ensures Int32(HEAD_SIZE + frameSize) == HEAD_SIZE + frameSize <==> frameSize < 0x8000_0000 - HEAD_SIZE
    ensures Int32(HEAD_SIZE + frameSize) < 0 <==> 0x8000_0000 - HEAD_SIZE <= frameSize < 0x1_0000_0000 - HEAD_SIZE
    ensures Int32(HEAD_SIZE + frameSize) == -1 <==> frameSize == 0x1_0000_0000 - HEAD_SIZE - 1
  {
    assert (HEAD_SIZE + frameSize) % 0x1_0000_0000 ==
           if HEAD_SIZE + frameSize < 0x1_0000_0000 then HEAD_SIZE + frameSize else HEAD_SIZE + frameSize - 0x1_0000_0000;
  }

  /** No byte outside the packet buffer at base has changed. */
  predicate StaysInside(before: seq<Byte>, after: seq<Byte>, base: nat) {
    |before| == |after| && forall i :: 0 <= i < |after| && !(base <= i < base + BUFSIZE) ==> after[i] == before[i]
  }

  /** The buffer at base and all that the encoder writes lie in memory. */
  predicate Addressable(memory: seq<Byte>, base: nat, f: Frame) {
    base + BUFSIZE <= |memory| && base + HEAD_SIZE + |f.data| <= |memory|
  }

  /** A frame that is too large puts its byte 49990 behind the buffer. */
  lemma OverrunByte(memory: seq<Byte>, base: nat, f: Frame)
    requires Addressable(memory, base, f) && |f.data| > MAX_FRAME
    ensures Overlay(memory, base, Encode(f))[base + BUFSIZE] == f.data[MAX_FRAME]
  {
    EncodeAt(f.timeStamp, f.data, BUFSIZE);
  }

  /** The encoder stays inside the 50000-byte buffer for every frame of a size exactly when that is at most 49990 bytes. */
  lemma OverrunIff(n: nat)
    ensures (forall memory, base, f: Frame | |f.data| == n && Addressable(memory, base, f) ::
               StaysInside(memory, Overlay(memory, base, Encode(f)), base)) <==> n <= MAX_FRAME
  {
    if n > MAX_FRAME {
      var memory: seq<Byte> := seq(HEAD_SIZE + n, i => 0);
      var f := Frame(0, seq(n, i => 1));
      OverrunByte(memory, 0, f);
      assert Addressable(memory, 0, f) && !StaysInside(memory, Overlay(memory, 0, Encode(f)), 0);
    }
  }

  /** One byte too many: the documented error is not returned, and the byte behind the buffer changes. */
  lemma FirstOverrun(memory: seq<Byte>, base: nat, f: Frame)
    requires |f.data| == 49991 && Addressable(memory, base, f) && memory[base + BUFSIZE] != f.data[MAX_FRAME]
    ensures Int32(HEAD_SIZE + |f.data|) == 50001
    ensures !StaysInside(memory, Overlay(memory, base, Encode(f)), base)
  {
    OverrunByte(memory, base, f);
    SetupResultIff(|f.data|);
    assert Overlay(memory, base, Encode(f))[base + BUFSIZE] != memory[base + BUFSIZE];
  }

  // ---- The decoders

  /** What getTimeStamp reads: the low four bytes as a signed int. */
  function StampOf(buffer: seq<Byte>): int
    requires |buffer| >= HEAD_SIZE
  {
    Int32(Value(buffer[..4]))
  }

  /** What getPictureSize reads: bytes 8 and 9 under two zero bytes. */
  function SizeOf(buffer: seq<Byte>): (n: nat)
    requires |buffer| >= HEAD_SIZE
    ensures n == buffer[8] as int + 256 * buffer[9] as int
  {
    var b := buffer[8..10];
    assert b[1..] == [buffer[9]] && b[1..][1..] == [];
    assert Value(b[1..]) == buffer[9];
    Value(b)
  }

  method GetTimeStamp(buffer: array<Byte>) returns (ts: int)
    requires buffer.Length >= HEAD_SIZE
    ensures ts == StampOf(buffer[..])
  {
    var tsData := new Byte[4];
    forall i | 0 <= i < 4 { tsData[i] := buffer[i]; }
    assert tsData[..] == buffer[..][..4];
    ts := Int32(Value(tsData[..]));
  }

  method GetPictureSize(buffer: array<Byte>) returns (size: int)
    requires buffer.Length >= HEAD_SIZE
    ensures size == SizeOf(buffer[..])
  {
    var sizeData := new Byte[4](i => 0);
    forall i | 0 <= i < 2 { sizeData[i] := buffer[8 + i]; }
    var s := sizeData[..];
    assert s == [buffer[8], buffer[9], 0, 0];
    assert s[1..] == [buffer[9], 0, 0] && s[1..][1..] == [0, 0] && s[1..][1..][1..] == [0];
    assert Value([0]) == 0 && Value([0, 0]) == 0;
    assert Value(s) == buffer[8] as int + 256 * buffer[9] as int;
    size := Int32(Value(s));
  }

  /** The time stamp that arrives: the signed 32-bit value congruent to the milliseconds, exact iff they are below 2^31. */
  lemma StampRoundTrip(timeStamp: nat, frameSize: nat, rest: seq<Byte>)
    ensures StampOf(Header(timeStamp, frameSize) + rest) == Int32(timeStamp / NANOS_PER_MILLI)
    ensures StampOf(Header(timeStamp, frameSize) + rest) == timeStamp / NANOS_PER_MILLI
            <==> timeStamp / NANOS_PER_MILLI < 0x8000_0000
  {
    var ms := timeStamp / NANOS_PER_MILLI;
    var h := Header(timeStamp, frameSize) + rest;
    LittleEndianPrefix(ms, 8, 4);
    assert h[..4] == LittleEndian(ms, 8)[..4];
    ValueOfLittleEndian(ms, 4);
    Pow256Values();
    Int32OfResidue(ms);
  }

  lemma Int32OfResidue(v: nat)
    ensures Int32(v % 0x1_0000_0000) == Int32(v)
    ensures Int32(v) == v <==> v < 0x8000_0000
  {
  }

  /** The size that arrives: exact iff the frame is shorter than 2^16 bytes. */
  lemma SizeRoundTrip(timeStamp: nat, frameSize: nat, rest: seq<Byte>)
    ensures SizeOf(Header(timeStamp, frameSize) + rest) == frameSize % 0x1_0000
    ensures SizeOf(Header(timeStamp, frameSize) + rest) == frameSize <==> frameSize < 0x1_0000
  {
    var h := Header(timeStamp, frameSize) + rest;
    assert h[8..10] == LittleEndian(frameSize, 2);
    ValueOfLittleEndian(frameSize, 2);
    Pow256Values();
  }

  /** Below the 2^31 bound the received stamps keep the order of capture. */
  lemma StampMonotone(t1: nat, t2: nat, n1: nat, n2: nat, rest1: seq<Byte>, rest2: seq<Byte>)
    requires t1 <= t2 && t2 / NANOS_PER_MILLI < 0x8000_0000
    ensures StampOf(Header(t1, n1) + rest1) <= StampOf(Header(t2, n2) + rest2)
  {
    assert t1 / NANOS_PER_MILLI <= t2 / NANOS_PER_MILLI;
    StampRoundTrip(t1, n1, rest1);
    StampRoundTrip(t2, n2, rest2);
  }

  /** Decoding the first packet of a stream of bytes recovers the frame that was encoded. */
  lemma DecodeEncode(f: Frame, rest: seq<Byte>)
    requires Fits(f) && f.timeStamp / NANOS_PER_MILLI < 0x8000_0000
    ensures var w := Encode(f) + rest;
            && SizeOf(w) == |f.data|
            && StampOf(w) == f.timeStamp / NANOS_PER_MILLI
            && w[HEAD_SIZE..HEAD_SIZE + SizeOf(w)] == f.data
  {
    assert Encode(f) + rest == Header(f.timeStamp, |f.data|) + (f.data + rest);
    StampRoundTrip(f.timeStamp, |f.data|, f.data + rest);
    SizeRoundTrip(f.timeStamp, |f.data|, f.data + rest);
  }

  /** The decoders look at the ten header bytes only. */
  lemma FieldsOfHeader(b1: seq<Byte>, b2: seq<Byte>)
    requires |b1| >= HEAD_SIZE && |b2| >= HEAD_SIZE && b1[..HEAD_SIZE] == b2[..HEAD_SIZE]
    ensures StampOf(b1) == StampOf(b2) && SizeOf(b1) == SizeOf(b2)
  {
    assert b1[..4] == b1[..HEAD_SIZE][..4] == b2[..4];
    assert b1[8] == b1[..HEAD_SIZE][8] == b2[8];
    assert b1[9] == b1[..HEAD_SIZE][9] == b2[9];
  }
}
