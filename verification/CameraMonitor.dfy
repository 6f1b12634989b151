/** The shared camera monitor of camera_monitor.c, and the save and send operations of server.c on it.
    Each method body of the class is one camera_mutex section; HandOff interleaves them. */
module CameraMonitor {
  import opened Bytes
  import opened PacketCodec
  import opened HandOff
  import opened Sending

  const IDLE_MODE := 0

  /** The packet buffer holds the encoding of f. */
  ghost predicate Carries(p: Packet, f: Frame) {
    |p.bytes| == BUFSIZE && p.size == HEAD_SIZE + |f.data| <= BUFSIZE && p.bytes[..p.size] == Encode(f)
  }

  /** A local pic_packet array: the 50000 bytes from address base on, in a memory that goes on behind them. */
  predicate LocalBuffer(memory: array<Byte>, base: nat) {
    base + BUFSIZE <= memory.Length
  }

  class Monitor {
    const picPacket: array<Byte>
    var packetSize: int
    var picTakeSend: int
    var mode: int

    constructor ()
      ensures fresh(picPacket) && picPacket.Length == BUFSIZE
      ensures picTakeSend == TAKE_PIC_STATE && mode == IDLE_MODE
    {
      picPacket := new Byte[BUFSIZE];
      picTakeSend := TAKE_PIC_STATE;
      mode := IDLE_MODE;
    }

    function Slot(): Packet
      reads this, picPacket
    {
      Packet(picPacket[..], packetSize)
    }

    method FlipPicTakeSend()
      modifies this`picTakeSend
      ensures picTakeSend == Flipped(old(picTakeSend))
    {
      if picTakeSend == 1 {
        picTakeSend := 0;
      } else {
        picTakeSend := 1;
      }
    }

    method SetMode(val: int)
      modifies this`mode
      ensures mode == val
    {
      mode := val;
    }

    /** save_packet: the step SaveBytesIn of the hand-off. */
    method SavePacket(memory: array<Byte>, base: nat)
      requires picPacket.Length == BUFSIZE && LocalBuffer(memory, base) && memory != picPacket
      modifies picPacket
      ensures Slot() == old(Slot()).(bytes := memory[base..base + BUFSIZE])
      ensures forall d: Data ::
                d.slot == old(Slot()) && d.taken.Some? && d.taken.value.bytes == memory[base..base + BUFSIZE] ==>
                  Slot() == StepData(d, Taker, SaveBytesIn).slot
    {
      forall i | 0 <= i < BUFSIZE { picPacket[i] := memory[base + i]; }
      assert picPacket[..] == memory[base..base + BUFSIZE];
    }

    /** get_packet: the step LoadBytesIn of the hand-off. */
    method GetPacket(memory: array<Byte>, base: nat)
      requires picPacket.Length == BUFSIZE && LocalBuffer(memory, base) && memory != picPacket
      modifies memory
      ensures memory[..] == Overlay(old(memory[..]), base, Slot().bytes)
      ensures memory[base..base + BUFSIZE] == Slot().bytes
      ensures forall d: Data :: d.slot == Slot() ==> StepData(d, Sender, LoadBytesIn).loaded.bytes == memory[base..base + BUFSIZE]
    {
      forall i | 0 <= i < BUFSIZE { memory[base + i] := picPacket[i]; }
      assert memory[base..base + BUFSIZE] == Slot().bytes;
    }

    /** save_packet_size: the step SaveSizeIn of the hand-off. */
    method SavePacketSize(size: int)
      modifies this`packetSize
      ensures Slot() == old(Slot()).(size := size)
      ensures forall d: Data :: d.slot == old(Slot()) && d.taken.Some? && d.taken.value.size == size ==>
                Slot() == StepData(d, Taker, SaveSizeIn).slot
    {
      packetSize := size;
    }

    /** get_packet_size: the step LoadSizeIn of the hand-off. */
    method GetPacketSize() returns (size: int)
      ensures size == Slot().size
      ensures forall d: Data :: d.slot == Slot() ==> StepData(d, Sender, LoadSizeIn).loaded.size == size
    {
      size := packetSize;
    }
  }

  lemma WindowStart(memory: seq<Byte>, base: nat, bytes: seq<Byte>)
    requires base + BUFSIZE <= |memory| && |bytes| <= BUFSIZE
    ensures Overlay(memory, base, bytes)[base..base + BUFSIZE][..|bytes|] == bytes
  {
  }

  /** client_save_frame, its local buffer at address base: encode there, then save the size and the bytes. A frame that is
      too large is not refused: the slot gets the first 50000 bytes of its packet, and the memory behind is overwritten. */
  method SaveFrame(mon: Monitor, memory: array<Byte>, base: nat, timeStamp: nat, frameSize: nat, data: array<Byte>) returns (result: int)
    requires mon.picPacket.Length == BUFSIZE && LocalBuffer(memory, base)
    requires memory != data && memory != mon.picPacket
    requires frameSize <= data.Length && base + HEAD_SIZE + frameSize <= memory.Length
    modifies mon`packetSize, mon.picPacket, memory
    ensures result == if Int32(HEAD_SIZE + frameSize) < 0 then 1 else 0
    ensures memory[..] == Overlay(old(memory[..]), base, Encode(Frame(timeStamp, old(data[..frameSize]))))
    ensures mon.Slot() == Packet(memory[base..base + BUFSIZE], Int32(HEAD_SIZE + frameSize))
    ensures frameSize <= MAX_FRAME ==> result == 0 && Carries(mon.Slot(), Frame(timeStamp, old(data[..frameSize])))
  {
    ghost var f := Frame(timeStamp, data[..frameSize]);
    var size := SetupPacket(memory, base, timeStamp, frameSize, data);
    mon.SavePacketSize(size);
    mon.SavePacket(memory, base);
    result := if size < 0 then 1 else 0;
    if frameSize <= MAX_FRAME {
      WindowStart(old(memory[..]), base, Encode(f));
      assert memory[base..base + BUFSIZE] == memory[..][base..base + BUFSIZE];
    }
  }

  /** A negative ssize_t passed as a size_t. */
  function AsSize(size: int): (n: int)
    ensures -0x8000_0000 <= size < 0x8000_0000 ==> n >= 0 && Int32(n) == size
  {
    if size < 0 then size + 0x1_0000_0000 else size
  }

  /** client_write_n: write_n, its count as an int. */
  method ClientWriteN(socket: Socket, memory: array<Byte>, base: nat, n: nat) returns (written: int, ghost rc: int, ghost chunks: seq<nat>)
    requires base + n <= memory.Length
    modifies socket
    ensures written == if rc >= 0 then Int32(rc) else rc
    ensures WriteDone(memory[base..base + n], old(socket.outcomes), socket.outcomes, old(socket.wire), socket.wire, rc, chunks)
  {
    var r;
    r, chunks := WriteN(socket, memory, base, n);
    rc := r;
    written := if r >= 0 then Int32(r) else r;
  }

  /** client_send_frame, its local buffer at address base: load the bytes and the size, then write that many bytes. The
      size need not be one that was saved, nor fit the buffer, as long as the addresses read exist. rc is what write_n
      returns; the result is 0 when all bytes are accepted, and also when the call that failed returned the size itself. */
  method SendFrame(mon: Monitor, memory: array<Byte>, base: nat, socket: Socket) returns (result: int, ghost rc: int, ghost chunks: seq<nat>)
    requires mon.picPacket.Length == BUFSIZE && LocalBuffer(memory, base) && memory != mon.picPacket
    requires -0x8000_0000 <= mon.packetSize < 0x8000_0000 && base + AsSize(mon.packetSize) <= memory.Length
    modifies socket, memory
    ensures mon.Slot() == old(mon.Slot())
    ensures memory[..] == Overlay(old(memory[..]), base, mon.Slot().bytes)
    ensures var n := AsSize(mon.packetSize);
            && WriteDone(memory[base..base + n], old(socket.outcomes), socket.outcomes, old(socket.wire), socket.wire, rc, chunks)
            && result == if rc == n || rc == mon.packetSize then 0 else 3
  {
    mon.GetPacket(memory, base);
    var size := mon.GetPacketSize();
    var written;
    written, rc, chunks := ClientWriteN(socket, memory, base, AsSize(size));
    WrittenIsSize(rc, size);
    result := if written != size then 3 else 0;
  }

  /** The comparison of the count written with the size, both as 32-bit values. */
  lemma WrittenIsSize(rc: int, size: int)
    requires -0x8000_0000 <= size < 0x8000_0000 && (rc >= 0 ==> rc == AsSize(size))
    ensures (if rc >= 0 then Int32(rc) else rc) == size <==> rc >= 0 || rc == size
  {
  }

  /** A frame that fits, saved and then sent in one accepting call, puts exactly its encoding on the wire. */
  method SaveAndSend(mon: Monitor, memory: array<Byte>, base: nat, socket: Socket, timeStamp: nat, frameSize: nat, data: array<Byte>)
    requires mon.picPacket.Length == BUFSIZE && LocalBuffer(memory, base)
    requires memory != data && memory != mon.picPacket
    requires frameSize <= data.Length && frameSize <= MAX_FRAME
    requires FirstTakesAll(socket.outcomes, HEAD_SIZE + frameSize)
    modifies mon`packetSize, mon`picTakeSend, mon.picPacket, memory, socket
    ensures socket.wire == old(socket.wire) + Encode(Frame(timeStamp, old(data[..frameSize])))
    ensures old(mon.picTakeSend) == TAKE_PIC_STATE ==> mon.picTakeSend == TAKE_PIC_STATE
  {
    ghost var f := Frame(timeStamp, data[..frameSize]);
    var saved := SaveFrame(mon, memory, base, timeStamp, frameSize, data);
    mon.FlipPicTakeSend();
    ghost var slot := mon.Slot();
    var sent, _, _ := SendFrame(mon, memory, base, socket);
    assert memory[base..base + slot.size] == slot.bytes[..slot.size] == Encode(f);
    mon.FlipPicTakeSend();
  }
}
