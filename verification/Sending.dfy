/** The two partial-send loops: send_all of BasicServer.c and write_n of server_common.c. */
module Sending {
  import opened Bytes

  /** A connected socket: what the peer will read, and an oracle for send. Each outcome is an error code
      or the most bytes that call accepts; beyond the oracle a call accepts all it is given. */
  class Socket {
    var wire: seq<Byte>
    var outcomes: seq<int>

    constructor (outcomes: seq<int>)
      ensures wire == [] && this.outcomes == outcomes
    {
      wire := [];
      this.outcomes := outcomes;
    }

    method Send(buf: array<Byte>, off: nat, len: nat) returns (n: int)
      requires off + len <= buf.Length
      modifies this
      ensures n <= len
      ensures n < 0 ==> wire == old(wire)
      ensures n >= 0 ==> wire == old(wire) + buf[off..off + n]
      ensures old(outcomes) == [] ==> n == len && outcomes == []
      ensures old(outcomes) != [] ==> outcomes == old(outcomes)[1..]
      ensures old(outcomes) != [] ==> n == if old(outcomes)[0] <= len then old(outcomes)[0] else len
    {
      if outcomes == [] {
        n := len;
      } else {
        n := if outcomes[0] <= len then outcomes[0] else len;
        outcomes := outcomes[1..];
      }
      if n >= 0 {
        wire := wire + buf[off..off + n];
      }
    }
  }

  function Sum(chunks: seq<nat>): nat {
    if chunks == [] then 0 else chunks[0] + Sum(chunks[1..])
  }

  lemma {:induction false} SumAppend(chunks: seq<nat>, k: nat)
    ensures Sum(chunks + [k]) == Sum(chunks) + k
  {
    if chunks == [] {
      assert [k][1..] == [];
    } else {
      SumAppend(chunks[1..], k);
      assert (chunks + [k])[1..] == chunks[1..] + [k];
    }
  }

  /** The non-empty chunks that the calls of one send loop accept. */
  predicate Chunking(chunks: seq<nat>, n: nat) {
    Sum(chunks) == n && forall k :: k in chunks ==> k > 0
  }

  /** How a send loop ends: the chunks its calls accepted, its result, and what is left of the oracle. */
  datatype SendEnd = SendEnd(chunks: seq<nat>, rc: int, unused: seq<int>)

  /** The chunk of one call, none for a call that accepts nothing. */
  function Chunk(a: nat): seq<nat> {
    if a > 0 then [a] else []
  }

  lemma SumOfChunk(chunks: seq<nat>, a: nat)
    ensures Sum(chunks + Chunk(a)) == Sum(chunks) + a
  {
    if a > 0 {
      SumAppend(chunks, a);
    } else {
      assert chunks + [] == chunks;
    }
  }

  /** What a call that is asked for left bytes returns: an error, or the most the oracle allows. */
  function Answer(outcomes: seq<int>, left: nat): int {
    if outcomes == [] || outcomes[0] > left then left else outcomes[0]
  }

  function Tail(outcomes: seq<int>): seq<int> {
    if outcomes == [] then [] else outcomes[1..]
  }

  // ---- The loop of send_all

  /** send_all with left bytes to go after these chunks: it gives up at the first call that accepts nothing. */
  function SendAllLoop(left: nat, outcomes: seq<int>, chunks: seq<nat>): SendEnd
    decreases |outcomes|, left
  {
    if left == 0 then SendEnd(chunks, 0, outcomes)
    else
      var a := Answer(outcomes, left);
      if a <= 0 then SendEnd(chunks, -1, Tail(outcomes)) else SendAllLoop(left - a, Tail(outcomes), chunks + Chunk(a))
  }

  /** What send_all puts on the wire: every chunk starts where the one before it ended. */
  function Advanced(buf: seq<Byte>, chunks: seq<nat>): seq<Byte>
    requires Sum(chunks) <= |buf|
  {
    if chunks == [] then [] else buf[..chunks[0]] + Advanced(buf[chunks[0]..], chunks[1..])
  }

  /** However it is cut, that is the start of the buffer. */
  lemma {:induction false} AdvancedIsPrefix(buf: seq<Byte>, chunks: seq<nat>)
    requires Sum(chunks) <= |buf|
    ensures Advanced(buf, chunks) == buf[..Sum(chunks)]
  {
    if chunks != [] {
      AdvancedIsPrefix(buf[chunks[0]..], chunks[1..]);
    }
  }

  /** What these calls accept if none fails. */
  function Accepted(answers: seq<int>): int {
    if answers == [] then 0 else answers[0] + Accepted(answers[1..])
  }

  predicate Unfailing(answers: seq<int>) {
    forall i :: 0 <= i < |answers| ==> answers[i] >= 0
  }

  lemma {:induction false} AcceptedNotNegative(answers: seq<int>)
    requires Unfailing(answers)
    ensures Accepted(answers) >= 0
  {
    if answers != [] {
      AcceptedNotNegative(answers[1..]);
    }
  }

  /** The first of these answers that is smaller than t, their number if there is none. */
  function FirstBelow(answers: seq<int>, t: int): (k: nat)
    ensures k <= |answers|
    ensures k < |answers| ==> answers[k] < t
    ensures forall i :: 0 <= i < k ==> answers[i] >= t
  {
    if answers == [] || answers[0] < t then 0 else 1 + FirstBelow(answers[1..], t)
  }

  /** Before left bytes are accepted, some answer is smaller than t. */
  predicate StopsShort(answers: seq<int>, t: int, left: nat) {
    FirstBelow(answers, t) < |answers| && Accepted(answers[..FirstBelow(answers, t)]) < left
  }

  lemma StopsShortTail(answers: seq<int>, t: int, left: nat)
    requires t >= 0 && answers != [] && answers[0] >= t && left > 0
    ensures FirstBelow(answers, t) == 1 + FirstBelow(answers[1..], t)
    ensures StopsShort(answers, t, left) <==> StopsShort(answers[1..], t, left - Answer(answers, left))
  {
    var k := FirstBelow(answers[1..], t);
    var before := answers[1..][..k];
    assert answers[..k + 1][1..] == before && answers[..k + 1][0] == answers[0];
    AcceptedNotNegative(before);
  }

  /** send_all gives up exactly when some call accepts nothing before all bytes are accepted; otherwise its chunks are all
      the bytes. */
  lemma {:induction false} SendAllResult(left: nat, outcomes: seq<int>, chunks: seq<nat>)
    ensures var e := SendAllLoop(left, outcomes, chunks);
            && Sum(e.chunks) <= Sum(chunks) + left && e.rc == (if StopsShort(outcomes, 1, left) then -1 else 0)
            && (e.rc == 0 <==> Sum(e.chunks) == Sum(chunks) + left)
    decreases |outcomes|, left
  {
    if left == 0 {
      if FirstBelow(outcomes, 1) < |outcomes| {
        AcceptedNotNegative(outcomes[..FirstBelow(outcomes, 1)]);
      }
    } else {
      var a := Answer(outcomes, left);
      if a > 0 {
        SendAllResult(left - a, Tail(outcomes), chunks + Chunk(a));
        SumOfChunk(chunks, a);
        if outcomes != [] {
          StopsShortTail(outcomes, 1, left);
        }
      } else {
        assert outcomes[..0] == [];
      }
    }
  }

  lemma SendAllTurn(left: nat, outcomes: seq<int>, chunks: seq<nat>, a: int, outcomes': seq<int>, chunks': seq<nat>)
    requires left > 0 && a == Answer(outcomes, left) && outcomes' == Tail(outcomes)
    requires a > 0 ==> chunks' == chunks + Chunk(a)
    ensures a <= left
    ensures SendAllLoop(left, outcomes, chunks) ==
            if a <= 0 then SendEnd(chunks, -1, outcomes') else SendAllLoop(left - a, outcomes', chunks')
  {
  }

  /** send_all: -1 exactly when some call accepts nothing before all bytes are accepted, and then a proper prefix of the
      buffer is on the wire; otherwise 0 and the whole buffer. */
  method SendAll(socket: Socket, buffer: array<Byte>, length: nat) returns (rc: int, ghost chunks: seq<nat>)
    requires length <= buffer.Length
    modifies socket
    ensures SendEnd(chunks, rc, socket.outcomes) == SendAllLoop(length, old(socket.outcomes), [])
    ensures rc == if StopsShort(old(socket.outcomes), 1, length) then -1 else 0
    ensures Sum(chunks) <= length && socket.wire == old(socket.wire) + buffer[..Sum(chunks)]
    ensures buffer[..Sum(chunks)] == Advanced(buffer[..length], chunks)
    ensures rc == 0 <==> Sum(chunks) == length
  {
    var p := 0;
    var left := length;
    chunks := [];
    ghost var whole, wire := SendAllLoop(length, socket.outcomes, chunks), socket.wire;
    SendAllResult(length, socket.outcomes, chunks);
    while left > 0
      invariant 0 <= p <= length && p + left == length && Sum(chunks) == p
      invariant whole == SendAllLoop(left, socket.outcomes, chunks)
      invariant socket.wire == wire + buffer[..p]
      decreases left
    {
      ghost var pending := socket.outcomes;
      var n := socket.Send(buffer, p, left);
      SendAllTurn(left, pending, chunks, n, socket.outcomes, if n > 0 then chunks + Chunk(n) else chunks);
      if n <= 0 {
        assert buffer[p..p] == [];
        AdvancedStart(buffer[..], length, chunks);
        return -1, chunks;
      }
      PrefixMore(wire, buffer[..], p, n);
      assert buffer[..p] == buffer[..][..p] && buffer[p..p + n] == buffer[..][p..p + n] && buffer[..p + n] == buffer[..][..p + n];
      SumOfChunk(chunks, n);
      chunks := chunks + Chunk(n);
      p := p + n;
      left := left - n;
    }
    AdvancedStart(buffer[..], length, chunks);
    return 0, chunks;
  }

  lemma AdvancedStart(buf: seq<Byte>, length: nat, chunks: seq<nat>)
    requires Sum(chunks) <= length <= |buf|
    ensures buf[..Sum(chunks)] == Advanced(buf[..length], chunks)
  {
    AdvancedIsPrefix(buf[..length], chunks);
    assert buf[..length][..Sum(chunks)] == buf[..Sum(chunks)];
  }

  lemma Associative(a: seq<Byte>, b: seq<Byte>, c: seq<Byte>)
    ensures (a + b) + c == a + (b + c)
  {
  }

  lemma PrefixMore(wire: seq<Byte>, buf: seq<Byte>, p: nat, n: nat)
    requires p + n <= |buf|
    ensures (wire + buf[..p]) + buf[p..p + n] == wire + buf[..p + n]
  {
    assert buf[..p] + buf[p..p + n] == buf[..p + n];
    Associative(wire, buf[..p], buf[p..p + n]);
  }

  // ---- The loop of write_n

  /** What write_n puts on the wire: every chunk starts again at the beginning of the buffer. */
  function Resent(buf: seq<Byte>, chunks: seq<nat>): (w: seq<Byte>)
    requires Sum(chunks) <= |buf|
    ensures |w| == Sum(chunks)
  {
    if chunks == [] then [] else buf[..chunks[0]] + Resent(buf, chunks[1..])
  }

  lemma {:induction false} ResentAppend(buf: seq<Byte>, chunks: seq<nat>, k: nat)
    requires Sum(chunks) + k <= |buf|
    ensures Sum(chunks + [k]) == Sum(chunks) + k
    ensures Resent(buf, chunks + [k]) == Resent(buf, chunks) + buf[..k]
  {
    SumAppend(chunks, k);
    if chunks == [] {
      assert [k][1..] == [] && chunks + [k] == [k];
    } else {
      ResentAppend(buf, chunks[1..], k);
      assert (chunks + [k])[1..] == chunks[1..] + [k];
      assert buf[..chunks[0]] + (Resent(buf, chunks[1..]) + buf[..k]) == (buf[..chunks[0]] + Resent(buf, chunks[1..])) + buf[..k];
    }
  }

  lemma OneCall(buf: seq<Byte>, chunks: seq<nat>)
    requires Chunking(chunks, |buf|) && |chunks| <= 1
    ensures Resent(buf, chunks) == buf
  {
    if chunks != [] {
      assert chunks[1..] == [] && Resent(buf, []) == [];
      assert buf[..|buf|] == buf;
    }
  }

  predicate FirstTakesAll(outcomes: seq<int>, n: nat) {
    outcomes == [] || outcomes[0] >= n
  }

  /** write_n with left of its n bytes to go after these chunks. */
  function WriteLoop(n: nat, left: nat, outcomes: seq<int>, chunks: seq<nat>): SendEnd
    decreases |outcomes|, left
  {
    if left == 0 then SendEnd(chunks, n, outcomes)
    else
      var a := Answer(outcomes, left);
      if a < 0 then SendEnd(chunks, a, Tail(outcomes)) else WriteLoop(n, left - a, Tail(outcomes), chunks + Chunk(a))
  }

  lemma WriteTurn(n: nat, left: nat, outcomes: seq<int>, chunks: seq<nat>, a: int, outcomes': seq<int>, chunks': seq<nat>)
    requires left > 0 && a == Answer(outcomes, left) && outcomes' == Tail(outcomes)
    requires a >= 0 ==> chunks' == chunks + Chunk(a)
    ensures a <= left
    ensures WriteLoop(n, left, outcomes, chunks) ==
            if a < 0 then SendEnd(chunks, a, outcomes') else WriteLoop(n, left - a, outcomes', chunks')
  {
  }

  /** The result is the first error if it comes before all bytes are accepted, n otherwise; it is n exactly when the chunks
      are all the bytes. */
  lemma {:induction false} WriteResult(n: nat, left: nat, outcomes: seq<int>, chunks: seq<nat>)
    requires forall k :: k in chunks ==> k > 0
    ensures var e := WriteLoop(n, left, outcomes, chunks);
            && e.rc == (if StopsShort(outcomes, 0, left) then outcomes[FirstBelow(outcomes, 0)] else n)
            && Sum(e.chunks) <= Sum(chunks) + left && (e.rc >= 0 <==> Sum(e.chunks) == Sum(chunks) + left)
            && forall k :: k in e.chunks ==> k > 0
    decreases |outcomes|, left
  {
    if left == 0 {
      if FirstBelow(outcomes, 0) < |outcomes| {
        AcceptedNotNegative(outcomes[..FirstBelow(outcomes, 0)]);
      }
    } else {
      var a := Answer(outcomes, left);
      if a >= 0 {
        WriteResult(n, left - a, Tail(outcomes), chunks + Chunk(a));
        SumOfChunk(chunks, a);
        if outcomes != [] {
          StopsShortTail(outcomes, 0, left);
        }
      } else {
        assert outcomes[..0] == [];
      }
    }
  }

  /** When the first call accepts everything there is one chunk at most. */
  lemma OneChunk(n: nat, outcomes: seq<int>, chunks: seq<nat>)
    requires FirstTakesAll(outcomes, n) && chunks == []
    ensures WriteLoop(n, n, outcomes, chunks).rc == n && |WriteLoop(n, n, outcomes, chunks).chunks| <= 1
  {
    if n > 0 {
      assert WriteLoop(n, n, outcomes, chunks) == WriteLoop(n, n - n, Tail(outcomes), chunks + Chunk(n));
    }
  }

  /** What write_n has done with these bytes: the chunks, result and oracle of its loop, so that the result is the first error
      if it comes before all bytes are accepted and their number otherwise; and every chunk from the start of the bytes. */
  predicate WriteDone(bytes: seq<Byte>, outcomes: seq<int>, outcomes': seq<int>, wire: seq<Byte>, wire': seq<Byte>, rc: int, chunks: seq<nat>) {
    var n := |bytes|;
    && SendEnd(chunks, rc, outcomes') == WriteLoop(n, n, outcomes, [])
    && rc == (if StopsShort(outcomes, 0, n) then outcomes[FirstBelow(outcomes, 0)] else n)
    && Chunking(chunks, Sum(chunks)) && Sum(chunks) <= n && (rc >= 0 <==> Sum(chunks) == n)
    && wire' == wire + Resent(bytes, chunks)
    && (FirstTakesAll(outcomes, n) ==> rc == n && wire' == wire + bytes)
  }

  /** write_n between two of its calls. */
  predicate WriteMidway(bytes: seq<Byte>, outcomes: seq<int>, outcomes': seq<int>, wire: seq<Byte>, wire': seq<Byte>, written: nat, chunks: seq<nat>) {
    var n := |bytes|;
    && written <= n && Sum(chunks) == written
    && WriteLoop(n, n, outcomes, []) == WriteLoop(n, n - written, outcomes', chunks)
    && wire' == wire + Resent(bytes, chunks)
  }

  lemma WriteStart(bytes: seq<Byte>, outcomes: seq<int>, wire: seq<Byte>)
    ensures WriteMidway(bytes, outcomes, outcomes, wire, wire, 0, [])
  {
    assert wire + [] == wire;
  }

  lemma WriteEnd(bytes: seq<Byte>, outcomes: seq<int>, outcomes': seq<int>, wire: seq<Byte>, wire': seq<Byte>, rc: int, chunks: seq<nat>)
    requires WriteLoop(|bytes|, |bytes|, outcomes, []) == SendEnd(chunks, rc, outcomes')
    requires Sum(chunks) <= |bytes| && wire' == wire + Resent(bytes, chunks)
    ensures WriteDone(bytes, outcomes, outcomes', wire, wire', rc, chunks)
  {
    var none: seq<nat> := [];
    WriteResult(|bytes|, |bytes|, outcomes, none);
    if FirstTakesAll(outcomes, |bytes|) {
      OneChunk(|bytes|, outcomes, none);
      OneCall(bytes, chunks);
    }
  }

  /** One call of write_n with its result a. */
  lemma WriteStep(bytes: seq<Byte>, outcomes: seq<int>, pending: seq<int>, outcomes': seq<int>, wire: seq<Byte>, before: seq<Byte>,
                  wire': seq<Byte>, written: nat, chunks: seq<nat>, a: int)
    requires WriteMidway(bytes, outcomes, pending, wire, before, written, chunks) && written < |bytes|
    requires a == Answer(pending, |bytes| - written) && outcomes' == Tail(pending)
    requires wire' == if a < 0 then before else before + bytes[..a]
    ensures if a < 0 then WriteDone(bytes, outcomes, outcomes', wire, wire', a, chunks)
            else WriteMidway(bytes, outcomes, outcomes', wire, wire', written + a, chunks + Chunk(a))
  {
    var n := |bytes|;
    var chunks' := if a < 0 then chunks else chunks + Chunk(a);
    WriteTurn(n, n - written, pending, chunks, a, outcomes', chunks');
    if a < 0 {
      WriteEnd(bytes, outcomes, outcomes', wire, wire', a, chunks);
    } else {
      ResentMore(wire, bytes, chunks, a, bytes[..a]);
    }
  }

  /** write_n on the n bytes at address base: the first error if it comes before n bytes are accepted, n otherwise; the
      address is never advanced. */
  method WriteN(socket: Socket, memory: array<Byte>, base: nat, n: nat) returns (rc: int, ghost chunks: seq<nat>)
    requires base + n <= memory.Length
    modifies socket
    ensures WriteDone(memory[base..base + n], old(socket.outcomes), socket.outcomes, old(socket.wire), socket.wire, rc, chunks)
  {
    chunks := [];
    var written := 0;
    ghost var bytes, wire, outcomes := memory[base..base + n], socket.wire, socket.outcomes;
    WriteStart(bytes, outcomes, wire);
    while written < n
      invariant 0 <= written <= n
      invariant WriteMidway(bytes, outcomes, socket.outcomes, wire, socket.wire, written, chunks)
      decreases |socket.outcomes|, n - written
    {
      ghost var pending, before := socket.outcomes, socket.wire;
      var tmp := socket.Send(memory, base, n - written);
      if tmp >= 0 {
        StartOfBuffer(memory[..], base, n, tmp);
        assert memory[base..base + tmp] == memory[..][base..base + tmp] && bytes == memory[..][base..base + n];
      }
      WriteStep(bytes, outcomes, pending, socket.outcomes, wire, before, socket.wire, written, chunks, tmp);
      if tmp < 0 {
        return tmp, chunks;
      }
      chunks := chunks + Chunk(tmp);
      written := written + tmp;
    }
    WriteEnd(bytes, outcomes, socket.outcomes, wire, socket.wire, n, chunks);
    return written, chunks;
  }

  lemma ResentNext(buf: seq<Byte>, chunks: seq<nat>, a: nat)
    requires Sum(chunks) + a <= |buf|
    ensures Sum(chunks + Chunk(a)) == Sum(chunks) + a
    ensures Resent(buf, chunks + Chunk(a)) == Resent(buf, chunks) + buf[..a]
  {
    if a > 0 {
      ResentAppend(buf, chunks, a);
    } else {
      assert chunks + [] == chunks;
      assert Resent(buf, chunks) + buf[..0] == Resent(buf, chunks);
    }
  }

  lemma ResentMore(wire: seq<Byte>, buf: seq<Byte>, chunks: seq<nat>, a: nat, bytes: seq<Byte>)
    requires Sum(chunks) + a <= |buf| && bytes == buf[..a]
    ensures Sum(chunks + Chunk(a)) == Sum(chunks) + a
    ensures (wire + Resent(buf, chunks)) + bytes == wire + Resent(buf, chunks + Chunk(a))
  {
    ResentNext(buf, chunks, a);
    Associative(wire, Resent(buf, chunks), bytes);
  }

  /** What a call at address base adds to the wire is the start of the buffer there. */
  lemma StartOfBuffer(memory: seq<Byte>, base: nat, n: nat, a: nat)
    requires base + n <= |memory| && a <= n
    ensures memory[base..base + a] == memory[base..base + n][..a]
  {
  }

  // ---- How long write_n can run

  /** write_n after some calls: how much was accepted, or what it returned. */
  datatype Progress = Running(written: nat) | Ended(rc: int)

  function Called(p: Progress, n: nat, answer: int): Progress {
    if p.Ended? then p
    else if answer < 0 then Ended(answer)
    else if p.written + answer >= n then Ended(n)
    else Running(p.written + answer)
  }

  /** After calls that would return these answers if nothing limited them. */
  function AfterCalls(n: nat, p: Progress, answers: seq<int>): Progress
    decreases |answers|
  {
    if answers == [] then p else AfterCalls(n, Called(p, n, answers[0]), answers[1..])
  }

  lemma {:induction false} EndedStays(n: nat, rc: int, answers: seq<int>)
    ensures AfterCalls(n, Ended(rc), answers) == Ended(rc)
  {
    if answers != [] {
      EndedStays(n, rc, answers[1..]);
    }
  }

  /** The loop is that sequence of calls, with a last one that accepts all that is left. */
  lemma {:induction false} LoopIsCalls(n: nat, left: nat, outcomes: seq<int>, chunks: seq<nat>)
    requires 0 < left <= n
    ensures var p := AfterCalls(n, Running(n - left), outcomes);
            WriteLoop(n, left, outcomes, chunks).rc == if p.Ended? then p.rc else n
    decreases |outcomes|
  {
    var a := Answer(outcomes, left);
    if outcomes == [] {
      assert WriteLoop(n, left - a, Tail(outcomes), chunks + Chunk(a)).rc == n;
    } else if outcomes[0] < 0 {
      EndedStays(n, outcomes[0], outcomes[1..]);
    } else if outcomes[0] >= left {
      EndedStays(n, n, outcomes[1..]);
      assert WriteLoop(n, left - a, Tail(outcomes), chunks + Chunk(a)).rc == n;
    } else {
      LoopIsCalls(n, left - a, outcomes[1..], chunks + Chunk(a));
    }
  }

  /** The loop is still running exactly when no call failed and together they accepted less than what was left; so it runs
      for ever if and only if that is so however many calls are made. */
  lemma {:induction false} StillRunningIff(n: nat, written: nat, answers: seq<int>)
    requires written < n
    ensures var p := AfterCalls(n, Running(written), answers);
            && (p.Running? <==> Unfailing(answers) && written + Accepted(answers) < n)
            && (p.Running? ==> p.written == written + Accepted(answers))
    decreases |answers|
  {
    if answers != [] {
      var rest := answers[1..];
      assert Unfailing(answers) <==> answers[0] >= 0 && Unfailing(rest) by {
        assert forall i :: 0 < i < |answers| ==> answers[i] == rest[i - 1];
        assert forall i :: 0 <= i < |rest| ==> rest[i] == answers[i + 1];
      }
      if answers[0] < 0 {
        EndedStays(n, answers[0], rest);
      } else if written + answers[0] >= n {
        EndedStays(n, n, rest);
        if Unfailing(rest) {
          AcceptedNotNegative(rest);
        }
      } else {
        StillRunningIff(n, written + answers[0], rest);
      }
    }
  }

  /** When every call that does not fail accepts at least one byte, n calls are enough. */
  lemma {:induction false} EndsWithin(n: nat, written: nat, answers: seq<int>)
    requires written < n && forall i :: 0 <= i < |answers| ==> answers[i] != 0
    ensures var p := AfterCalls(n, Running(written), answers);
            p.Ended? || written + |answers| <= p.written < n
    decreases |answers|
  {
    if answers != [] {
      var rest := answers[1..];
      assert forall i :: 0 <= i < |rest| ==> rest[i] == answers[i + 1];
      if answers[0] < 0 {
        EndedStays(n, answers[0], rest);
      } else if written + answers[0] >= n {
        EndedStays(n, n, rest);
      } else {
        EndsWithin(n, written + answers[0], rest);
      }
    }
  }

  lemma TwoChunksRestart(buf: seq<Byte>, chunks: seq<nat>)
    requires |chunks| >= 2 && chunks[0] > 0 && chunks[1] > 0 && Sum(chunks) <= |buf|
    ensures chunks[0] < Sum(chunks) && Resent(buf, chunks)[chunks[0]] == buf[0]
  {
    var rest := chunks[1..];
    assert rest[0] == chunks[1];
    assert Sum(rest) == chunks[1] + Sum(rest[1..]);
    assert Resent(buf, rest)[0] == buf[..chunks[1]][0];
  }

  lemma TwoCallsFail(chunks: seq<nat>, n: nat) returns (buf: seq<Byte>)
    requires Chunking(chunks, n) && |chunks| > 1
    ensures |buf| == n && Resent(buf, chunks) != buf
  {
    var t := chunks[0];
    assert chunks[0] in chunks && chunks[1] in chunks;
    buf := seq(n, i => if i < t then 0 else 1);
    TwoChunksRestart(buf, chunks);
    assert Resent(buf, chunks)[t] != buf[t];
  }

  /** write_n delivers every buffer of its size unchanged exactly when it needs at most one accepting call. */
  lemma WriteNFaithfulIff(chunks: seq<nat>, n: nat)
    requires Chunking(chunks, n)
    ensures (forall buf: seq<Byte> | |buf| == n :: Resent(buf, chunks) == buf) <==> |chunks| <= 1
  {
    if |chunks| <= 1 {
      forall buf: seq<Byte> | |buf| == n ensures Resent(buf, chunks) == buf {
        OneCall(buf, chunks);
      }
    } else {
      var buf := TwoCallsFail(chunks, n);
      assert |buf| == n;
    }
  }

  /** How a packet is handed to the socket: by write_n, or by a loop that advances like send_all. */
  datatype Transfer = Restarting(chunks: seq<nat>) | Advancing(chunks: seq<nat>)

  function OnWire(buf: seq<Byte>, t: Transfer): seq<Byte>
    requires Sum(t.chunks) <= |buf|
  {
    if t.Restarting? then Resent(buf, t.chunks) else Advanced(buf, t.chunks)
  }

  /** All n bytes are accepted, by an advancing loop in any number of calls, by write_n in one. */
  predicate Faithful(t: Transfer, n: nat) {
    Chunking(t.chunks, n) && (t.Restarting? ==> |t.chunks| <= 1)
  }

  /** Those are the transfers that deliver every buffer of their size unchanged. */
  lemma FaithfulIff(t: Transfer, n: nat)
    requires Chunking(t.chunks, n)
    ensures (forall buf: seq<Byte> | |buf| == n :: OnWire(buf, t) == buf) <==> Faithful(t, n)
  {
    if t.Restarting? {
      WriteNFaithfulIff(t.chunks, n);
      assert forall buf: seq<Byte> | |buf| == n :: OnWire(buf, t) == Resent(buf, t.chunks);
    } else {
      forall buf: seq<Byte> | |buf| == n ensures OnWire(buf, t) == buf {
        AdvancedIsPrefix(buf, t.chunks);
        assert buf[..n] == buf;
      }
    }
  }

  lemma FaithfulTransfer(buf: seq<Byte>, t: Transfer)
    requires Faithful(t, |buf|)
    ensures OnWire(buf, t) == buf
  {
    if t.Restarting? {
      OneCall(buf, t.chunks);
    } else {
      AdvancedIsPrefix(buf, t.chunks);
      assert buf[..|buf|] == buf;
    }
  }

  predicate Constant(buf: seq<Byte>) {
    forall i :: 0 < i < |buf| ==> buf[i] == buf[0]
  }

  /** A buffer survives every way of cutting it into calls exactly when all its bytes are the same. */
  lemma WriteNSafeBufferIff(buf: seq<Byte>)
    ensures (forall chunks | Chunking(chunks, |buf|) :: Resent(buf, chunks) == buf) <==> Constant(buf)
  {
    if Constant(buf) {
      forall chunks | Chunking(chunks, |buf|) ensures Resent(buf, chunks) == buf {
        ResentConstant(buf, chunks);
      }
    } else {
      var chunks: seq<nat> := [1, |buf| - 1];
      assert chunks[1..] == [|buf| - 1] && chunks[1..][1..] == [];
      assert Sum(chunks[1..]) == |buf| - 1;
      assert Chunking(chunks, |buf|);
      assert Resent(buf, chunks[1..]) == buf[..|buf| - 1];
      var w := Resent(buf, chunks);
      assert w == buf[..1] + buf[..|buf| - 1];
      if w == buf {
        assert forall i :: 0 < i < |buf| ==> buf[i] == buf[i - 1] by {
          forall i | 0 < i < |buf| ensures buf[i] == buf[i - 1] {
            assert w[i] == buf[..|buf| - 1][i - 1];
          }
        }
        StepwiseConstant(buf, |buf|);
        assert false;
      }
    }
  }

  lemma {:induction false} StepwiseConstant(buf: seq<Byte>, n: nat)
    requires n <= |buf| && forall i :: 0 < i < |buf| ==> buf[i] == buf[i - 1]
    ensures forall i :: 0 < i < n ==> buf[i] == buf[0]
  {
    if n > 1 {
      StepwiseConstant(buf, n - 1);
      assert buf[n - 1] == buf[n - 2];
    }
  }

  lemma {:induction false} ResentConstant(buf: seq<Byte>, chunks: seq<nat>)
    requires Constant(buf) && Sum(chunks) <= |buf|
    ensures forall i :: 0 <= i < Sum(chunks) ==> Resent(buf, chunks)[i] == buf[0]
  {
    if chunks != [] {
      ResentConstant(buf, chunks[1..]);
      var first, rest := buf[..chunks[0]], Resent(buf, chunks[1..]);
      assert forall i :: 0 <= i < |first| ==> first[i] == buf[0];
      assert Resent(buf, chunks) == first + rest;
    }
  }
}
