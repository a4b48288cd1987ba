/**
 The receive side of a session: RecvBuffer is a window sliding over a fixed array and compacted lazily,
 and Session::ProcessRecv feeds it to the packet splitter and posts the next receive.
 */
module RecvBuffer {
  import opened Wrappers
  import opened Framing

  const BUFFER_COUNT := 10
  const BUFFER_SIZE := 0x1_0000

  // ---------------------------------------------------------------- the window as a value

  /** Where reading starts in the array, and the bytes between the read and the write position. */
  datatype Window = Window(readPos: nat, unread: Bytes)

  function FreeSize(bufferSize: nat, w: Window): int {
    bufferSize * BUFFER_COUNT - w.readPos - |w.unread|
  }

  /** Clean is going to move the unread bytes to the front. */
  predicate Compacts(bufferSize: nat, w: Window) {
    w.unread != [] && FreeSize(bufferSize, w) < bufferSize
  }

  /** The source and the destination of Clean's memcpy share no byte. */
  predicate CopyIsDisjoint(bufferSize: nat, w: Window) {
    Compacts(bufferSize, w) ==> |w.unread| <= w.readPos
  }

  function CleanWindow(bufferSize: nat, w: Window): Window {
    if w.unread == [] || Compacts(bufferSize, w) then Window(0, w.unread) else w
  }

  // ---------------------------------------------------------------- RecvBuffer

  class RecvBuffer {
    const bufferSize: nat
    const capacity: nat
    const buffer: array<byte>
    var readPos: nat
    var writePos: nat

    ghost predicate Valid()
      reads this
    {
      readPos <= writePos <= capacity == buffer.Length == bufferSize * BUFFER_COUNT
    }

    ghost function View(): Window
      reads this, buffer
      requires Valid()
    {
      Window(readPos, buffer[readPos..writePos])
    }

    constructor (bufferSize: nat)
      ensures Valid() && this.bufferSize == bufferSize && fresh(buffer)
      ensures View() == Window(0, [])
    {
      this.bufferSize := bufferSize;
      capacity := bufferSize * BUFFER_COUNT;
      buffer := new byte[bufferSize * BUFFER_COUNT](_ => 0);
      readPos, writePos := 0, 0;
    }

    method DataSize() returns (n: nat)
      requires Valid()
      ensures n == |View().unread|
    {
      n := writePos - readPos;
    }

    method Free() returns (n: nat)
      requires Valid()
      ensures n == FreeSize(bufferSize, View())
    {
      n := capacity - writePos;
    }

    /** memcpy is undefined on overlapping ranges, so its caller owes CopyIsDisjoint. */
    method Clean()
      requires Valid() && CopyIsDisjoint(bufferSize, View())
      modifies this, buffer
      ensures Valid() && View() == CleanWindow(bufferSize, old(View()))
    {
      var dataSize := writePos - readPos;
      if dataSize == 0 {
        readPos, writePos := 0, 0;
      } else if capacity - writePos < bufferSize {
        ghost var unread := View().unread;
        for i := 0 to dataSize
          modifies buffer
          invariant buffer[..i] == unread[..i]
          invariant buffer[readPos..writePos] == unread
        {
          buffer[i] := buffer[readPos + i];
          assert buffer[..i + 1] == buffer[..i] + [buffer[i]];
        }
        readPos := 0;
        writePos := dataSize;
        assert unread[..dataSize] == unread;
      }
    }

    method OnRead(numOfBytes: nat) returns (ok: bool)
      requires Valid()
      modifies this`readPos
      ensures Valid()
      ensures ok <==> numOfBytes <= |old(View()).unread|
      ensures View() == if ok then Window(old(readPos) + numOfBytes, old(View()).unread[numOfBytes..]) else old(View())
    {
      if numOfBytes > writePos - readPos {
        return false;
      }
      readPos := readPos + numOfBytes;
      return true;
    }

    /** The bytes already stand behind the write position; OnWrite makes them readable. */
    method OnWrite(numOfBytes: nat) returns (ok: bool)
      requires Valid()
      modifies this`writePos
      ensures Valid()
      ensures ok <==> numOfBytes <= FreeSize(bufferSize, old(View()))
      ensures ok ==> View() == Window(readPos, old(View()).unread + buffer[old(writePos)..old(writePos) + numOfBytes])
      ensures !ok ==> View() == old(View())
    {
      if numOfBytes > capacity - writePos {
        return false;
      }
      writePos := writePos + numOfBytes;
      return true;
    }
  }

  // ---------------------------------------------------------------- one receive, as a value

  lemma TailLength(s: Bytes)
    ensures |s| == |Concat(Packets(s))| + |Tail(s)|
    ensures Tail(s) == s[|Concat(Packets(s))|..]
  {
    PacketsPartitionStream(s);
  }

  /** What a session has received: its window, and the packets handed to OnRecvPacket so far. */
  datatype RecvState = RecvState(window: Window, delivered: seq<Bytes>)

  const CONNECTED := RecvState(Window(0, []), [])

  /** ProcessRecv on a connected session when the kernel has delivered chunk. */
  function Receive(st: RecvState, chunk: Bytes): RecvState {
    var data := st.window.unread + chunk;
    var readPos := st.window.readPos + |Concat(Packets(data))|;
    RecvState(CleanWindow(BUFFER_SIZE, Window(readPos, Tail(data))), st.delivered + Packets(data))
  }

  function ReceiveAll(st: RecvState, chunks: seq<Bytes>): RecvState
    decreases |chunks|
  {
    if chunks == [] then st else ReceiveAll(Receive(st, chunks[0]), chunks[1..])
  }

  /** Every chunk is nonempty and no longer than the buffer posted for it. */
  predicate Fits(st: RecvState, chunks: seq<Bytes>)
    decreases |chunks|
  {
    chunks == [] ||
    (0 < |chunks[0]| <= FreeSize(BUFFER_SIZE, st.window) && Fits(Receive(st, chunks[0]), chunks[1..]))
  }

  /** Between two receives: only an unparsed tail is kept, and a full BUFFER_SIZE can still be received. */
  predicate Settled(st: RecvState) {
    && FreeSize(BUFFER_SIZE, st.window) >= BUFFER_SIZE
    && !Stalls(st.window.unread)
    && Tail(st.window.unread) == st.window.unread
  }

  // ---------------------------------------------------------------- the session

  datatype Cause = RecvZero | OnWriteOverflow | OnReadOverflow | HandleError

  /** What Disconnect calls, in order. */
  datatype Call = OnDisconnected | ReleaseSession | RegisterDisconnect

  const DISCONNECT_CALLS := [OnDisconnected, ReleaseSession, RegisterDisconnect]

  /** How WSARecv answers: it takes the buffer, at once or pending, or refuses it, with an error that counts as a lost
      connection or with another. */
  datatype Answer = Accepted | Refused(lost: bool)

  /** The receiving half of a PacketSession. posted is the length of the outstanding WSARecv, if there is one. */
  class PacketSession {
    const recvBuffer: RecvBuffer
    var connected: bool
    var disconnectCause: Option<Cause>
    var calls: seq<Call>
    var posted: Option<nat>
    var delivered: seq<Bytes>

    ghost predicate Valid()
      reads this, recvBuffer, recvBuffer.buffer
    {
      recvBuffer.Valid() && recvBuffer.bufferSize == BUFFER_SIZE && Settled(View())
    }

    ghost function View(): RecvState
      reads this, recvBuffer, recvBuffer.buffer
      requires recvBuffer.Valid()
    {
      RecvState(recvBuffer.View(), delivered)
    }

    /** A session whose ProcessConnect has posted the first receive. */
    constructor ()
      ensures Valid() && connected && posted == Some(BUFFER_SIZE * BUFFER_COUNT) && disconnectCause == None &&
          calls == []
      ensures fresh(recvBuffer) && fresh(recvBuffer.buffer) && View() == CONNECTED
    {
      recvBuffer := new RecvBuffer(BUFFER_SIZE);
      connected, delivered, disconnectCause, calls := true, [], None, [];
      posted := Some(BUFFER_SIZE * BUFFER_COUNT);
    }

    /** Only the first of any number of calls does anything. */
    method Disconnect(cause: Cause)
      modifies this`connected, this`disconnectCause, this`calls
      ensures !connected
      ensures disconnectCause == if old(connected) then Some(cause) else old(disconnectCause)
      ensures calls == if old(connected) then old(calls) + [OnDisconnected, ReleaseSession, RegisterDisconnect]
                       else old(calls)
    {
      if !connected {
        return;
      }
      connected, disconnectCause := false, Some(cause);
      calls := calls + DISCONNECT_CALLS;
    }

    /** A refusal leaves nothing posted; HandleError disconnects if the connection is lost. */
    method RegisterRecv(answer: Answer)
      requires recvBuffer.Valid() && posted == None
      modifies this`posted, this`connected, this`disconnectCause, this`calls
      ensures posted == if old(connected) && answer.Accepted?
                        then Some(FreeSize(recvBuffer.bufferSize, recvBuffer.View())) else None
      ensures connected == (old(connected) && answer != Refused(true))
      ensures disconnectCause == if old(connected) && !connected then Some(HandleError) else old(disconnectCause)
      ensures calls == if old(connected) && !connected then old(calls) + DISCONNECT_CALLS else old(calls)
    {
      if !connected {
        return;
      }
      var n := recvBuffer.Free();
      if answer.Accepted? {
        posted := Some(n);
      } else if answer.lost {
        Disconnect(HandleError);
      }
    }

    /** The middle of ProcessRecv: hand every complete packet to OnRecvPacket and step over it. Because OnRecv
        never claims more than it was given, the "OnRead Overflow" branch cannot be taken. */
    method Consume()
      requires recvBuffer.Valid() && !Stalls(recvBuffer.View().unread)
      modifies this`delivered, recvBuffer`readPos
      ensures recvBuffer.Valid()
      ensures var data := old(recvBuffer.View().unread);
              && recvBuffer.View() == Window(old(recvBuffer.readPos) + |Concat(Packets(data))|, Tail(data))
              && delivered == old(delivered) + Packets(data)
    {
      ghost var data := recvBuffer.View().unread;
      TailLength(data);
      var dataSize := recvBuffer.DataSize();
      var processLen, packets := OnRecv(recvBuffer.buffer, recvBuffer.readPos, dataSize);
      delivered := delivered + packets;
      var read := recvBuffer.OnRead(processLen);
      if dataSize < processLen || !read {
        assert false;
      }
    }

    /** Deliver what can be delivered, then move the cursors back or the rest to the front. */
    method ConsumeAndClean()
      requires recvBuffer.Valid() && recvBuffer.bufferSize == BUFFER_SIZE && !Stalls(recvBuffer.View().unread)
      requires var data := recvBuffer.View().unread;
               CopyIsDisjoint(BUFFER_SIZE, Window(recvBuffer.readPos + |Concat(Packets(data))|, Tail(data)))
      modifies this`delivered, recvBuffer, recvBuffer.buffer
      ensures recvBuffer.Valid()
      ensures var data := old(recvBuffer.View().unread);
              View() == RecvState(CleanWindow(BUFFER_SIZE,
                  Window(old(recvBuffer.readPos) + |Concat(Packets(data))|, Tail(data))),
                                  old(delivered) + Packets(data))
    {
      hide Stalls, Packets, Tail, Concat, CopyIsDisjoint, CleanWindow;
      Consume();
      recvBuffer.Clean();
    }

    /** ProcessRecv(numOfBytes): on its two live error branches it disconnects and keeps what was delivered; otherwise
        it does what Receive says, never copies over itself, and asks for at least BUFFER_SIZE bytes more. */
    method ProcessRecv(numOfBytes: nat, answer: Answer)
      requires Valid()
      requires var w := recvBuffer.View();
               numOfBytes <= FreeSize(BUFFER_SIZE, w) ==>
                 !Stalls(w.unread + recvBuffer.buffer[recvBuffer.writePos..recvBuffer.writePos + numOfBytes])
      modifies this, recvBuffer, recvBuffer.buffer
      ensures Valid()
      ensures (numOfBytes == 0 || numOfBytes > old(FreeSize(BUFFER_SIZE, recvBuffer.View()))) ==>
                !connected && posted == None && View() == old(View())
      ensures 0 < numOfBytes <= old(FreeSize(BUFFER_SIZE, recvBuffer.View())) ==>
                && View() == Receive(old(View()),
                  old(recvBuffer.buffer[recvBuffer.writePos..recvBuffer.writePos + numOfBytes]))
                && connected == (old(connected) && answer != Refused(true))
                && posted == (if old(connected) && answer.Accepted?
                              then Some(FreeSize(BUFFER_SIZE, recvBuffer.View())) else None)
                && (posted.Some? ==> posted.value >= BUFFER_SIZE)
                && disconnectCause == (if old(connected) && !connected then Some(HandleError) else old(disconnectCause))
      ensures calls == if old(connected) && !connected then old(calls) + DISCONNECT_CALLS else old(calls)
      ensures old(connected) && numOfBytes == 0 ==> disconnectCause == Some(RecvZero)
      ensures old(connected) && numOfBytes > old(FreeSize(BUFFER_SIZE, recvBuffer.View())) ==>
                disconnectCause == Some(OnWriteOverflow)
      ensures disconnectCause != Some(OnReadOverflow) || old(disconnectCause) == Some(OnReadOverflow)
    {
      hide Stalls, Packets, Tail, Concat, CopyIsDisjoint, CleanWindow;
      posted := None;
      if numOfBytes == 0 {
        Disconnect(RecvZero);
        return;
      }
      var written := recvBuffer.OnWrite(numOfBytes);
      if !written {
        Disconnect(OnWriteOverflow);
        return;
      }
      ghost var before := old(View());
      ghost var chunk := old(recvBuffer.buffer[recvBuffer.writePos..recvBuffer.writePos + numOfBytes]);
      assert recvBuffer.View() == Window(before.window.readPos, before.window.unread + chunk);
      ReceiveSettles(before, chunk);
      ConsumeAndClean();
      assert View() == Receive(before, chunk) && FreeSize(BUFFER_SIZE, recvBuffer.View()) >= BUFFER_SIZE;
      hide Receive, Settled, FreeSize;
      RegisterRecv(answer);
    }

    /** The kernel completes the outstanding receive with chunk, then a worker thread dispatches it. */
    method Deliver(chunk: Bytes)
      requires Valid() && connected && posted.Some?
      requires 0 < |chunk| <= FreeSize(BUFFER_SIZE, recvBuffer.View())
      requires !Stalls(recvBuffer.View().unread + chunk)
      modifies this, recvBuffer, recvBuffer.buffer
      ensures Valid() && connected && posted == Some(FreeSize(BUFFER_SIZE, recvBuffer.View()))
      ensures posted.value >= BUFFER_SIZE
      ensures View() == Receive(old(View()), chunk)
    {
      ghost var unread := recvBuffer.View().unread;
      var at := recvBuffer.writePos;
      for i := 0 to |chunk|
        invariant recvBuffer.Valid() && recvBuffer.View().unread == unread && at == recvBuffer.writePos
        invariant recvBuffer.buffer[at..at + i] == chunk[..i]
        invariant recvBuffer.readPos == old(recvBuffer.readPos) && delivered == old(delivered) && connected
      {
        recvBuffer.buffer[at + i] := chunk[i];
        assert recvBuffer.buffer[at..at + i + 1] == recvBuffer.buffer[at..at + i] + [chunk[i]];
      }
      assert chunk[..|chunk|] == chunk;
      ProcessRecv(|chunk|, Accepted);
    }
  }

  // ---------------------------------------------------------------- whole runs

  /** The window bound: after any receive the tail is shorter than BUFFER_SIZE, Clean copies between disjoint
      ranges and keeps the unread bytes, and at least BUFFER_SIZE bytes are free for the next receive. */
  lemma ReceiveSettles(st: RecvState, chunk: Bytes)
    requires Settled(st)
    requires |chunk| <= FreeSize(BUFFER_SIZE, st.window)
    requires !Stalls(st.window.unread + chunk)
    ensures Settled(Receive(st, chunk))
    ensures |Receive(st, chunk).window.unread| < BUFFER_SIZE
    ensures Receive(st, chunk).window.unread == Tail(st.window.unread + chunk)
    ensures CopyIsDisjoint(BUFFER_SIZE, Window(st.window.readPos + |Concat(Packets(st.window.unread + chunk))|,
                                               Tail(st.window.unread + chunk)))
  {
    var data := st.window.unread + chunk;
    TailBound(data);
    PacketsPartitionStream(data);
  }

  /** One receive out of a stream: what is left to deliver and to keep does not depend on the cut. */
  lemma ChunkStep(st: RecvState, chunk: Bytes, rest: Bytes)
    requires Settled(st) && |chunk| <= FreeSize(BUFFER_SIZE, st.window)
    requires !Stalls(st.window.unread + (chunk + rest))
    ensures !Stalls(st.window.unread + chunk)
    ensures var next, stream := Receive(st, chunk), st.window.unread + (chunk + rest);
            && Settled(next)
            && !Stalls(next.window.unread + rest)
            && st.delivered + Packets(stream) == next.delivered + Packets(next.window.unread + rest)
            && Tail(stream) == Tail(next.window.unread + rest)
  {
    var data := st.window.unread + chunk;
    assert st.window.unread + (chunk + rest) == data + rest;
    ParseIncrementally(data, rest);
    ReceiveSettles(st, chunk);
    assert st.delivered + (Packets(data) + Packets(Tail(data) + rest)) ==
        (st.delivered + Packets(data)) + Packets(Tail(data) + rest);
  }

  /** However the network cuts the stream, the session delivers the packets of the whole stream and keeps its tail. */
  lemma {:induction false} AnyChunking(st: RecvState, chunks: seq<Bytes>)
    requires Settled(st) && Fits(st, chunks)
    requires !Stalls(st.window.unread + Concat(chunks))
    ensures var end := ReceiveAll(st, chunks);
            && end.delivered == st.delivered + Packets(st.window.unread + Concat(chunks))
            && end.window.unread == Tail(st.window.unread + Concat(chunks))
            && Settled(end)
    decreases |chunks|
  {
    if chunks == [] {
      assert st.window.unread + [] == st.window.unread;
      TailBound(st.window.unread);
    } else {
      ChunkStep(st, chunks[0], Concat(chunks[1..]));
      AnyChunking(Receive(st, chunks[0]), chunks[1..]);
    }
  }

  /** A receive is posted with room for BUFFER_SIZE bytes, so chunks up to that length always fit. */
  lemma {:induction false} BoundedChunksFit(st: RecvState, chunks: seq<Bytes>)
    requires Settled(st) && !Stalls(st.window.unread + Concat(chunks))
    requires forall c :: c in chunks ==> 0 < |c| <= BUFFER_SIZE
    ensures Fits(st, chunks)
    decreases |chunks|
  {
    if chunks != [] {
      ChunkStep(st, chunks[0], Concat(chunks[1..]));
      BoundedChunksFit(Receive(st, chunks[0]), chunks[1..]);
    }
  }

  /** A session that has received part of a stream that will never stall has delivered a prefix of its packets. */
  lemma PrefixDelivered(chunks: seq<Bytes>, missing: Bytes)
    requires Fits(CONNECTED, chunks) && !Stalls(Concat(chunks) + missing)
    ensures var end := ReceiveAll(CONNECTED, chunks);
            && end.delivered == Packets(Concat(chunks))
            && end.window.unread == Tail(Concat(chunks))
            && Packets(Concat(chunks) + missing) == end.delivered + Packets(end.window.unread + missing)
            && Tail(Concat(chunks) + missing) == Tail(end.window.unread + missing)
  {
    assert Settled(CONNECTED);
    hide Concat, Packets, Tail, Stalls, ReceiveAll, Fits, Settled;
    var arrived := Concat(chunks);
    ParseIncrementally(arrived, missing);
    assert CONNECTED.window.unread + arrived == arrived;
    AnyChunking(CONNECTED, chunks);
  }

  /** End to end: whatever part of the frames of ms has arrived, in whatever chunks, the packets delivered are
      the first frames of ms, unchanged and in order; when all of it has arrived they are all of them. */
  lemma FramesArriveIntact(ms: seq<Message>, chunks: seq<Bytes>, missing: Bytes)
    requires AllSendable(ms)
    requires Concat(chunks) + missing == Concat(Frames(ms))
    requires Fits(CONNECTED, chunks)
    ensures var end := ReceiveAll(CONNECTED, chunks);
            && end.delivered <= Frames(ms)
            && Concat(end.delivered) + end.window.unread == Concat(chunks)
            && (missing == [] ==> end.delivered == Frames(ms) && end.window.unread == [])
  {
    FramesRoundTrip(ms);
    PrefixDelivered(chunks, missing);
    PacketsPartitionStream(Concat(chunks));
    if missing == [] {
      assert Concat(chunks) + missing == Concat(chunks);
    }
  }

  /** The session driven over a whole sequence of chunks delivers what AnyChunking says. */
  method DeliverAll(session: PacketSession, chunks: seq<Bytes>)
    requires session.Valid() && session.connected && session.posted.Some?
    requires Fits(session.View(), chunks)
    requires !Stalls(session.View().window.unread + Concat(chunks))
    modifies session, session.recvBuffer, session.recvBuffer.buffer
    ensures session.Valid() && session.connected
    ensures session.View() == ReceiveAll(old(session.View()), chunks)
  {
    var i := 0;
    ghost var start := session.View();
    assert chunks[0..] == chunks;
    while i < |chunks|
      invariant 0 <= i <= |chunks|
      invariant session.Valid() && session.connected && session.posted.Some?
      invariant Fits(session.View(), chunks[i..])
      invariant !Stalls(session.View().window.unread + Concat(chunks[i..]))
      invariant ReceiveAll(session.View(), chunks[i..]) == ReceiveAll(start, chunks)
    {
      assert chunks[i..][1..] == chunks[i + 1..];
      ChunkStep(session.View(), chunks[i], Concat(chunks[i + 1..]));
      session.Deliver(chunks[i]);
      i := i + 1;
    }
  }
}
