/**
 What lazy compaction is for: the receive window goes back to the front whenever nothing is left in it, and moves unread
 bytes so rarely that fewer bytes are copied than an eighth of those received.
 */
module WindowCopies {
  import opened Framing
  import opened RecvBuffer

  /** The window when the complete packets have been stepped over, before Clean. */
  function Consumed(st: RecvState, chunk: Bytes): Window {
    var data := st.window.unread + chunk;
    Window(st.window.readPos + |Concat(Packets(data))|, Tail(data))
  }

  /** Clean has moved unread bytes. */
  predicate Moves(st: RecvState, chunk: Bytes) {
    var now := Receive(st, chunk).window;
    now.unread != [] && now.readPos != Consumed(st, chunk).readPos
  }

  /** The bytes moved along a run. */
  function BytesMoved(st: RecvState, chunks: seq<Bytes>): nat
    decreases |chunks|
  {
    if chunks == [] then 0
    else
      (if Moves(st, chunks[0]) then |Receive(st, chunks[0]).window.unread| else 0) +
      BytesMoved(Receive(st, chunks[0]), chunks[1..])
  }

  /** When nothing is unread the window starts at the front; otherwise it stays where it is until fewer than 65536 bytes
      are free behind it, and then it starts at the front. */
  lemma WindowAfter(st: RecvState, chunk: Bytes)
    ensures var before, now := Consumed(st, chunk), Receive(st, chunk).window;
            && now.unread == before.unread
            && (now.unread == [] ==> now.readPos == 0)
            && (now.unread != [] ==>
                  now.readPos == if before.readPos + |now.unread| > 9 * 65536 then 0 else before.readPos)
  {
    hide Packets, Tail, Concat;
  }

  lemma {:induction false} MovedBound(st: RecvState, chunks: seq<Bytes>)
    requires Settled(st) && Fits(st, chunks) && !Stalls(st.window.unread + Concat(chunks))
    ensures 8 * BytesMoved(st, chunks) <= st.window.readPos + |st.window.unread| + |Concat(chunks)|
    decreases |chunks|
  {
    if chunks != [] {
      var chunk, rest := chunks[0], chunks[1..];
      var next := Receive(st, chunk);
      ChunkStep(st, chunk, Concat(rest));
      ReceiveSettles(st, chunk);
      TailLength(st.window.unread + chunk);
      WindowAfter(st, chunk);
      MovedBound(next, rest);
      hide Packets, Tail, Stalls, Receive, Settled, Fits, FreeSize;
    }
  }

  /** Over any run, of the bytes received fewer than one in eight is ever copied. */
  lemma CopiesAreRare(chunks: seq<Bytes>)
    requires Fits(CONNECTED, chunks) && !Stalls(Concat(chunks))
    ensures 8 * BytesMoved(CONNECTED, chunks) <= |Concat(chunks)|
  {
    assert CONNECTED.window.unread + Concat(chunks) == Concat(chunks);
    MovedBound(CONNECTED, chunks);
  }
}
