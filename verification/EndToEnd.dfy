/**
 From Send on one side to OnRecvPacket on the other: any threads send frames in any interleaving with completions, TCP
 carries the accepted batches in order and cuts the stream anywhere, and the receiver gets the same frames back.
 */
module EndToEnd {
  import opened Framing
  import opened RecvBuffer
  import opened SendProtocol
  import opened SendProgress

  lemma {:induction false} ConcatAppend(a: seq<Bytes>, b: seq<Bytes>)
    ensures Concat(a + b) == Concat(a) + Concat(b)
    decreases |a|
  {
    if a == [] {
      assert a + b == b;
    } else {
      assert (a + b)[0] == a[0] && (a + b)[1..] == a[1..] + b;
      ConcatAppend(a[1..], b);
    }
  }

  /** Between Send and OnRecvPacket: the batches given to WSASend, then what the sender still has to submit, are the
      bytes of all that was pushed. */
  lemma SubmittedIsPrefix(s: State)
    requires Inv(s)
    ensures Concat(s.pushed) == Concat(Flatten(s.batches)) + Concat(Pending(s) + s.sh.queue)
  {
    hide Inv, Pending, Flatten;
    WaitingIs(s);
    ConcatAppend(Flatten(s.batches), Pending(s) + s.sh.queue);
  }

  /** A buffer MakeSendBuffer makes of a message that fits a frame. */
  ghost predicate IsFrame(buf: Bytes) {
    exists m: Message :: Sendable(m) && buf == Frame(m.id, m.payload)
  }

  ghost predicate AllFrames(bufs: seq<Bytes>) {
    forall b :: b in bufs ==> IsFrame(b)
  }

  lemma {:induction false} MessagesOf(bufs: seq<Bytes>) returns (ms: seq<Message>)
    requires AllFrames(bufs)
    ensures AllSendable(ms) && Frames(ms) == bufs
    decreases |bufs|
  {
    if bufs == [] {
      ms := [];
    } else {
      assert IsFrame(bufs[0]) && forall b :: b in bufs[1..] ==> b in bufs;
      hide IsFrame, Sendable;
      var rest := MessagesOf(bufs[1..]);
      var m := FirstMessage(bufs[0]);
      ms := [m] + rest;
      assert ms[1..] == rest && bufs == [bufs[0]] + bufs[1..];
    }
  }

  lemma FirstMessage(buf: Bytes) returns (m: Message)
    requires IsFrame(buf)
    ensures Sendable(m) && buf == Frame(m.id, m.payload)
  {
    m :| Sendable(m) && buf == Frame(m.id, m.payload);
  }

  /** What WSASend took is among what was pushed. */
  lemma {:induction false} AcceptedWerePushed(bs: seq<Batch>)
    ensures forall b :: b in Flatten(AcceptedOf(bs)) ==> b in Flatten(bs)
    ensures (forall b :: b in bs ==> b.accepted) ==> AcceptedOf(bs) == bs
    decreases |bs|
  {
    if bs != [] {
      var most, last := bs[..|bs| - 1], bs[|bs| - 1];
      AcceptedWerePushed(most);
      assert bs == most + [last];
      if last.accepted {
        FlattenAppend(AcceptedOf(most), last);
      } else {
        assert AcceptedOf(bs) == AcceptedOf(most);
      }
    }
  }

  lemma AcceptedAreFrames(s: State)
    requires Inv(s) && AllFrames(s.pushed)
    ensures AllFrames(Flatten(AcceptedOf(s.batches)) + (Pending(s) + s.sh.queue))
  {
    WaitingIs(s);
    AcceptedWerePushed(s.batches);
    hide Inv, Pending, Flatten, AcceptedOf, IsFrame;
  }

  /** Part of a list of frames on the wire, cut in any way. */
  lemma BuffersArriveIntact(bufs: seq<Bytes>, chunks: seq<Bytes>, missing: Bytes)
    requires AllFrames(bufs) && Concat(chunks) + missing == Concat(bufs) && Fits(CONNECTED, chunks)
    ensures var end := ReceiveAll(CONNECTED, chunks);
            && end.delivered <= bufs
            && Concat(end.delivered) + end.window.unread == Concat(chunks)
            && (missing == [] ==> end.delivered == bufs && end.window.unread == [])
  {
    var ms := MessagesOf(bufs);
    hide *;
    FramesArriveIntact(ms, chunks, missing);
  }

  /** At any moment of any run, whatever part of the accepted bytes has arrived in whatever chunks, the packets
      delivered are the first buffers of the accepted batches in the order of the Send calls, unchanged; with no batch
      refused the first buffers sent. */
  lemma DeliveredIsPrefix(s: State, chunks: seq<Bytes>, missing: Bytes)
    requires Reachable(s) && AllFrames(s.pushed)
    requires Concat(chunks) + missing == Concat(Flatten(AcceptedOf(s.batches)))
    requires Fits(CONNECTED, chunks)
    ensures ReceiveAll(CONNECTED, chunks).delivered <= Flatten(AcceptedOf(s.batches))
    ensures AllAccepted(s) ==> ReceiveAll(CONNECTED, chunks).delivered <= s.pushed
    ensures Concat(ReceiveAll(CONNECTED, chunks).delivered) + ReceiveAll(CONNECTED, chunks).window.unread ==
        Concat(chunks)
  {
    EveryRunIsSafe(s);
    WaitingIs(s);
    AcceptedWerePushed(s.batches);
    AcceptedAreFrames(s);
    hide Reachable, Inv, Safe, Pending, Flatten, AcceptedOf, IsFrame, Fits, Concat, ReceiveAll;
    BuffersArriveIntact(Flatten(AcceptedOf(s.batches)), chunks, missing);
  }

  /** Chunks no longer than BUFFER_SIZE always fit, whatever frames they carry. */
  lemma ChunksOfFramesFit(bufs: seq<Bytes>, chunks: seq<Bytes>)
    requires AllFrames(bufs) && Concat(chunks) == Concat(bufs)
    requires forall c :: c in chunks ==> 0 < |c| <= BUFFER_SIZE
    ensures Fits(CONNECTED, chunks)
  {
    var ms := MessagesOf(bufs);
    FramesRoundTrip(ms);
    assert CONNECTED.window.unread + Concat(chunks) == Concat(chunks);
    hide Concat, Frames, AllSendable, AllFrames, Fits;
    BoundedChunksFit(CONNECTED, chunks);
  }

  lemma AllArrive(bufs: seq<Bytes>, chunks: seq<Bytes>)
    requires AllFrames(bufs) && Concat(chunks) == Concat(bufs)
    requires forall c :: c in chunks ==> 0 < |c| <= BUFFER_SIZE
    ensures ReceiveAll(CONNECTED, chunks).delivered == bufs && ReceiveAll(CONNECTED, chunks).window.unread == []
  {
    ChunksOfFramesFit(bufs, chunks);
    assert Concat(chunks) + [] == Concat(chunks);
    hide *;
    BuffersArriveIntact(bufs, chunks, []);
  }

  /** Once Send calls stop and nothing fails any more, any schedule of the remaining work ends within 13 steps and two
      completions with everything submitted; and when the bytes have arrived, in chunks of any length up to BUFFER_SIZE,
      the packets delivered are, in order, exactly the buffers of the batches accepted before and all that waited: all
      buffers ever sent, if no batch was refused. */
  lemma EveryFrameArrives(s: State, run: seq<Action>, chunks: seq<Bytes>)
    requires Healthy(s) && AllCalm(run) && Run(s, run).Some? && AllFrames(s.pushed)
    requires Concat(chunks) == Concat(Flatten(AcceptedOf(Run(s, run).value.batches)))
    requires forall c :: c in chunks ==> 0 < |c| <= BUFFER_SIZE
    ensures |run| <= 13 && Completions(run) <= 2
    ensures Quiescent(Run(s, run).value) ==>
              && ReceiveAll(CONNECTED, chunks).delivered ==
                 Flatten(AcceptedOf(s.batches)) + (Pending(s) + s.sh.queue)
              && ReceiveAll(CONNECTED, chunks).window.unread == []
              && (AllAccepted(s) ==> ReceiveAll(CONNECTED, chunks).delivered == s.pushed)
    ensures !Quiescent(Run(s, run).value) ==> exists a :: Enabled(Run(s, run).value, a) && Calm(a)
  {
    assert Inv(s);
    hide Healthy, Inv, AllCalm, Quiescent, Run, Flatten, AcceptedOf, Pending, Enabled, Calm, Completions, AllFrames;
    hide ReceiveAll, Concat;
    NoLostWakeup(s, run);
    if Quiescent(Run(s, run).value) {
      WaitingIs(s);
      AcceptedWerePushed(s.batches);
      AcceptedAreFrames(s);
      AllArrive(Flatten(AcceptedOf(s.batches)) + (Pending(s) + s.sh.queue), chunks);
    }
  }
}
