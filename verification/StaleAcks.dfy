/**
 * A run of the stream, at the size the source gives its windows, in which late acknowledgements make the sender lose a
 * chunk that nobody has received.
 */
module StaleAcks {
  import opened Common
  import opened Modulo
  import opened WindowBuffers
  import opened StreamStubs
  import opened StreamDelivery

  ghost predicate Reached(st: Stream) {
    exists run, steps :: Run(run, steps) && run[|steps|] == st
  }

  lemma ReachNext(st: Stream, st': Stream, step: Step)
    requires Reached(st) && Next(st, st', step)
    ensures Reached(st')
  {
    var run, steps :| Run(run, steps) && run[|steps|] == st;
    var run', steps' := run + [st'], steps + [step];
    forall i | 0 <= i < |steps'| ensures Next(run'[i], run'[i + 1], steps'[i]) {
      assert i < |steps| ==> Next(run[i], run[i + 1], steps[i]);
    }
    assert Run(run', steps') && run'[|steps'|] == st';
  }

  // ---------------------------------------------------------------------------
  // One chunk through an empty window
  // ---------------------------------------------------------------------------

  /** An empty window of `n` slots that starts at `s`, with `s` put in. */
  function OneIn(s: nat, n: nat, chunk: Bytes): Window
    requires n > 1
  {
    EmptyWindow(s, n).Put(s, chunk)
  }

  lemma OneInHolds(s: nat, n: nat, chunk: Bytes)
    requires n > 1
    ensures OneIn(s, n, chunk).Valid()
    ensures OneIn(s, n, chunk).Lookup(s) == Some(chunk) && OneIn(s, n, chunk).Lookup(s + 1) == None
    ensures OneIn(s, n, chunk).Advance() == EmptyWindow(s + 1, n)
    ensures OneIn(s, n, chunk).RemoveUpTo(s) == EmptyWindow(s + 1, n)
  {
    var w := OneIn(s, n, chunk);
    ModDistinct(s, s + 1, n);
    assert w.slots[s % n := None] == EmptyWindow(s + 1, n).slots;
    assert ClearRange(w.slots, s, s) == ClearRange(w.slots[s % n := None], s + 1, s) == w.slots[s % n := None];
  }

  lemma OneDelivered(r: Receiver, chunk: Bytes)
    requires r.recvSeq >= 0 && r.window == EmptyWindow(r.recvSeq + 1, MAX_SEND_WINDOW_SIZE)
    ensures
      var s := r.recvSeq + 1;
      Receive(r, s, chunk)
      == Received(Receiver(s, EmptyWindow(s + 1, MAX_SEND_WINDOW_SIZE), r.enqueued + [chunk]), true, [])
  {
    var s, n := r.recvSeq + 1, MAX_SEND_WINDOW_SIZE;
    var w := OneIn(s, n, chunk);
    OneInHolds(s, n, chunk);
    var d := Receiver(s, w, r.enqueued + [chunk]);
    assert Drain(r.(window := w), r.recvSeq + n) == Drain(d, r.recvSeq + n) == d;
    assert w.BundleAdvanceUpTo(s) == w.Advance().BundleAdvanceUpTo(s) == EmptyWindow(s + 1, n);
  }

  // ---------------------------------------------------------------------------
  // Many chunks, each acknowledged at once
  // ---------------------------------------------------------------------------

  /** `k` chunks were sent, delivered and acknowledged one after the other; all `k` acknowledgements may come again. */
  ghost predicate AfterRounds(st: Stream, k: nat) {
    && Reached(st) && |st.taken| == k
    && st.sender == Sender(k, None, EmptyWindow(k + 1, MAX_SEND_WINDOW_SIZE), k)
    && st.receiver.recvSeq == k && st.receiver.window == EmptyWindow(k + 1, MAX_SEND_WINDOW_SIZE)
    && forall a :: 1 <= a <= k ==> Ack(a) in st.net
  }

  /** A chunk is taken and put into the send window. */
  lemma SendOne(st: Stream, chunk: Bytes) returns (st': Stream)
    requires Reached(st) && st.sender.waiting == None && st.sender.window.Valid() && st.receiver.window.Valid()
    requires st.sender.window.InRange(st.sender.sendSeq + 1)
    ensures Reached(st')
    ensures
      var s := st.sender.sendSeq + 1;
      st' == Stream(st.taken + [chunk], st.sender.(sendSeq := s, window := st.sender.window.Put(s, chunk)),
                    st.receiver, st.net + {Data(s, chunk)})
  {
    var s := st.sender.sendSeq + 1;
    var taken := st.(taken := st.taken + [chunk], sender := Take(st.sender, chunk));
    ReachNext(st, taken, TakeStep(chunk));
    st' := taken.(sender := Place(taken.sender).sender, net := taken.net + {Place(taken.sender).packet});
    ReachNext(taken, st', PlaceStep);
  }

  lemma OneRound(st: Stream, k: nat, chunk: Bytes) returns (st': Stream)
    requires AfterRounds(st, k)
    ensures AfterRounds(st', k + 1)
  {
    var n := MAX_SEND_WINDOW_SIZE;
    OneInHolds(k + 1, n, chunk);
    OneDelivered(st.receiver, chunk);
    var sent := SendOne(st, chunk);
    var d := Receive(sent.receiver, k + 1, chunk);
    var got := sent.(receiver := d.receiver, net := sent.net + {Ack(k + 1)});
    assert RequestsFor(d.gaps) == {};
    ReachNext(sent, got, DataStep(k + 1, chunk, true));
    st' := got.(sender := Acknowledge(got.sender, k + 1));
    ReachNext(got, st', AckStep(k + 1));
  }

  lemma {:induction false} ManyRounds(k: nat, chunk: Bytes) returns (st: Stream)
    ensures AfterRounds(st, k)
    decreases k
  {
    if k == 0 {
      st := Stream([], INITIAL_SENDER, INITIAL_RECEIVER, {});
      var run, steps: seq<Step> := [st], [];
      assert Run(run, steps) && run[|steps|] == st;
    } else {
      st := ManyRounds(k - 1, chunk);
      st := OneRound(st, k - 1, chunk);
    }
  }

  // ---------------------------------------------------------------------------
  // Two late acknowledgements
  // ---------------------------------------------------------------------------

  lemma TwoInHold(s: nat, n: nat, a: Bytes, b: Bytes)
    requires n > 2
    ensures
      var w := EmptyWindow(s, n).Put(s, a).Put(s + 1, b);
      w.Valid() && w.start == s && |w.slots| == n && w.slots[s % n] == Some(a) && w.slots[(s + 1) % n] == Some(b)
  {
    ModDistinct(s, s + 1, n);
  }

  /**
   * With windows as large as the source makes them: a whole window of chunks is sent, delivered and acknowledged, two
   * more are sent, and then the first and the last of those acknowledgements arrive once more. The sender holds the
   * same acknowledgement as before, yet the second of the two chunks, neither acknowledged nor delivered, is gone.
   */
  lemma StaleAcksLoseChunks(chunk: Bytes) returns (before: Stream, after: Stream)
    ensures Reached(before) && Reached(after)
    ensures before.taken == after.taken && before.receiver == after.receiver && before.net == after.net
    ensures before.sender.lastAckedSeq == after.sender.lastAckedSeq == after.receiver.recvSeq == MAX_SEND_WINDOW_SIZE
    ensures Placed(after.sender) == |after.taken| == MAX_SEND_WINDOW_SIZE + 2
    ensures before.sender.window.Valid() && after.sender.window.Valid()
    ensures Answer(before.sender, MAX_SEND_WINDOW_SIZE + 2) == {Data(MAX_SEND_WINDOW_SIZE + 2, chunk)}
    ensures Answer(after.sender, MAX_SEND_WINDOW_SIZE + 2) == {}
    ensures Lost(after, MAX_SEND_WINDOW_SIZE + 2) && Undelivered(after, MAX_SEND_WINDOW_SIZE + 2)
  {
    var n := MAX_SEND_WINDOW_SIZE;
    var st := ManyRounds(n, chunk);
    TwoInHold(n + 1, n, chunk, chunk);
    var one := SendOne(st, chunk);
    before := SendOne(one, chunk);
    after := LateAcks(before, n, chunk);
    ReachedInv(after);
  }

  lemma ReachedInv(st: Stream)
    requires Reached(st)
    ensures Inv(st)
  {
    var run, steps :| Run(run, steps) && run[|steps|] == st;
    RunInv(run, steps, |steps|);
  }

  lemma LateAcks(st: Stream, n: nat, chunk: Bytes) returns (st': Stream)
    requires Reached(st) && n > 2 && Ack(1) in st.net && Ack(n) in st.net
    requires st.sender.window.Valid() && st.receiver.window.Valid()
    requires st.sender.window.start == n + 1 && |st.sender.window.slots| == n
    requires |st.taken| == n + 2 && st.taken[n + 1] == chunk && st.sender.window.slots[(n + 2) % n] == Some(chunk)
    ensures Reached(st')
    ensures st' == st.(sender := st'.sender)
    ensures st'.sender == st.sender.(window := st'.sender.window, lastAckedSeq := n) && st'.sender.window.Valid()
    ensures Answer(st'.sender, n + 2) == {}
    ensures |st'.sender.window.slots| == n && st'.sender.window.slots[(n + 2) % n] == None
  {
    var first := st.(sender := Acknowledge(st.sender, 1));
    assert ClearRange(st.sender.window.slots, n + 1, 1) == st.sender.window.slots;
    ReachNext(st, first, AckStep(1));
    st' := first.(sender := Acknowledge(first.sender, n));
    ReachNext(first, st', AckStep(n));
    AckKeepsNumberIff(st.taken, first.sender, n, n + 2);
  }

  // ---------------------------------------------------------------------------
  // And it stays lost
  // ---------------------------------------------------------------------------

  /** `t` was put into the send window, and unless it has been delivered its slot is empty. */
  ghost predicate Lost(st: Stream, t: int) {
    && Inv(st) && 1 <= t <= Placed(st.sender)
    && (t > st.receiver.recvSeq ==> st.sender.window.slots[t % |st.sender.window.slots|] == None)
  }

  lemma PlaceKeepsLost(st: Stream, st': Stream, t: int)
    requires Lost(st, t) && Next(st, st', PlaceStep) && Inv(st') && t > st.receiver.recvSeq
    ensures Lost(st', t)
  {
    var s, n := st.sender.sendSeq, |st.sender.window.slots|;
    if s % n == t % n {
      // the number put lies at most one window above what was delivered
      ModGap(t, s, n);
      assert false;
    }
  }

  lemma AckKeepsLost(st: Stream, st': Stream, ack: int, t: int)
    requires Lost(st, t) && Next(st, st', AckStep(ack)) && Inv(st')
    ensures Lost(st', t)
  {
    var w := st.sender.window;
    assert PacketInv(st, Ack(ack));
    ClearRangeSlot(w.slots, w.start, ack, t % |w.slots|);
  }

  /** No step makes the window answer for it again, or sends another packet of it. */
  lemma LostNext(st: Stream, st': Stream, step: Step, t: int)
    requires Lost(st, t) && Next(st, st', step)
    ensures Lost(st', t) && st.receiver.recvSeq <= st'.receiver.recvSeq
    ensures t > st'.receiver.recvSeq ==> forall c :: Data(t, c) in st'.net ==> Data(t, c) in st.net
  {
    InvNext(st, st', step);
    match step
    case PlaceStep =>
      if t > st.receiver.recvSeq {
        PlaceKeepsLost(st, st', t);
      }
    case AckStep(ack) => AckKeepsLost(st, st', ack, t);
    case DataStep(s, chunk, acked) => ReceiveKeepsDrained(st.receiver, s, chunk);
    case TakeStep(_) =>
    case ResendStep(_) =>
    case RetryStep(_) =>
  }

  ghost predicate Continues(run: seq<Stream>, steps: seq<Step>) {
    |run| == |steps| + 1 && forall i :: 0 <= i < |steps| ==> Next(run[i], run[i + 1], steps[i])
  }

  /**
   * However the stream goes on, until the chunk is delivered no resend request and no periodic resend is answered, and
   * no packet of it is in the network that was not there before.
   */
  lemma {:induction false} LostForGood(run: seq<Stream>, steps: seq<Step>, k: nat, t: int)
    requires Continues(run, steps) && k < |run| && Lost(run[0], t)
    ensures Lost(run[k], t)
    ensures run[k].receiver.recvSeq < t ==>
      Answer(run[k].sender, t) == {} && forall c :: Data(t, c) in run[k].net ==> Data(t, c) in run[0].net
    decreases k
  {
    if k > 0 {
      LostForGood(run, steps, k - 1, t);
      LostNext(run[k - 1], run[k], steps[k - 1], t);
    }
  }

  /** Putting another number into the receive window does not make this one appear. */
  lemma OtherPut(r: Receiver, s: int, chunk: Bytes, t: int)
    requires Drained(r) && s != t && r.window.Lookup(t) == None
    ensures r.window.Put(s, chunk).Lookup(t) == None
  {
    if r.window.InRange(s) && r.window.InRange(t) {
      DistinctSlots(r.window, s, t);
    }
  }

  ghost predicate Undelivered(st: Stream, t: int) {
    Inv(st) && st.receiver.recvSeq < t && st.receiver.window.Lookup(t) == None
  }

  lemma UndeliveredNext(st: Stream, st': Stream, step: Step, t: int)
    requires Undelivered(st, t) && Next(st, st', step) && !(step.DataStep? && step.seqNo == t)
    ensures Undelivered(st', t)
  {
    InvNext(st, st', step);
    if step.DataStep? {
      ReceiveKeepsDrained(st.receiver, step.seqNo, step.chunk);
      OtherPut(st.receiver, step.seqNo, step.chunk, t);
    }
  }

  /** So if the packets of it that were under way get lost, the receiver never gets past it. */
  lemma {:induction false} LostStalls(run: seq<Stream>, steps: seq<Step>, k: nat, t: int)
    requires Continues(run, steps) && k < |run| && Undelivered(run[0], t)
    requires forall i :: 0 <= i < |steps| && steps[i].DataStep? ==> steps[i].seqNo != t
    ensures Undelivered(run[k], t)
    decreases k
  {
    if k > 0 {
      LostStalls(run, steps, k - 1, t);
      UndeliveredNext(run[k - 1], run[k], steps[k - 1], t);
    }
  }
}
