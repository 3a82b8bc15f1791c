/**
 * One direction of an FRP stream over a network that loses, duplicates and reorders packets:
 * every packet ever sent stays in `net` and may be delivered any number of times, or never.
 */
module StreamDelivery {
  import opened Common
  import opened Modulo
  import opened WindowBuffers
  import opened StreamStubs

  /** `taken` lists the chunks the sender took from `readChan`; chunk `i` has sequence number `i + 1`. */
  datatype Stream = Stream(taken: seq<Bytes>, sender: Sender, receiver: Receiver, net: set<Packet>)

  ghost predicate Init(st: Stream) {
    st == Stream([], INITIAL_SENDER, INITIAL_RECEIVER, {})
  }

  datatype Step =
    | TakeStep(chunk: Bytes)
    | PlaceStep
    | AckStep(ack: int)
    | ResendStep(seqNo: int)
    | RetryStep(seqNo: int)
    | DataStep(seqNo: int, chunk: Bytes, acked: bool)

  ghost predicate Next(st: Stream, st': Stream, step: Step)
  {
    && st.sender.window.Valid() && st.receiver.window.Valid()
    && match step
       // sendDataLoop takes a chunk, and then waits for room
       case TakeStep(chunk) =>
         && st.sender.waiting == None
         && st' == st.(taken := st.taken + [chunk], sender := Take(st.sender, chunk))
       case PlaceStep =>
         && st.sender.waiting.Some?
         && Place(st.sender).Sent?
         && st' == st.(sender := Place(st.sender).sender, net := st.net + {Place(st.sender).packet})
       case AckStep(ack) =>
         && Ack(ack) in st.net
         && st' == st.(sender := Acknowledge(st.sender, ack))
       // onResendRequest, and the periodic resendUnackedData, send whatever the window answers
       case ResendStep(s) =>
         && ResendRequest(s) in st.net
         && st' == st.(net := st.net + Answer(st.sender, s))
       case RetryStep(s) =>
         && st.sender.window.start <= s < st.sender.sendSeq
         && st' == st.(net := st.net + Answer(st.sender, s))
       // onData; whether an accepted packet is acknowledged at once depends on the acknowledgement mode
       case DataStep(s, chunk, acked) =>
         && Data(s, chunk) in st.net
         && var d := Receive(st.receiver, s, chunk);
         && (acked ==> d.accepted)
         && st' == st.(receiver := d.receiver,
                       net := st.net + (if acked then {Ack(d.receiver.recvSeq)} else {})
                                     + RequestsFor(d.gaps))
  }

  function RequestsFor(gaps: seq<int>): set<Packet> {
    set i | 0 <= i < |gaps| :: ResendRequest(gaps[i])
  }

  function Answer(s: Sender, seqNo: int): set<Packet>
    requires s.window.Valid()
  {
    match s.window.Lookup(seqNo)
    case Some(chunk) => {Data(seqNo, chunk)}
    case None => {}
  }

  ghost predicate Run(run: seq<Stream>, steps: seq<Step>) {
    && |run| == |steps| + 1
    && Init(run[0])
    && forall i :: 0 <= i < |steps| ==> Next(run[i], run[i + 1], steps[i])
  }

  // ---------------------------------------------------------------------------
  // The invariant
  // ---------------------------------------------------------------------------

  /** Numbers up to here have been put into the send window. */
  function Placed(s: Sender): int {
    if s.waiting.Some? then s.sendSeq - 1 else s.sendSeq
  }

  /** `chunk` is what was taken for number `s`. */
  predicate Genuine(taken: seq<Bytes>, s: int, chunk: Bytes) {
    1 <= s <= |taken| && taken[s - 1] == chunk
  }

  /**
   * A filled slot of the send window still holds the chunk of some number `q` it was filled for.
   * The last clause is what survives a stale acknowledgement: `q` lies at most one window above
   * what the receiver has delivered, because `q` was put while it fitted the window.
   */
  ghost predicate SlotHolds(st: Stream, i: int, q: int)
    requires 0 <= i < |st.sender.window.slots|
  {
    var w := st.sender.window;
    && w.slots[i].Some?
    && w.start <= q <= Placed(st.sender)
    && q % |w.slots| == i
    && Genuine(st.taken, q, w.slots[i].value)
    && q - |w.slots| <= st.receiver.recvSeq
  }

  ghost predicate SenderInv(st: Stream) {
    var s := st.sender;
    && s.window.Valid() && |s.window.slots| == MAX_SEND_WINDOW_SIZE
    && s.sendSeq == |st.taken|
    && (s.waiting.Some? ==> Genuine(st.taken, s.sendSeq, s.waiting.value))
    && 1 <= s.window.start <= st.receiver.recvSeq + 1
    && (forall i :: 0 <= i < |s.window.slots| && s.window.slots[i].Some? ==> exists q :: SlotHolds(st, i, q))
  }

  ghost predicate ReceiverInv(st: Stream) {
    var r := st.receiver;
    && Drained(r)
    && r.recvSeq <= Placed(st.sender) <= |st.taken|
    && r.enqueued == st.taken[..r.recvSeq]
    && (forall s :: s > r.recvSeq && r.window.Lookup(s).Some? ==>
          s <= Placed(st.sender) && Genuine(st.taken, s, r.window.Lookup(s).value))
  }

  /** A data packet carries its own chunk unless its number has been delivered already. */
  ghost predicate PacketInv(st: Stream, p: Packet) {
    match p
    case Data(s, chunk) => 1 <= s <= Placed(st.sender) && (Genuine(st.taken, s, chunk) || s <= st.receiver.recvSeq)
    case Ack(ack) => 0 <= ack <= st.receiver.recvSeq
    case ResendRequest(_) => true
  }

  ghost predicate Inv(st: Stream) {
    && 0 <= Placed(st.sender) <= |st.taken|
    && SenderInv(st)
    && ReceiverInv(st)
    && forall p :: p in st.net ==> PacketInv(st, p)
  }

  /** Whatever the send window answers for `s` is its chunk, or `s` has been delivered already. */
  lemma AnswerIsGenuineOrOld(st: Stream, s: int)
    requires Inv(st)
    requires st.sender.window.Lookup(s).Some?
    ensures PacketInv(st, Data(s, st.sender.window.Lookup(s).value))
  {
    var w := st.sender.window;
    var n, i := |w.slots|, s % |w.slots|;
    var q :| SlotHolds(st, i, q);
    if q < s {
      ModGap(q, s, n);
    } else if q > s {
      ModGap(s, q, n);
    }
  }

  lemma InvInit(st: Stream)
    requires Init(st)
    ensures Inv(st)
  {
  }

  lemma InvNext(st: Stream, st': Stream, step: Step)
    requires Inv(st) && Next(st, st', step)
    ensures Inv(st')
  {
    match step
    case TakeStep(chunk) => InvTake(st, st', chunk);
    case PlaceStep => InvPlace(st, st');
    case AckStep(ack) => InvAck(st, st', ack);
    case ResendStep(s) => InvAnswer(st, st', s);
    case RetryStep(s) => InvAnswer(st, st', s);
    case DataStep(s, chunk, acked) => InvData(st, st', s, chunk, acked);
  }

  lemma InvTake(st: Stream, st': Stream, chunk: Bytes)
    requires Inv(st) && Next(st, st', TakeStep(chunk))
    ensures Inv(st')
  {
    KeepSlots(st, st');
  }

  /** Slots keep what they hold when the window is untouched and nothing they refer to shrinks. */
  lemma KeepSlots(st: Stream, st': Stream)
    requires Inv(st)
    requires st'.sender.window == st.sender.window && st.taken <= st'.taken
    requires Placed(st.sender) <= Placed(st'.sender) && st.receiver.recvSeq <= st'.receiver.recvSeq
    ensures forall i :: 0 <= i < |st'.sender.window.slots| && st'.sender.window.slots[i].Some? ==>
                          exists q :: SlotHolds(st', i, q)
  {
    forall i | 0 <= i < |st'.sender.window.slots| && st'.sender.window.slots[i].Some?
      ensures exists q :: SlotHolds(st', i, q)
    {
      var q :| SlotHolds(st, i, q);
      assert SlotHolds(st', i, q);
    }
  }

  lemma InvPlace(st: Stream, st': Stream)
    requires Inv(st) && Next(st, st', PlaceStep)
    ensures Inv(st')
  {
    var w, w' := st.sender.window, st'.sender.window;
    var s := st.sender.sendSeq;
    forall i | 0 <= i < |w'.slots| && w'.slots[i].Some?
      ensures exists q :: SlotHolds(st', i, q)
    {
      if i == s % |w.slots| {
        assert SlotHolds(st', i, s);
      } else {
        var q :| SlotHolds(st, i, q);
        assert SlotHolds(st', i, q);
      }
    }
  }

  lemma InvAck(st: Stream, st': Stream, ack: int)
    requires Inv(st) && Next(st, st', AckStep(ack))
    ensures Inv(st')
  {
    var w, w' := st.sender.window, st'.sender.window;
    assert PacketInv(st, Ack(ack));
    forall i | 0 <= i < |w'.slots| && w'.slots[i].Some?
      ensures exists q :: SlotHolds(st', i, q)
    {
      ClearRangeSlot(w.slots, w.start, ack, i);
      var q :| SlotHolds(st, i, q);
      // had the acknowledgement reached q, the loop would have cleared this slot
      assert q > ack;
      assert SlotHolds(st', i, q);
    }
  }

  lemma InvAnswer(st: Stream, st': Stream, s: int)
    requires Inv(st) && st' == st.(net := st.net + Answer(st.sender, s))
    ensures Inv(st')
  {
    if st.sender.window.Lookup(s).Some? {
      AnswerIsGenuineOrOld(st, s);
    }
    KeepSlots(st, st');
  }

  lemma InvData(st: Stream, st': Stream, s: int, chunk: Bytes, acked: bool)
    requires Inv(st) && Next(st, st', DataStep(s, chunk, acked))
    ensures Inv(st')
  {
    var r, r' := st.receiver, st'.receiver;
    ReceiveKeepsDrained(r, s, chunk);
    assert PacketInv(st, Data(s, chunk));
    var w := r.window.Put(s, chunk);
    forall t | t > r.recvSeq && w.Lookup(t).Some?
      ensures t <= Placed(st.sender) && Genuine(st.taken, t, w.Lookup(t).value)
    {
      assert r.window.InRange(t);
      if t != s {
        if r.window.InRange(s) {
          DistinctSlots(r.window, s, t);
        }
        assert w.Lookup(t) == r.window.Lookup(t);
      } else {
        assert w.Lookup(t) == Some(chunk);
      }
    }
    assert |r'.enqueued| == r'.recvSeq && r'.recvSeq <= Placed(st.sender) by {
      if r'.recvSeq > r.recvSeq {
        assert w.Lookup(r'.recvSeq).Some?;
      }
    }
    assert r'.enqueued == st.taken[..r'.recvSeq] by {
      forall k | 0 <= k < r'.recvSeq
        ensures r'.enqueued[k] == st.taken[k]
      {
        if k >= r.recvSeq {
          assert w.Lookup(k + 1) == Some(r'.enqueued[k]);
        } else {
          assert r'.enqueued[k] == r.enqueued[k];
        }
      }
    }
    KeepSlots(st, st');
    forall p | p in st'.net
      ensures PacketInv(st', p)
    {
      assert p in st.net ==> PacketInv(st, p);
    }
  }

  // ---------------------------------------------------------------------------
  // Theorems over whole runs
  // ---------------------------------------------------------------------------

  lemma {:induction false} RunInv(run: seq<Stream>, steps: seq<Step>, k: nat)
    requires Run(run, steps) && k < |run|
    ensures Inv(run[k])
  {
    if k == 0 {
      InvInit(run[0]);
    } else {
      RunInv(run, steps, k - 1);
      InvNext(run[k - 1], run[k], steps[k - 1]);
    }
  }

  /** What has been handed to the writer is always exactly the first `recvSeq` chunks the sender took, in order. */
  lemma InOrderDelivery(run: seq<Stream>, steps: seq<Step>, k: nat)
    requires Run(run, steps) && k < |run|
    ensures
      var st := run[k];
      && 0 <= st.receiver.recvSeq <= |st.taken|
      && st.receiver.enqueued == st.taken[..st.receiver.recvSeq]
  {
    RunInv(run, steps, k);
  }

  /** No acknowledgement in flight is ahead of the receiver, and `sendDataLoop` never falls behind its window. */
  lemma NeverAborts(run: seq<Stream>, steps: seq<Step>, k: nat)
    requires Run(run, steps) && k < |run|
    ensures
      var st := run[k];
      && (forall a :: Ack(a) in st.net ==> 0 <= a <= st.receiver.recvSeq)
      && st.sender.window.Valid()
      && (st.sender.waiting.Some? ==> Place(st.sender) != Aborted)
  {
    RunInv(run, steps, k);
    forall a | Ack(a) in run[k].net
      ensures 0 <= a <= run[k].receiver.recvSeq
    {
      assert PacketInv(run[k], Ack(a));
    }
  }

  /** After every step the receive window starts at the first undelivered number, and that number is missing. */
  lemma ReceiverStaysDrained(run: seq<Stream>, steps: seq<Step>, k: nat)
    requires Run(run, steps) && k < |run|
    ensures Drained(run[k].receiver)
  {
    RunInv(run, steps, k);
  }

  // ---------------------------------------------------------------------------
  // What the sender retains
  // ---------------------------------------------------------------------------

  /** Acknowledgements arrive in non-decreasing order. */
  ghost predicate OrderedRun(run: seq<Stream>, steps: seq<Step>) {
    && Run(run, steps)
    && forall i :: 0 <= i < |steps| && steps[i].AckStep? ==> steps[i].ack >= run[i].sender.lastAckedSeq
  }

  /** Every number above `low` that was put into the window is still there with its own chunk. */
  ghost predicate RetainedAbove(taken: seq<Bytes>, s: Sender, low: int)
    requires s.window.Valid()
  {
    forall t :: low < t <= Placed(s) && t <= |taken| && 1 <= t ==> s.window.Lookup(t) == Some(taken[t - 1])
  }

  ghost predicate RetentionInv(st: Stream) {
    && Inv(st)
    && st.sender.window.start == st.sender.lastAckedSeq + 1
    && Placed(st.sender) < st.sender.window.start + |st.sender.window.slots|
    && RetainedAbove(st.taken, st.sender, st.sender.lastAckedSeq)
  }

  lemma PlaceRetains(st: Stream, st': Stream)
    requires RetentionInv(st) && Next(st, st', PlaceStep) && Inv(st')
    ensures RetentionInv(st')
  {
    var w, w' := st.sender.window, st'.sender.window;
    forall t | st.sender.lastAckedSeq < t <= Placed(st.sender)
      ensures w'.Lookup(t) == w.Lookup(t)
    {
      DistinctSlots(w, t, st.sender.sendSeq);
    }
  }

  lemma AckRetains(st: Stream, st': Stream, ack: int)
    requires RetentionInv(st) && Next(st, st', AckStep(ack)) && ack >= st.sender.lastAckedSeq && Inv(st')
    ensures RetentionInv(st')
  {
    var w, w' := st.sender.window, st'.sender.window;
    assert PacketInv(st, Ack(ack));
    forall t | ack < t <= Placed(st.sender)
      ensures w'.Lookup(t) == w.Lookup(t)
    {
      RemoveUpToIsMapRemoval(w, ack);
      assert w'.Lookup(t) == if t in w'.Contents() then Some(w'.Contents()[t]) else None;
    }
  }

  lemma RetentionNext(st: Stream, st': Stream, step: Step)
    requires RetentionInv(st) && Next(st, st', step)
    requires step.AckStep? ==> step.ack >= st.sender.lastAckedSeq
    ensures RetentionInv(st')
  {
    InvNext(st, st', step);
    match step
    case PlaceStep => PlaceRetains(st, st');
    case AckStep(ack) => AckRetains(st, st', ack);
    case TakeStep(_) =>
    case ResendStep(_) =>
    case RetryStep(_) =>
    case DataStep(_, _, _) =>
  }

  lemma {:induction false} RetentionRun(run: seq<Stream>, steps: seq<Step>, k: nat)
    requires OrderedRun(run, steps) && k < |run|
    ensures RetentionInv(run[k])
  {
    if k > 0 {
      RetentionRun(run, steps, k - 1);
      RetentionNext(run[k - 1], run[k], steps[k - 1]);
    }
  }

  /**
   * With acknowledgements in order, a resend request for any unacknowledged number that was sent is answered
   * with exactly the packet that was sent first.
   */
  lemma SenderRetention(run: seq<Stream>, steps: seq<Step>, k: nat, s: int)
    requires OrderedRun(run, steps) && k < |run|
    requires run[k].sender.lastAckedSeq < s <= Placed(run[k].sender)
    ensures 1 <= s <= |run[k].taken| && run[k].sender.window.Valid()
    ensures Answer(run[k].sender, s) == {Data(s, run[k].taken[s - 1])}
  {
    RetentionRun(run, steps, k);
  }

  /**
   * Out of order that fails: an acknowledgement handled after the window moved back clears slots that newer,
   * unacknowledged numbers already use. A number `t` above the acknowledgement survives it exactly when it lies in the
   * window as it was; one that was put before the window moved back, and lies beyond its end now, is lost.
   */
  lemma AckKeepsNumberIff(taken: seq<Bytes>, s: Sender, ack: int, t: int)
    requires s.window.Valid() && ack >= -1
    requires ack < t && t < ack + 1 + |s.window.slots|
    requires 1 <= t <= |taken| && s.window.slots[t % |s.window.slots|] == Some(taken[t - 1])
    ensures Acknowledge(s, ack).window.Lookup(t) ==
              if t < s.window.start + |s.window.slots| then Some(taken[t - 1]) else None
  {
    var n, start := |s.window.slots|, s.window.start;
    ClearRangeSlot(s.window.slots, start, ack, t % n);
    if t < start + n {
      forall c | start <= c <= ack ensures c % n != t % n {
        ModDistinct(c, t, n);
      }
    } else {
      ModShift(t - n, n);
      assert start <= t - n <= ack && (t - n) % n == t % n;
    }
  }
}
