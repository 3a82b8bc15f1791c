/** One end of an FRP stream (core/FRPStreamStub.go): the values its handlers work on, and the mutable stub. */
module StreamStubs {
  import opened Common
  import opened WindowBuffers

  // common/Constants.go:24-31
  const MAX_SEND_WINDOW_SIZE: nat := 7024
  const MAX_RESEND_PER_CALL: nat := 100
  const RECV_ACK_THRESHOLD: nat := 128

  datatype Packet =
    | Data(seqNo: int, chunk: Bytes)
    | Ack(ack: int)
    | ResendRequest(seqNo: int)

  /** The receiving half: `enqueued` lists every chunk handed to `enqueueWrite`. */
  datatype Receiver = Receiver(recvSeq: int, window: Window, enqueued: seq<Bytes>)

  /** The sending half: `waiting` is a chunk that has a number but does not fit the window yet. */
  datatype Sender = Sender(sendSeq: int, waiting: Option<Bytes>, window: Window, lastAckedSeq: int)

  const INITIAL_RECEIVER := Receiver(0, EmptyWindow(1, MAX_SEND_WINDOW_SIZE), [])
  const INITIAL_SENDER := Sender(0, None, EmptyWindow(1, MAX_SEND_WINDOW_SIZE), 0)

  // ---------------------------------------------------------------------------
  // Receiving
  // ---------------------------------------------------------------------------

  /** The delivery loop: hand over consecutive chunks from `recvSeq + 1` up to `upTo`. */
  function Drain(r: Receiver, upTo: int): (r': Receiver)
    requires r.window.Valid()
    ensures r'.window == r.window && r'.recvSeq >= r.recvSeq
    decreases upTo - r.recvSeq
  {
    if r.recvSeq >= upTo then r
    else
      match r.window.Lookup(r.recvSeq + 1)
      case None => r
      case Some(chunk) => Drain(Receiver(r.recvSeq + 1, r.window, r.enqueued + [chunk]), upTo)
  }

  /** The request loop: at most `limit` unfilled numbers in `[lo, hi)`, lowest first. */
  function Gaps(w: Window, lo: int, hi: int, limit: nat): seq<int>
    requires w.Valid()
    decreases hi - lo
  {
    if lo >= hi || limit == 0 then []
    else if w.Lookup(lo) == None then [lo] + Gaps(w, lo + 1, hi, limit - 1)
    else Gaps(w, lo + 1, hi, limit)
  }

  datatype Received = Received(receiver: Receiver, accepted: bool, gaps: seq<int>)

  function Receive(r: Receiver, s: int, chunk: Bytes): Received
    requires r.window.Valid()
  {
    if !r.window.InRange(s) then Received(r, false, [])
    else
      var w := r.window.Put(s, chunk);
      var d := Drain(r.(window := w), r.recvSeq + MAX_SEND_WINDOW_SIZE);
      if d.recvSeq > r.recvSeq
      then Received(d.(window := w.BundleAdvanceUpTo(d.recvSeq)), true, [])
      else Received(d, true, Gaps(w, r.recvSeq + 1, s, MAX_RESEND_PER_CALL))
  }

  /** `g` is exactly the lowest missing numbers of `[lo, hi)`, ascending, cut off after `limit`. */
  ghost predicate LowestMissing(w: Window, lo: int, hi: int, limit: nat, g: seq<int>)
    requires w.Valid()
  {
    && |g| <= limit
    && (forall i :: 0 <= i < |g| ==> lo <= g[i] < hi && w.Lookup(g[i]) == None)
    && (forall i, j :: 0 <= i < j < |g| ==> g[i] < g[j])
    && (forall s :: lo <= s < hi && w.Lookup(s) == None && s !in g ==>
          |g| == limit && (forall i :: 0 <= i < |g| ==> g[i] < s))
  }

  lemma MissingFirst(w: Window, lo: int, hi: int, limit: nat, rest: seq<int>)
    requires w.Valid() && lo < hi && limit > 0 && w.Lookup(lo) == None && LowestMissing(w, lo + 1, hi, limit - 1, rest)
    ensures LowestMissing(w, lo, hi, limit, [lo] + rest)
  {
    var g := [lo] + rest;
    forall s | lo <= s < hi && w.Lookup(s) == None && s !in g
      ensures |g| == limit && forall i :: 0 <= i < |g| ==> g[i] < s
    {
      assert g[0] == lo;
      assert s !in rest;
    }
  }

  lemma {:induction false} GapsAreLowestMissing(w: Window, lo: int, hi: int, limit: nat)
    requires w.Valid()
    ensures LowestMissing(w, lo, hi, limit, Gaps(w, lo, hi, limit))
    decreases hi - lo
  {
    if lo < hi && limit > 0 {
      if w.Lookup(lo) == None {
        GapsAreLowestMissing(w, lo + 1, hi, limit - 1);
        MissingFirst(w, lo, hi, limit, Gaps(w, lo + 1, hi, limit - 1));
      } else {
        GapsAreLowestMissing(w, lo + 1, hi, limit);
      }
    }
  }

  /** From `r` to `d` exactly the chunks of the numbers in between were handed over, in order. */
  ghost predicate HandedOver(r: Receiver, d: Receiver)
    requires r.window.Valid()
  {
    && r.recvSeq <= d.recvSeq
    && |d.enqueued| == |r.enqueued| + (d.recvSeq - r.recvSeq)
    && r.enqueued <= d.enqueued
    && forall s :: r.recvSeq < s <= d.recvSeq ==>
         r.window.Lookup(s) == Some(d.enqueued[|r.enqueued| + (s - r.recvSeq - 1)])
  }

  lemma HandedOverOneMore(r: Receiver, chunk: Bytes, d: Receiver)
    requires r.window.Valid() && r.window.Lookup(r.recvSeq + 1) == Some(chunk)
    requires HandedOver(Receiver(r.recvSeq + 1, r.window, r.enqueued + [chunk]), d)
    ensures HandedOver(r, d)
  {
    assert d.enqueued[|r.enqueued|] == (r.enqueued + [chunk])[|r.enqueued|];
  }

  /** What the delivery loop hands over, and why it stops. */
  lemma {:induction false} DrainDelivers(r: Receiver, upTo: int)
    requires r.window.Valid() && r.recvSeq <= upTo
    ensures
      var d := Drain(r, upTo);
      && d.recvSeq <= upTo && HandedOver(r, d)
      && (d.recvSeq < upTo ==> r.window.Lookup(d.recvSeq + 1) == None)
    decreases upTo - r.recvSeq
  {
    if r.recvSeq < upTo && r.window.Lookup(r.recvSeq + 1).Some? {
      var chunk := r.window.Lookup(r.recvSeq + 1).value;
      DrainDelivers(Receiver(r.recvSeq + 1, r.window, r.enqueued + [chunk]), upTo);
      HandedOverOneMore(r, chunk, Drain(r, upTo));
    }
  }

  /** The receiver is drained: the window starts right above what was delivered, and that number is missing. */
  ghost predicate Drained(r: Receiver) {
    && r.window.Valid() && |r.window.slots| == MAX_SEND_WINDOW_SIZE
    && r.recvSeq >= 0
    && r.window.start == r.recvSeq + 1
    && r.window.Lookup(r.recvSeq + 1) == None
    && |r.enqueued| == r.recvSeq
  }

  /** The window after an accepted chunk is the old one with that chunk, cut off below what is now delivered. */
  lemma ReceiveKeepsDrained(r: Receiver, s: int, chunk: Bytes)
    requires Drained(r)
    ensures
      var d := Receive(r, s, chunk);
      var w := r.window.Put(s, chunk);
      && Drained(d.receiver)
      && d.accepted == r.window.InRange(s)
      && r.recvSeq <= d.receiver.recvSeq
      && r.enqueued <= d.receiver.enqueued
      && (forall t :: r.recvSeq < t <= d.receiver.recvSeq ==> w.Lookup(t) == Some(d.receiver.enqueued[t - 1]))
      && (forall t :: t > r.recvSeq ==>
            d.receiver.window.Lookup(t) == if t <= d.receiver.recvSeq then None else w.Lookup(t))
  {
    var w := r.window.Put(s, chunk);
    var r0 := r.(window := w);
    var d0 := Drain(r0, r.recvSeq + MAX_SEND_WINDOW_SIZE);
    DrainDelivers(r0, r.recvSeq + MAX_SEND_WINDOW_SIZE);
    if r.window.InRange(s) && d0.recvSeq > r.recvSeq {
      var w' := w.BundleAdvanceUpTo(d0.recvSeq);
      BundleAdvanceIsMapRemoval(w, d0.recvSeq);
      assert w'.start > d0.recvSeq ==> w'.start == d0.recvSeq + 1;
      assert w.Lookup(d0.recvSeq + 1) == None;
    }
  }

  /** An accepted packet that fills no gap asks for the lowest missing numbers below it, at most a hundred, ascending. */
  lemma NoProgressAsksForGaps(r: Receiver, s: int, chunk: Bytes)
    requires Drained(r)
    ensures
      var d := Receive(r, s, chunk);
      && (d.gaps != [] ==> d.accepted && d.receiver.recvSeq == r.recvSeq)
      && (d.accepted && d.receiver.recvSeq == r.recvSeq ==>
            && s > r.recvSeq + 1
            && 1 <= |d.gaps| <= MAX_RESEND_PER_CALL
            && d.gaps[0] == r.recvSeq + 1
            && (forall i, j :: 0 <= i < j < |d.gaps| ==> d.gaps[i] < d.gaps[j])
            && (forall i :: 0 <= i < |d.gaps| ==> r.recvSeq < d.gaps[i] < s && r.window.Lookup(d.gaps[i]) == None)
            && (forall t :: r.recvSeq < t < s && r.window.Lookup(t) == None && t !in d.gaps ==>
                  |d.gaps| == MAX_RESEND_PER_CALL && forall i :: 0 <= i < |d.gaps| ==> d.gaps[i] < t))
  {
    var d := Receive(r, s, chunk);
    var w := r.window.Put(s, chunk);
    DrainDelivers(r.(window := w), r.recvSeq + MAX_SEND_WINDOW_SIZE);
    if d.accepted && d.receiver.recvSeq == r.recvSeq {
      assert w.Lookup(r.recvSeq + 1) == None;
      assert s != r.recvSeq + 1;
      GapsAreLowestMissing(w, r.recvSeq + 1, s, MAX_RESEND_PER_CALL);
      forall t | r.recvSeq < t < s
        ensures w.Lookup(t) == r.window.Lookup(t)
      {
        DistinctSlots(r.window, s, t);
      }
      assert w.Lookup(r.recvSeq + 1) == None && r.recvSeq + 1 in d.gaps;
    }
  }

  // ---------------------------------------------------------------------------
  // Sending
  // ---------------------------------------------------------------------------

  datatype PlaceResult = Blocked | Aborted | Sent(sender: Sender, packet: Packet)

  function Take(s: Sender, chunk: Bytes): Sender {
    s.(sendSeq := s.sendSeq + 1, waiting := Some(chunk))
  }

  /** One turn of the `CanPut` loop of `sendDataLoop`. */
  function Place(s: Sender): PlaceResult
    requires s.window.Valid() && s.waiting.Some?
  {
    if s.window.InRange(s.sendSeq) then
      Sent(s.(window := s.window.Put(s.sendSeq, s.waiting.value), waiting := None), Data(s.sendSeq, s.waiting.value))
    else if s.sendSeq < s.window.start then Aborted
    else Blocked
  }

  function Acknowledge(s: Sender, ack: int): Sender
    requires s.window.Valid()
  {
    s.(window := s.window.RemoveUpTo(ack), lastAckedSeq := ack)
  }

  /** The next chunk is put and sent while its number is in the window; below it the stream aborts, above it it waits. */
  lemma PlaceDecides(s: Sender)
    requires s.window.Valid() && s.waiting.Some?
    ensures
      var n, start := s.sendSeq, s.window.start;
      match Place(s)
      case Aborted => n < start
      case Blocked => n >= start + |s.window.slots|
      case Sent(s', p) =>
        && start <= n < start + |s.window.slots| && p == Data(n, s.waiting.value)
        && s'.sendSeq == n && s'.waiting == None && s'.lastAckedSeq == s.lastAckedSeq && s'.window.start == start
        && s'.window.Contents() == s.window.Contents()[n := s.waiting.value]
  {
    PutIsMapUpdate(s.window, s.sendSeq, s.waiting.value);
  }

  /** An acknowledgement in order forgets the numbers up to it, and no other; the window then starts right behind it. */
  lemma AcknowledgeForgets(s: Sender, ack: int)
    requires s.window.Valid() && ack >= s.window.start - 1
    ensures
      var s' := Acknowledge(s, ack);
      && s'.sendSeq == s.sendSeq && s'.waiting == s.waiting && s'.lastAckedSeq == ack && s'.window.start == ack + 1
      && s'.window.Contents() == map t | t in s.window.Contents() && t > ack :: s.window.Contents()[t]
  {
    RemoveUpToIsMapRemoval(s.window, ack);
  }

  // ---------------------------------------------------------------------------
  // The mutable stub
  // ---------------------------------------------------------------------------

  datatype AckMode = Immediate | Delayed | OtherMode

  class StreamStub {
    var sendSeq: int
    var lastAckedSeq: int
    var waiting: Option<Bytes>
    const sendWindow: WindowBuffer

    var recvSeq: int
    const recvWindow: WindowBuffer
    var enqueued: seq<Bytes>

    var ackMode: AckMode
    var recvSinceLastAck: int
    var delayedResend: bool
    var delayedResendRequest: bool

    ghost const Repr: set<object>

    ghost predicate Valid()
      reads this, Repr
    {
      && Repr == {this, sendWindow, sendWindow.data, sendWindow.filled, recvWindow, recvWindow.data, recvWindow.filled}
      && sendWindow != recvWindow
      && sendWindow.data != recvWindow.data && sendWindow.filled != recvWindow.filled
      && sendWindow.Valid() && recvWindow.Valid()
      && sendWindow.size == recvWindow.size == MAX_SEND_WINDOW_SIZE
    }

    ghost function SenderView(): Sender
      requires Valid()
      reads this, Repr
    {
      Sender(sendSeq, waiting, sendWindow.View(), lastAckedSeq)
    }

    ghost function ReceiverView(): Receiver
      requires Valid()
      reads this, Repr
    {
      Receiver(recvSeq, recvWindow.View(), enqueued)
    }

    constructor ()
      ensures Valid() && fresh(Repr)
      ensures SenderView() == INITIAL_SENDER && ReceiverView() == INITIAL_RECEIVER
      ensures ackMode == Immediate && !delayedResend && !delayedResendRequest
    {
      sendSeq, lastAckedSeq, waiting := 0, 0, None;
      recvSeq, enqueued := 0, [];
      ackMode, recvSinceLastAck := Immediate, 0;
      delayedResend, delayedResendRequest := false, false;
      var sw := new WindowBuffer(1, MAX_SEND_WINDOW_SIZE);
      var rw := new WindowBuffer(1, MAX_SEND_WINDOW_SIZE);
      sendWindow, recvWindow := sw, rw;
      Repr := {this, sw, sw.data, sw.filled, rw, rw.data, rw.filled};
    }

    /** `sendDataLoop`, up to its wait: the next chunk gets its number. */
    method TakeChunk(chunk: Bytes)
      requires Valid()
      modifies this`sendSeq, this`waiting
      ensures Valid()
      ensures SenderView() == Take(old(SenderView()), chunk) && ReceiverView() == old(ReceiverView())
    {
      sendSeq := sendSeq + 1;
      waiting := Some(chunk);
    }

    /** `sendDataLoop`, after a wake-up: put and send, go back to waiting, or abort. */
    method PlaceChunk() returns (sent: seq<Packet>, aborted: bool)
      requires Valid() && waiting.Some?
      modifies this`waiting, sendWindow.data, sendWindow.filled
      ensures Valid() && ReceiverView() == old(ReceiverView())
      ensures match Place(old(SenderView()))
              case Sent(s, p) => SenderView() == s && sent == [p] && !aborted
              case Aborted => SenderView() == old(SenderView()) && sent == [] && aborted
              case Blocked => SenderView() == old(SenderView()) && sent == [] && !aborted
    {
      var fits := sendWindow.CanPut(sendSeq);
      if !fits {
        return [], sendSeq < sendWindow.startSeq;
      }
      var chunk := waiting.value;
      var _ := sendWindow.Put(sendSeq, chunk);
      waiting := None;
      return [Data(sendSeq, chunk)], false;
    }

    method OnAck(ack: int)
      requires Valid() && ack >= -1
      modifies this`lastAckedSeq, sendWindow`startSeq, sendWindow.data, sendWindow.filled
      ensures Valid()
      ensures SenderView() == Acknowledge(old(SenderView()), ack) && ReceiverView() == old(ReceiverView())
    {
      sendWindow.RemoveUpTo(ack);
      lastAckedSeq := ack;
    }

    /** `sentLately` says whether `AckTimeout` has not yet passed since the chunk was last sent. */
    method OnResendRequest(s: int, sentLately: bool) returns (sent: seq<Packet>)
      requires Valid()
      ensures sent == match SenderView().window.Lookup(s)
                      case Some(chunk) => if delayedResend && sentLately then [] else [Data(s, chunk)]
                      case None => []
    {
      var chunk, ok := sendWindow.Get(s);
      if delayedResend {
        if sentLately {
          return [];
        }
      }
      if ok {
        return [Data(s, chunk)];
      }
      return [];
    }

    /**
     * `recent` holds the numbers requested less than `SendResendTimeout` ago and `ackDue` tells whether
     * `RecvAckTimeout` has passed since the last acknowledgement: the two readings of the clock.
     */
    method OnData(s: int, chunk: Bytes, recent: set<int>, ackDue: bool) returns (sent: seq<Packet>)
      requires Valid()
      modifies this`recvSeq, this`enqueued, this`recvSinceLastAck
      modifies recvWindow`startSeq, recvWindow.data, recvWindow.filled
      ensures Valid() && SenderView() == old(SenderView())
      ensures
        var d := Receive(old(ReceiverView()), s, chunk);
        var acks := d.accepted && (ackMode != Delayed || old(recvSinceLastAck) + 1 >= RECV_ACK_THRESHOLD || ackDue);
        && ReceiverView() == d.receiver
        && sent == Requests(d.gaps, if delayedResendRequest then recent else {}) + (if acks then [Ack(recvSeq)] else [])
        && recvSinceLastAck ==
             if !d.accepted || ackMode != Delayed then old(recvSinceLastAck)
             else if acks then 0 else old(recvSinceLastAck) + 1
    {
      sent := [];
      ghost var r0 := ReceiverView();
      var accepted, progress := Accept(s, chunk);
      if !accepted {
        return;
      }
      if !progress {
        sent := RequestGaps(s, recent);
      }
      var acks := SendAck(ackDue);
      sent := sent + acks;
    }

    /** `onData` up to the requests: store the chunk, deliver what is now in order, advance the window. */
    method Accept(s: int, chunk: Bytes) returns (accepted: bool, progress: bool)
      requires Valid()
      modifies this`recvSeq, this`enqueued, recvWindow`startSeq, recvWindow.data, recvWindow.filled
      ensures Valid() && SenderView() == old(SenderView())
      ensures
        var d := Receive(old(ReceiverView()), s, chunk);
        && ReceiverView() == d.receiver && accepted == d.accepted
        && progress == (recvSeq > old(recvSeq))
        && d.gaps == if accepted && !progress then Gaps(recvWindow.View(), recvSeq + 1, s, MAX_RESEND_PER_CALL) else []
    {
      ghost var r0 := ReceiverView();
      accepted := recvWindow.Put(s, chunk);
      if !accepted {
        return false, false;
      }
      assert ReceiverView() == r0.(window := r0.window.Put(s, chunk));
      progress := Deliver();
      assert ReceiverView() == Drain(r0.(window := r0.window.Put(s, chunk)), r0.recvSeq + MAX_SEND_WINDOW_SIZE);
      if progress {
        var _ := recvWindow.BundleAdvanceUpTo(recvSeq);
      }
    }

    /** The delivery loop of `onData`. */
    method Deliver() returns (progress: bool)
      requires Valid()
      modifies this`recvSeq, this`enqueued
      ensures Valid()
      ensures ReceiverView() == Drain(old(ReceiverView()), old(recvSeq) + MAX_SEND_WINDOW_SIZE)
      ensures progress == (recvSeq > old(recvSeq))
    {
      progress := false;
      var startSeq := recvSeq + 1;
      ghost var upTo := recvSeq + MAX_SEND_WINDOW_SIZE;
      var next := startSeq;
      while next < startSeq + MAX_SEND_WINDOW_SIZE
        invariant startSeq <= next <= startSeq + MAX_SEND_WINDOW_SIZE
        invariant recvSeq == next - 1
        invariant progress == (recvSeq > old(recvSeq))
        invariant Drain(ReceiverView(), upTo) == Drain(old(ReceiverView()), upTo)
      {
        var data, ok := recvWindow.Get(next);
        if !ok {
          break;
        }
        enqueued := enqueued + [data];
        recvSeq := next;
        progress := true;
        next := next + 1;
      }
    }

    /** The acknowledgement at the end of `onData`. */
    method SendAck(ackDue: bool) returns (sent: seq<Packet>)
      modifies this`recvSinceLastAck
      ensures
        var acks := ackMode != Delayed || old(recvSinceLastAck) + 1 >= RECV_ACK_THRESHOLD || ackDue;
        && sent == (if acks then [Ack(recvSeq)] else [])
        && recvSinceLastAck ==
             if ackMode != Delayed then old(recvSinceLastAck) else if acks then 0 else old(recvSinceLastAck) + 1
    {
      sent := [];
      match ackMode {
        case Immediate => sent := [Ack(recvSeq)];
        case Delayed =>
          recvSinceLastAck := recvSinceLastAck + 1;
          if recvSinceLastAck >= RECV_ACK_THRESHOLD || ackDue {
            sent := [Ack(recvSeq)];
            recvSinceLastAck := 0;
          }
        case OtherMode => sent := [Ack(recvSeq)];
      }
    }

    method RequestGaps(s: int, recent: set<int>) returns (sent: seq<Packet>)
      requires Valid()
      ensures sent == Requests(Gaps(recvWindow.View(), recvSeq + 1, s, MAX_RESEND_PER_CALL),
                               if delayedResendRequest then recent else {})
    {
      var skipped := if delayedResendRequest then recent else {};
      ghost var w := recvWindow.View();
      sent := [];
      var count := 0;
      var next := recvSeq + 1;
      while next < s && count < MAX_RESEND_PER_CALL
        invariant 0 <= count <= MAX_RESEND_PER_CALL
        invariant RequestLoop(w, next, s, MAX_RESEND_PER_CALL - count, skipped, sent)
                  == RequestLoop(w, recvSeq + 1, s, MAX_RESEND_PER_CALL, skipped, [])
        decreases s - next
      {
        var filled := recvWindow.IsFilled(next);
        if !filled {
          if next !in skipped {
            sent := sent + [ResendRequest(next)];
          }
          count := count + 1;
        }
        next := next + 1;
      }
      RequestLoopAsksForGaps(w, recvSeq + 1, s, MAX_RESEND_PER_CALL, skipped, []);
    }
  }

  /** The requests actually sent: a number asked for lately is counted but not asked for again. */
  function Requests(gaps: seq<int>, skipped: set<int>): seq<Packet> {
    if gaps == [] then []
    else (if gaps[0] in skipped then [] else [ResendRequest(gaps[0])]) + Requests(gaps[1..], skipped)
  }

  /** They are the numbers not asked for lately, each once and in the same order. */
  ghost predicate FreshRequests(gaps: seq<int>, skipped: set<int>, sent: seq<Packet>) {
    && (forall p :: p in sent <==> p.ResendRequest? && p.seqNo in gaps && p.seqNo !in skipped)
    && forall i, j :: 0 <= i < j < |sent| ==> sent[i].seqNo < sent[j].seqNo
  }

  ghost predicate Ascending(s: seq<int>) {
    forall i, j :: 0 <= i < j < |s| ==> s[i] < s[j]
  }

  lemma AscendingRest(s: seq<int>)
    requires Ascending(s) && s != []
    ensures Ascending(s[1..]) && forall x :: x in s[1..] ==> s[0] < x
  {
  }

  lemma FreshFirst(gap: int, rest: seq<int>, skipped: set<int>, sent: seq<Packet>)
    requires FreshRequests(rest, skipped, sent) && forall x :: x in rest ==> gap < x
    ensures FreshRequests([gap] + rest, skipped, (if gap in skipped then [] else [ResendRequest(gap)]) + sent)
  {
    assert forall i :: 0 <= i < |sent| ==> sent[i] in sent;
  }

  lemma {:induction false} RequestsAreFresh(gaps: seq<int>, skipped: set<int>)
    requires Ascending(gaps)
    ensures FreshRequests(gaps, skipped, Requests(gaps, skipped))
    decreases |gaps|
  {
    if gaps != [] {
      var gap, rest := gaps[0], gaps[1..];
      AscendingRest(gaps);
      RequestsAreFresh(rest, skipped);
      FreshFirst(gap, rest, skipped, Requests(rest, skipped));
      assert [gap] + rest == gaps;
    }
  }

  /** The requesting loop, with what it has sent so far. */
  ghost function RequestLoop(w: Window, lo: int, hi: int, limit: nat, skipped: set<int>, sent: seq<Packet>): seq<Packet>
    requires w.Valid()
    decreases hi - lo
  {
    if lo >= hi || limit == 0 then sent
    else if w.Lookup(lo) != None then RequestLoop(w, lo + 1, hi, limit, skipped, sent)
    else if lo in skipped then RequestLoop(w, lo + 1, hi, limit - 1, skipped, sent)
    else RequestLoop(w, lo + 1, hi, limit - 1, skipped, sent + [ResendRequest(lo)])
  }

  lemma {:induction false} RequestLoopAsksForGaps(w: Window, lo: int, hi: int, limit: nat, skipped: set<int>, sent: seq<Packet>)
    requires w.Valid()
    ensures RequestLoop(w, lo, hi, limit, skipped, sent) == sent + Requests(Gaps(w, lo, hi, limit), skipped)
    decreases hi - lo
  {
    if lo >= hi || limit == 0 {
      assert sent + Requests([], skipped) == sent;
    } else if w.Lookup(lo) != None {
      RequestLoopAsksForGaps(w, lo + 1, hi, limit, skipped, sent);
    } else {
      var rest := Gaps(w, lo + 1, hi, limit - 1);
      RequestsFirst(lo, rest, skipped, sent);
      RequestLoopAsksForGaps(w, lo + 1, hi, limit - 1, skipped, if lo in skipped then sent else sent + [ResendRequest(lo)]);
    }
  }

  lemma RequestsFirst(gap: int, rest: seq<int>, skipped: set<int>, sent: seq<Packet>)
    ensures sent + Requests([gap] + rest, skipped)
         == (if gap in skipped then sent else sent + [ResendRequest(gap)]) + Requests(rest, skipped)
  {
    assert ([gap] + rest)[1..] == rest;
  }
}
