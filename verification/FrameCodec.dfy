/** Framing of messages on a byte stream (core/TCPChannelWorker.go and, identically, core/KCPChannelWorker.go). */
module FrameCodec {
  import opened Common
  import Modulo

  /** Frame types: the last frame of a message, and one with more to come. */
  const LAST: Byte := 2
  const MORE: Byte := 4

  const LENGTH_LIMIT := 0x1_00_00_00 // lengths are 24 bits wide

  function Header(kind: Byte, n: nat): Bytes {
    [kind, (n / 0x1_00_00) % 0x100, (n / 0x100) % 0x100, n % 0x100]
  }

  function LengthOf(head: Bytes): (n: nat)
    requires |head| == 4
    ensures n < LENGTH_LIMIT
  {
    head[1] as int * 0x1_00_00 + head[2] as int * 0x100 + head[3] as int
  }

  /** What `wrapToDataFrame` produces with frames of at most `size` bytes of data. */
  function Frames(data: Bytes, size: nat): Bytes
    requires size > 0
    decreases |data|
  {
    if data == [] then []
    else if |data| <= size then Header(LAST, |data|) + data
    else Header(MORE, size) + data[..size] + Frames(data[size..], size)
  }

  method WrapToDataFrame(data: Bytes, maxFrameSize: int) returns (result: Bytes)
    requires maxFrameSize > 4
    ensures result == Frames(data, maxFrameSize - 4)
  {
    var maxDataSize: nat := maxFrameSize - 4;
    var rest := data;
    result := [];
    while |rest| > 0
      invariant result + Frames(rest, maxDataSize) == Frames(data, maxDataSize)
      decreases |rest|
    {
      var chunkSize := |rest|;
      if chunkSize > maxDataSize {
        chunkSize := maxDataSize;
      }
      var frameType := LAST;
      if |rest| > maxDataSize {
        frameType := MORE;
      }
      ghost var before := result;
      ghost var frame := Header(frameType, chunkSize) + rest[..chunkSize];
      assert Frames(rest, maxDataSize) == frame + Frames(rest[chunkSize..], maxDataSize);
      result := result + [frameType, (chunkSize / 0x1_00_00) % 0x100, (chunkSize / 0x100) % 0x100, chunkSize % 0x100];
      result := result + rest[..chunkSize];
      assert result == before + frame;
      rest := rest[chunkSize..];
    }
  }

  /** Four bytes a frame, and `ceil(n / size)` frames: exactly the capacity allocated up front. */
  lemma {:induction false} FramedLength(data: Bytes, size: nat)
    requires size > 0
    ensures |Frames(data, size)| == |data| + 4 * ((|data| + size - 1) / size)
    decreases |data|
  {
    if |data| > size {
      FramedLength(data[size..], size);
      DivideStep(|data| + size - 1, size);
    } else if data != [] {
      DivideStep(|data| + size - 1, size);
      DivideSmall(|data| - 1, size);
    } else {
      DivideSmall(size - 1, size);
    }
  }

  lemma DivideSmall(a: nat, size: nat)
    requires a < size
    ensures a / size == 0
  {
  }

  lemma DivideStep(a: nat, size: nat)
    requires a >= size > 0
    ensures a / size == (a - size) / size + 1
  {
    var q, r := (a - size) / size, (a - size) % size;
    assert a == (q + 1) * size + r by {
      assert a - size == q * size + r;
    }
    Modulo.ModUnique(a, q + 1, r, size);
  }

  // ---------------------------------------------------------------------------
  // Reading
  // ---------------------------------------------------------------------------

  /** The messages a reader gets out of `stream`, having collected `pending` so far; it stops where the stream ends. */
  function Messages(stream: Bytes, pending: Bytes): seq<Bytes>
    decreases |stream|
  {
    if |stream| < 4 then []
    else
      var n := LengthOf(stream[..4]);
      if |stream| < 4 + n then []
      else
        var collected := pending + stream[4..4 + n];
        if stream[0] == LAST then [collected] + Messages(stream[4 + n..], [])
        else Messages(stream[4 + n..], collected)
  }

  /**
   * One `Read`: at least one byte, at most `want`, at most what is there. `grain(pos)` is how much the network hands
   * over at stream position `pos`; every way of splitting the stream is some `grain`.
   */
  function ReadSize(grain: int -> int, pos: int, want: nat, available: nat): (n: nat)
    requires want > 0 && available > 0
    ensures 1 <= n <= want && n <= available
  {
    Max(1, Min(grain(pos), Min(want, available)))
  }

  /** Fills a buffer of `want` bytes by repeated reads; `ok` is false when the stream ends first. */
  method Fill(stream: Bytes, start: nat, want: nat, grain: int -> int) returns (buffer: array<Byte>, ok: bool)
    requires start <= |stream|
    ensures buffer.Length == want
    ensures ok == (start + want <= |stream|)
    ensures ok ==> buffer[..] == stream[start..start + want]
  {
    buffer := new Byte[want](_ => 0);
    var i := 0;
    while i < want
      invariant 0 <= i <= want && start + i <= |stream|
      invariant buffer[..i] == stream[start..start + i]
    {
      if start + i == |stream| {
        return buffer, false;
      }
      var n := ReadSize(grain, start + i, want - i, |stream| - (start + i));
      for k := 0 to n
        invariant buffer[..i + k] == stream[start..start + i + k]
      {
        buffer[i + k] := stream[start + i + k];
      }
      i := i + n;
    }
    ok := true;
  }

  /** The packages handed over so far, and those still to come from position `pos` on. */
  ghost function InAll(done: seq<Bytes>, stream: Bytes, pos: nat, pending: Bytes): seq<Bytes>
    requires pos <= |stream|
  {
    done + Messages(stream[pos..], pending)
  }

  /** `ReadThread` until the connection ends: the packages it hands over. */
  method ReadThread(stream: Bytes, grain: int -> int) returns (packages: seq<Bytes>)
    ensures packages == Messages(stream, [])
  {
    packages := [];
    var toBeContinued: Bytes := [];
    var pos := 0;
    assert stream[0..] == stream && [] + Messages(stream, []) == Messages(stream, []);
    while true
      invariant 0 <= pos <= |stream|
      invariant InAll(packages, stream, pos, toBeContinued) == Messages(stream, [])
      decreases |stream| - pos
    {
      var head, ok := Fill(stream, pos, 4, grain);
      if !ok {
        NoFrameLeft(stream, pos, packages, toBeContinued);
        return;
      }
      var length := head[1] as int * 0x1_00_00 + head[2] as int * 0x100 + head[3] as int;
      assert length == LengthOf(head[..]);
      var ba, ok' := Fill(stream, pos + 4, length, grain);
      if !ok' {
        NoFrameLeft(stream, pos, packages, toBeContinued);
        return;
      }
      TakeFrameAt(stream, pos, packages, toBeContinued, head[..], ba[..]);
      pos := pos + 4 + length;
      toBeContinued := toBeContinued + ba[..];
      if head[0] == LAST {
        packages := packages + [toBeContinued];
        toBeContinued := [];
      }
    }
  }

  /** One turn of the reading loop. */
  lemma TakeFrame(stream: Bytes, pending: Bytes, body: Bytes)
    requires |stream| >= 4 && |stream| >= 4 + LengthOf(stream[..4])
    requires body == stream[4..4 + LengthOf(stream[..4])]
    ensures
      var rest := stream[4 + |body|..];
      Messages(stream, pending)
      == if stream[0] == LAST then [pending + body] + Messages(rest, []) else Messages(rest, pending + body)
  {
  }

  /** Where the stream ends inside a header or a body, nothing more comes. */
  lemma NoFrameLeft(stream: Bytes, pos: nat, done: seq<Bytes>, pending: Bytes)
    requires pos <= |stream|
    requires pos + 4 > |stream| || pos + 4 + LengthOf(stream[pos..pos + 4]) > |stream|
    ensures InAll(done, stream, pos, pending) == done
  {
    var s := stream[pos..];
    assert |s| >= 4 ==> s[..4] == stream[pos..pos + 4];
  }

  lemma TakeFrameAt(stream: Bytes, pos: nat, done: seq<Bytes>, pending: Bytes, head: Bytes, body: Bytes)
    requires pos + 4 <= |stream| && head == stream[pos..pos + 4]
    requires pos + 4 + LengthOf(head) <= |stream| && body == stream[pos + 4..pos + 4 + LengthOf(head)]
    ensures
      var next := pos + 4 + |body|;
      InAll(done, stream, pos, pending)
      == if head[0] == LAST then InAll(done + [pending + body], stream, next, []) else InAll(done, stream, next, pending + body)
  {
    var s := stream[pos..];
    assert s[..4] == head && s[4..4 + |body|] == body && s[4 + |body|..] == stream[pos + 4 + |body|..];
    TakeFrame(s, pending, body);
  }

  // ---------------------------------------------------------------------------
  // Round trip
  // ---------------------------------------------------------------------------

  lemma HeaderLength(kind: Byte, n: nat)
    requires n < LENGTH_LIMIT
    ensures |Header(kind, n)| == 4 && Header(kind, n)[0] == kind && LengthOf(Header(kind, n)) == n
  {
  }

  /** On the wire: the kind, 2 for the last frame of a message and 4 for any other, and the length, highest byte first. */
  lemma FrameOnWire(data: Bytes, size: nat)
    requires size > 0 && data != [] && Fits(data, size)
    ensures
      var f, n := Frames(data, size), Min(|data|, size);
      && |f| >= 4 + n && f[0] == (if |data| <= size then 2 else 4)
      && f[1] as int * 65536 + f[2] as int * 256 + f[3] as int == n
      && f[4..4 + n] == data[..n]
      && (|data| > size ==> f[4 + n..] == Frames(data[n..], size))
      && (|data| <= size ==> |f| == 4 + n)
  {
    HeaderLength(if |data| <= size then LAST else MORE, Min(|data|, size));
  }

  /** Reading one frame off the front of a stream. */
  lemma ReadFrame(kind: Byte, body: Bytes, rest: Bytes, pending: Bytes)
    requires |body| < LENGTH_LIMIT
    ensures Messages(Header(kind, |body|) + body + rest, pending)
         == if kind == LAST then [pending + body] + Messages(rest, []) else Messages(rest, pending + body)
  {
    var head, stream := Header(kind, |body|), Header(kind, |body|) + body + rest;
    HeaderLength(kind, |body|);
    assert stream[..4] == head && stream[0] == kind;
    assert stream[4..4 + |body|] == body && stream[4 + |body|..] == rest;
  }

  /** No frame of the message is longer than a header can say. */
  predicate Fits(data: Bytes, size: nat) {
    Min(|data|, size) < LENGTH_LIMIT
  }

  /** The frames of a non-empty message are read back as that message, whatever follows. */
  lemma {:induction false} ReadMessage(data: Bytes, size: nat, rest: Bytes, pending: Bytes)
    requires size > 0 && data != [] && Fits(data, size)
    ensures Messages(Frames(data, size) + rest, pending) == [pending + data] + Messages(rest, [])
    decreases |data|
  {
    if |data| <= size {
      ReadFrame(LAST, data, rest, pending);
    } else {
      var body, more := data[..size], Frames(data[size..], size);
      assert Frames(data, size) + rest == Header(MORE, size) + body + (more + rest);
      ReadFrame(MORE, body, more + rest, pending);
      ReadMessage(data[size..], size, rest, pending + body);
      assert pending + body + data[size..] == pending + data;
    }
  }

  function FrameAll(msgs: seq<Bytes>, size: nat): Bytes
    requires size > 0
  {
    if msgs == [] then [] else Frames(msgs[0], size) + FrameAll(msgs[1..], size)
  }

  function NonEmpty(msgs: seq<Bytes>): seq<Bytes> {
    if msgs == [] then [] else (if msgs[0] == [] then [] else [msgs[0]]) + NonEmpty(msgs[1..])
  }

  /** Everything comes back, in order, except that an empty message has no frames at all. */
  lemma {:induction false} RoundTrip(msgs: seq<Bytes>, size: nat)
    requires size > 0 && forall i :: 0 <= i < |msgs| ==> Fits(msgs[i], size)
    ensures Messages(FrameAll(msgs, size), []) == NonEmpty(msgs)
    decreases |msgs|
  {
    if msgs != [] {
      RoundTrip(msgs[1..], size);
      if msgs[0] == [] {
        assert Frames(msgs[0], size) + FrameAll(msgs[1..], size) == FrameAll(msgs[1..], size);
      } else {
        ReadMessage(msgs[0], size, FrameAll(msgs[1..], size), []);
        assert [] + msgs[0] == msgs[0];
      }
    }
  }

  lemma {:induction false} NonEmptyIsAllIff(msgs: seq<Bytes>)
    ensures |NonEmpty(msgs)| <= |msgs|
    ensures NonEmpty(msgs) == msgs <==> forall i :: 0 <= i < |msgs| ==> msgs[i] != []
    decreases |msgs|
  {
    if msgs != [] {
      NonEmptyIsAllIff(msgs[1..]);
      assert forall i :: 0 <= i < |msgs[1..]| ==> msgs[1..][i] == msgs[i + 1];
      if msgs[0] != [] {
        assert NonEmpty(msgs)[1..] == NonEmpty(msgs[1..]);
      }
    }
  }

  /**
   * With frames of 5 to 2^24+3 bytes every message fits, whatever its length, and the messages are received exactly
   * as sent if and only if none of them is empty.
   */
  lemma CodecRoundTripIff(msgs: seq<Bytes>, maxFrameSize: int)
    requires 5 <= maxFrameSize <= LENGTH_LIMIT + 3
    ensures Messages(FrameAll(msgs, maxFrameSize - 4), []) == msgs
       <==> forall i :: 0 <= i < |msgs| ==> msgs[i] != []
  {
    RoundTrip(msgs, maxFrameSize - 4);
    NonEmptyIsAllIff(msgs);
  }

  /** With larger frames a message sent in one piece comes back exactly when its length fits 24 bits. */
  lemma LargeFrameRoundTripIff(data: Bytes, size: nat)
    requires size > 0 && data != [] && |data| <= size
    ensures Messages(Frames(data, size), []) == [data] <==> |data| < LENGTH_LIMIT
  {
    if |data| < LENGTH_LIMIT {
      ReadMessage(data, size, [], []);
      assert Frames(data, size) + [] == Frames(data, size) && [] + data == data;
    } else {
      var stream := Frames(data, size);
      var n := LengthOf(stream[..4]);
      assert stream[4..4 + n] == data[..n];
      assert Messages(stream, [])[0] == [] + data[..n];
    }
  }

  /** What has arrived of a stream never yields anything but the first of its messages. */
  lemma {:induction false} PrefixYieldsPrefix(stream: Bytes, cut: nat, pending: Bytes)
    requires cut <= |stream|
    ensures Messages(stream[..cut], pending) <= Messages(stream, pending)
    decreases cut
  {
    if cut >= 4 {
      var part := stream[..cut];
      assert part[..4] == stream[..4];
      var n := LengthOf(stream[..4]);
      if cut >= 4 + n {
        assert part[4..4 + n] == stream[4..4 + n];
        assert part[4 + n..] == stream[4 + n..][..cut - 4 - n];
        PrefixYieldsPrefix(stream[4 + n..], cut - 4 - n, if part[0] == LAST then [] else pending + stream[4..4 + n]);
      }
    }
  }
}
