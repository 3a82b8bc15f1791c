/** Messages and the key that recognises a message seen before (core/Message.go, core/Node.go). */
module Messages {
  import opened Common

  type Int16 = x: int | -0x8000 <= x < 0x8000

  const HEART_BEAT: nat := 0
  const HELLO: nat := 4
  const TOPIC_INIT: nat := 7
  const TOPIC_EXIT: nat := 8
  const TOPIC_SUBSCRIBE_FLOOD: nat := 10
  const RPC_SERVICE_FLOOD: nat := 13
  const RAFT_TOPIC_SUBSCRIBE_FLOOD: nat := 22

  const DEFAULT_MESSAGE_TTL: Int16 := 100

  datatype Message = Message(kind: nat, data: string, from: Id, dst: Id, route: Id, ttl: Int16, lost: bool,
                             versionSeq: nat, lastSender: Id)

  predicate IsFlood(kind: nat) {
    || kind == TOPIC_INIT || kind == TOPIC_EXIT || kind == TOPIC_SUBSCRIBE_FLOOD
    || kind == RPC_SERVICE_FLOOD || kind == RAFT_TOPIC_SUBSCRIBE_FLOOD
  }

  /** Subtracting one from an int16 wraps at the bottom. */
  function Decrement(ttl: Int16): Int16 {
    if ttl == -0x8000 then 0x7FFF else ttl - 1
  }

  function Digit(d: nat): char
    requires d < 10
  {
    '0' + d as char
  }

  /** `%d` of a number that is not negative. */
  function Decimal(n: nat): string {
    if n < 10 then [Digit(n)] else Decimal(n / 10) + [Digit(n % 10)]
  }

  function MsgKey(m: Message): string {
    m.from + "-" + Decimal(m.versionSeq) + "-" + Decimal(m.kind)
  }

  lemma {:induction false} DecimalHasNoDash(n: nat)
    ensures Decimal(n) != [] && '-' !in Decimal(n)
  {
    if n >= 10 {
      DecimalHasNoDash(n / 10);
    }
  }

  lemma {:induction false} DecimalInjective(m: nat, n: nat)
    requires Decimal(m) == Decimal(n)
    ensures m == n
    decreases m
  {
    var x, y := Decimal(m), Decimal(n);
    DecimalHasNoDash(m / 10);
    DecimalHasNoDash(n / 10);
    assert x[|x| - 1] == Digit(m % 10) && y[|y| - 1] == Digit(n % 10);
    if m >= 10 {
      assert n >= 10;
      assert x[..|x| - 1] == Decimal(m / 10) && y[..|y| - 1] == Decimal(n / 10);
      DecimalInjective(m / 10, n / 10);
    }
  }

  lemma TailAt(a: string, x: string, k: nat)
    requires |a| < k <= |a| + |x|
    ensures (a + "-" + x)[k] in x
  {
    assert (a + "-" + x)[k] == x[k - |a| - 1];
  }

  lemma NoDashAfter(a: string, x: string, b: string, y: string)
    requires '-' !in x && a + "-" + x == b + "-" + y
    ensures |b| <= |a|
  {
    if |b| > |a| {
      assert |a| + |x| == |b| + |y|;
      TailAt(a, x, |b|);
      assert false;
    }
  }

  /** The text after the last dash is determined by the whole. */
  lemma LastDashSplits(a: string, x: string, b: string, y: string)
    requires '-' !in x && '-' !in y && a + "-" + x == b + "-" + y
    ensures a == b && x == y
  {
    NoDashAfter(a, x, b, y);
    NoDashAfter(b, y, a, x);
    var s := a + "-" + x;
    assert a == s[..|a|] && b == s[..|b|];
    assert x == s[|a| + 1..] && y == s[|b| + 1..];
  }

  /** Two messages share a key exactly when they agree on origin, version and kind, whatever characters ids contain. */
  lemma MsgKeyInjective(m: Message, n: Message)
    ensures MsgKey(m) == MsgKey(n) <==> m.from == n.from && m.versionSeq == n.versionSeq && m.kind == n.kind
  {
    if MsgKey(m) == MsgKey(n) {
      DecimalHasNoDash(m.kind);
      DecimalHasNoDash(n.kind);
      LastDashSplits(m.from + "-" + Decimal(m.versionSeq), Decimal(m.kind), n.from + "-" + Decimal(n.versionSeq), Decimal(n.kind));
      DecimalInjective(m.kind, n.kind);
      DecimalHasNoDash(m.versionSeq);
      DecimalHasNoDash(n.versionSeq);
      LastDashSplits(m.from, Decimal(m.versionSeq), n.from, Decimal(n.versionSeq));
      DecimalInjective(m.versionSeq, n.versionSeq);
    }
  }
}
