/** What replaying a log a second time (core/KVGroup.go:136-146) does to the order of an OrderedKV list. */
module ReplayOrder {
  import opened Common
  import opened OrderedKVs

  /** The keys of `ks` that are in `keep`, in order. */
  function Within(ks: seq<string>, keep: set<string>): seq<string>
    decreases |ks|
  {
    if ks == [] then []
    else Within(ks[..|ks| - 1], keep) + if ks[|ks| - 1] in keep then [ks[|ks| - 1]] else []
  }

  function Without(ks: seq<string>, drop: set<string>): seq<string>
    decreases |ks|
  {
    if ks == [] then []
    else Without(ks[..|ks| - 1], drop) + if ks[|ks| - 1] in drop then [] else [ks[|ks| - 1]]
  }

  lemma {:induction false} WithoutMember(ks: seq<string>, drop: set<string>, k: string)
    ensures k in Without(ks, drop) <==> k in ks && k !in drop
    decreases |ks|
  {
    if ks != [] {
      WithoutMember(ks[..|ks| - 1], drop, k);
      assert ks == ks[..|ks| - 1] + [ks[|ks| - 1]];
    }
  }

  lemma {:induction false} WithoutAbsent(ks: seq<string>, drop: set<string>)
    requires forall i :: 0 <= i < |ks| ==> ks[i] !in drop
    ensures Without(ks, drop) == ks
    decreases |ks|
  {
    if ks != [] {
      WithoutAbsent(ks[..|ks| - 1], drop);
      assert ks == ks[..|ks| - 1] + [ks[|ks| - 1]];
    }
  }

  lemma {:induction false} WithoutAppend(a: seq<string>, b: seq<string>, drop: set<string>)
    ensures Without(a + b, drop) == Without(a, drop) + Without(b, drop)
    decreases |b|
  {
    if b == [] {
      assert a + b == a;
    } else {
      assert (a + b)[..|a + b| - 1] == a + b[..|b| - 1];
      WithoutAppend(a, b[..|b| - 1], drop);
    }
  }

  lemma WithoutOne(k: string, drop: set<string>)
    ensures Without([k], drop) == if k in drop then [] else [k]
  {
    assert [k][..0] == [];
  }

  lemma {:induction false} WithoutTwice(ks: seq<string>, a: set<string>, b: set<string>)
    ensures Without(Without(ks, a), b) == Without(ks, a + b)
    decreases |ks|
  {
    if ks != [] {
      var front, last := ks[..|ks| - 1], ks[|ks| - 1];
      WithoutTwice(front, a, b);
      WithoutAppend(Without(front, a), if last in a then [] else [last], b);
      WithoutOne(last, b);
    }
  }

  // ---------------------------------------------------------------------------
  // The operations on the order of keys
  // ---------------------------------------------------------------------------

  function KeyOrder(l: KVList): (ks: seq<string>)
    ensures |ks| == |l| && forall i :: 0 <= i < |l| ==> ks[i] == l[i].key
  {
    seq(|l|, i requires 0 <= i < |l| => l[i].key)
  }

  function OrderPerform(ks: seq<string>, e: LogEntry): seq<string> {
    if e.op == "put" then (if e.key in ks then ks else ks + [e.key])
    else if e.op == "delete" then Without(ks, {e.key})
    else ks
  }

  function OrderPerformAll(ks: seq<string>, log: seq<LogEntry>): seq<string>
    decreases |log|
  {
    if log == [] then ks else OrderPerform(OrderPerformAll(ks, log[..|log| - 1]), log[|log| - 1])
  }

  lemma KeyOrderSplice(l: KVList, i: nat)
    requires i < |l|
    ensures KeyOrder(l[..i] + l[i + 1..]) == KeyOrder(l)[..i] + KeyOrder(l)[i + 1..]
  {
  }

  lemma {:induction false} WithoutBetween(a: seq<string>, k: string, b: seq<string>)
    requires forall j :: 0 <= j < |a| ==> a[j] != k
    requires forall j :: 0 <= j < |b| ==> b[j] != k
    ensures Without(a + [k] + b, {k}) == a + b
    decreases |b|
  {
    var ks := a + [k] + b;
    if b == [] {
      assert ks[..|ks| - 1] == a && ks[|ks| - 1] == k;
      WithoutAbsent(a, {k});
    } else {
      var front := b[..|b| - 1];
      assert ks[..|ks| - 1] == a + [k] + front && ks[|ks| - 1] == b[|b| - 1];
      WithoutBetween(a, k, front);
      assert (a + front) + [b[|b| - 1]] == a + b;
    }
  }

  lemma DeleteInOrder(l: KVList, key: string)
    requires NoDuplicates(l)
    ensures KeyOrder(DeleteFrom(l, key)) == Without(KeyOrder(l), {key})
  {
    var i := Position(l, key);
    if i < |l| {
      var ks := KeyOrder(l);
      assert ks == ks[..i] + [key] + ks[i + 1..];
      WithoutBetween(ks[..i], key, ks[i + 1..]);
      KeyOrderSplice(l, i);
    } else {
      WithoutAbsent(KeyOrder(l), {key});
    }
  }

  lemma PerformInOrder(l: KVList, e: LogEntry)
    requires NoDuplicates(l)
    ensures KeyOrder(Perform(l, e)) == OrderPerform(KeyOrder(l), e)
  {
    DeleteInOrder(l, e.key);
    var i := Position(l, e.key);
    assert i < |l| ==> KeyOrder(l)[i] == e.key;
    if e.op == "put" {
      assert KeyOrder(PutIn(l, e.key, e.value)) == OrderPerform(KeyOrder(l), e);
    }
  }

  lemma {:induction false} ListRefinesOrder(l: KVList, log: seq<LogEntry>)
    requires NoDuplicates(l)
    ensures KeyOrder(PerformAll(l, log)) == OrderPerformAll(KeyOrder(l), log)
    decreases |log|
  {
    if log != [] {
      ListRefinesOrder(l, log[..|log| - 1]);
      ListRefinesMap(l, log[..|log| - 1]);
      PerformInOrder(PerformAll(l, log[..|log| - 1]), log[|log| - 1]);
    }
  }

  /** The keys some logged operation deletes. */
  function Deleted(log: seq<LogEntry>): set<string>
    decreases |log|
  {
    if log == [] then {}
    else Deleted(log[..|log| - 1]) + if log[|log| - 1].op == "delete" then {log[|log| - 1].key} else {}
  }

  ghost function SetOf(ks: seq<string>): set<string> {
    set k | k in ks
  }

  /** `stay` in front, and behind it what is in `p` but not in `stay`. */
  ghost function Behind(stay: seq<string>, p: seq<string>): seq<string> {
    stay + Without(p, SetOf(stay))
  }

  lemma PutBehind(stay: seq<string>, p: seq<string>, e: LogEntry)
    requires e.op == "put"
    ensures OrderPerform(Behind(stay, p), e) == Behind(stay, OrderPerform(p, e))
  {
    var k := e.key;
    WithoutMember(p, SetOf(stay), k);
    WithoutAppend(p, [k], SetOf(stay));
    WithoutOne(k, SetOf(stay));
    assert k in Behind(stay, p) <==> k in stay || k in p;
  }

  lemma DeleteBehind(stay: seq<string>, p: seq<string>, k: string)
    ensures Without(Behind(stay, p), {k}) == Behind(Without(stay, {k}), Without(p, {k}))
  {
    var s, stay' := SetOf(stay), Without(stay, {k});
    WithoutAppend(stay, Without(p, s), {k});
    WithoutTwice(p, s, {k});
    WithoutTwice(p, {k}, SetOf(stay'));
    assert s + {k} == {k} + SetOf(stay') by {
      forall x ensures x in SetOf(stay') <==> x in s && x != k {
        WithoutMember(stay, {k}, x);
      }
    }
  }

  /**
   * Performing a log on a list that is not empty: the old keys the log never deletes stay in front, in their order,
   * and behind them come the keys the log leaves when started from nothing, in the order it leaves them.
   */
  lemma {:induction false} OrderAfterLog(ks: seq<string>, log: seq<LogEntry>)
    ensures OrderPerformAll(ks, log) == Behind(Without(ks, Deleted(log)), OrderPerformAll([], log))
    decreases |log|
  {
    if log == [] {
      WithoutAbsent(ks, {});
      assert Without([], SetOf(ks)) == [];
    } else {
      var front, e := log[..|log| - 1], log[|log| - 1];
      OrderAfterLog(ks, front);
      var stay, p := Without(ks, Deleted(front)), OrderPerformAll([], front);
      if e.op == "delete" {
        WithoutTwice(ks, Deleted(front), {e.key});
        DeleteBehind(stay, p, e.key);
      } else if e.op == "put" {
        assert Deleted(log) == Deleted(front);
        PutBehind(stay, p, e);
      } else {
        assert Deleted(log) == Deleted(front);
      }
    }
  }

  // ---------------------------------------------------------------------------
  // When nothing moves
  // ---------------------------------------------------------------------------

  lemma {:induction false} WithoutIsWithin(ks: seq<string>, a: set<string>, b: set<string>)
    requires forall i :: 0 <= i < |ks| ==> (ks[i] in a <==> ks[i] !in b)
    ensures Without(ks, a) == Within(ks, b)
    decreases |ks|
  {
    if ks != [] {
      WithoutIsWithin(ks[..|ks| - 1], a, b);
    }
  }

  /** No key of `d` stands before one that is not. */
  ghost predicate AtTheBack(ks: seq<string>, d: set<string>) {
    forall i, j :: 0 <= i < j < |ks| && ks[i] in d ==> ks[j] in d
  }

  lemma {:induction false} PartitionLengths(ks: seq<string>, d: set<string>)
    ensures |Without(ks, d)| + |Within(ks, d)| == |ks|
    ensures forall k :: k in Within(ks, d) ==> k in ks && k in d
    ensures Within(ks, d) == [] ==> Without(ks, d) == ks
    decreases |ks|
  {
    if ks != [] {
      PartitionLengths(ks[..|ks| - 1], d);
      assert ks == ks[..|ks| - 1] + [ks[|ks| - 1]];
    }
  }

  /** Moving the keys of `d` behind the others changes nothing exactly when they were behind already. */
  lemma {:induction false} PartitionIsIdentityIff(ks: seq<string>, d: set<string>)
    ensures Without(ks, d) + Within(ks, d) == ks <==> AtTheBack(ks, d)
    decreases |ks|
  {
    if ks != [] {
      var front, last := ks[..|ks| - 1], ks[|ks| - 1];
      PartitionIsIdentityIff(front, d);
      assert ks == front + [last];
      if last in d {
        LastJoins(front, last, d);
      } else {
        LastStays(front, last, d);
      }
    }
  }

  lemma LastJoins(front: seq<string>, last: string, d: set<string>)
    requires last in d
    requires Without(front, d) + Within(front, d) == front <==> AtTheBack(front, d)
    ensures
      var ks := front + [last];
      Without(ks, d) + Within(ks, d) == ks <==> AtTheBack(ks, d)
  {
    var ks := front + [last];
    assert ks[..|ks| - 1] == front;
    var other := Without(front, d) + Within(front, d);
    LastMoves(front, last, other);
    assert Without(ks, d) + Within(ks, d) == other + [last];
    AtTheBackSnoc(front, last, d);
  }

  lemma LastMoves(front: seq<string>, last: string, other: seq<string>)
    ensures other + [last] == front + [last] <==> other == front
  {
    if other + [last] == front + [last] {
      assert other == (other + [last])[..|other + [last]| - 1];
      assert front == (front + [last])[..|front + [last]| - 1];
    }
  }

  lemma AtTheBackSnoc(front: seq<string>, last: string, d: set<string>)
    requires last in d
    ensures AtTheBack(front + [last], d) <==> AtTheBack(front, d)
  {
    if AtTheBack(front + [last], d) {
      forall i, j | 0 <= i < j < |front| && front[i] in d ensures front[j] in d {
        assert (front + [last])[i] == front[i] && (front + [last])[j] == front[j];
      }
    }
  }

  /** A key outside `d` at the very end stays there only if there is nothing of `d` at all. */
  lemma LastStays(front: seq<string>, last: string, d: set<string>)
    requires last !in d
    ensures
      var ks := front + [last];
      Without(ks, d) + Within(ks, d) == ks <==> AtTheBack(ks, d)
  {
    var ks := front + [last];
    assert ks[..|ks| - 1] == front;
    PartitionLengths(front, d);
    var a, b := Without(front, d), Within(front, d);
    if b == [] {
      assert Without(ks, d) + Within(ks, d) == ks;
      forall i | 0 <= i < |ks| ensures ks[i] !in d {
        if i < |front| {
          NoneWithin(front, d, i);
        }
      }
    } else {
      var k := b[|b| - 1];
      assert (a + [last] + b)[|ks| - 1] == k && k in d;
      var i :| 0 <= i < |front| && front[i] == k;
      assert ks[i] in d && ks[|ks| - 1] !in d;
    }
  }

  lemma {:induction false} NoneWithin(ks: seq<string>, d: set<string>, i: nat)
    requires Within(ks, d) == [] && i < |ks|
    ensures ks[i] !in d
    decreases |ks|
  {
    if i < |ks| - 1 {
      NoneWithin(ks[..|ks| - 1], d, i);
    }
  }

  lemma SameOrderAndMap(a: KVList, b: KVList)
    requires NoDuplicates(a) && NoDuplicates(b)
    requires KeyOrder(a) == KeyOrder(b) && AsMap(a) == AsMap(b)
    ensures a == b
  {
    assert |a| == |KeyOrder(a)| == |KeyOrder(b)| == |b|;
    forall i | 0 <= i < |a| ensures a[i] == b[i] {
      assert a[i].key == KeyOrder(a)[i] == KeyOrder(b)[i] == b[i].key;
      AsMapAt(a, a[i].key);
      AsMapAt(b, b[i].key);
    }
  }

  lemma OrderOfSecondReplay(log: seq<LogEntry>)
    ensures
      var l, d := PerformAll([], log), Deleted(log);
      KeyOrder(PerformAll(l, log)) == Without(KeyOrder(l), d) + Within(KeyOrder(l), d)
  {
    var l, d := PerformAll([], log), Deleted(log);
    var ks := KeyOrder(l);
    ListRefinesMap([], log);
    ListRefinesOrder([], log);
    ListRefinesOrder(l, log);
    assert KeyOrder([]) == [];
    OrderAfterLog(ks, log);
    var stay := Without(ks, d);
    forall i | 0 <= i < |ks| ensures ks[i] in SetOf(stay) <==> ks[i] !in d {
      WithoutMember(ks, d, ks[i]);
    }
    WithoutIsWithin(ks, SetOf(stay), d);
  }

  /**
   * A second replay keeps the map (ReplayAgainSameMap) but not always the order: it leaves the list as it was exactly
   * when no key that the log deletes somewhere stands before one it never deletes.
   */
  lemma ReplayAgainSameOrderIff(log: seq<LogEntry>)
    ensures
      var l := PerformAll([], log);
      PerformAll(l, log) == l <==> AtTheBack(KeyOrder(l), Deleted(log))
  {
    var l := PerformAll([], log);
    OrderOfSecondReplay(log);
    PartitionIsIdentityIff(KeyOrder(l), Deleted(log));
    ReplayAgainSameMap(log);
    ListRefinesMap([], log);
    ListRefinesMap(l, log);
    if AtTheBack(KeyOrder(l), Deleted(log)) {
      SameOrderAndMap(PerformAll(l, log), l);
    }
  }

  lemma FourOperations(a: LogEntry, b: LogEntry, c: LogEntry, d: LogEntry)
    ensures PerformAll([], [a, b, c, d]) == Perform(Perform(Perform(Perform([], a), b), c), d)
    ensures Deleted([a, b, c, d]) == OneDeleted(a) + OneDeleted(b) + OneDeleted(c) + OneDeleted(d)
  {
    OneMore([], a);
    OneMore([] + [a], b);
    OneMore([] + [a] + [b], c);
    OneMore([] + [a] + [b] + [c], d);
    assert [] + [a] + [b] + [c] + [d] == [a, b, c, d];
  }

  lemma OneMore(log: seq<LogEntry>, e: LogEntry)
    ensures PerformAll([], log + [e]) == Perform(PerformAll([], log), e)
    ensures Deleted(log + [e]) == Deleted(log) + OneDeleted(e)
  {
    assert (log + [e])[..|log|] == log;
  }

  function OneDeleted(e: LogEntry): set<string> {
    if e.op == "delete" then {e.key} else {}
  }

  /** Put `a`, delete it, put it again, put `b`: the first replay leaves `a` before `b`, the second `b` before `a`. */
  lemma SecondReplayReorders(a: string, b: string, v: string, w: string)
    requires a != b
    ensures
      var log := [LogEntry(1, 1, "put", a, v), LogEntry(2, 1, "delete", a, ""), LogEntry(3, 1, "put", a, v),
                  LogEntry(4, 1, "put", b, w)];
      var l := PerformAll([], log);
      l == [KVEntry(a, v), KVEntry(b, w)] && PerformAll(l, log) != l
  {
    var e1, e2, e3, e4 := LogEntry(1, 1, "put", a, v), LogEntry(2, 1, "delete", a, ""), LogEntry(3, 1, "put", a, v),
                          LogEntry(4, 1, "put", b, w);
    var log, l := [e1, e2, e3, e4], [KVEntry(a, v), KVEntry(b, w)];
    FourOperations(e1, e2, e3, e4);
    assert Position([KVEntry(a, v)], a) == 0;
    assert Perform([KVEntry(a, v)], e2) == [];
    assert Position([KVEntry(a, v)], b) == 1;
    ReplayAgainSameOrderIff(log);
    assert KeyOrder(l)[0] == a && KeyOrder(l)[1] == b;
    assert a in Deleted(log) && b !in Deleted(log);
  }
}
