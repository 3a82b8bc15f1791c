/**
 * What core nodes and learners do with their log: taking in the entries of an AppendEntries message, and
 * applying committed entries to the stored key-value state.
 */
module RaftLog {
  import opened Common
  import opened RaftTypes

  /** The in-memory log next to the stored one. */
  datatype LogPair = LogPair(mem: Log, stored: map<nat, Entry>)

  /**
   * One turn of the loop over `payload.Entries`. A learner also deletes the stored suffix when it truncates
   * (`purge`); a core node leaves it on disk.
   */
  function AbsorbOne(p: LogPair, e: Entry, purge: bool): LogPair
    requires 1 <= e.index <= |p.mem| + 1
  {
    var k := e.index - 1;
    var q :=
      if k < |p.mem| && p.mem[k].term != e.term
      then LogPair(p.mem[..k], if purge then DeletedFrom(p.stored, e.index) else p.stored)
      else p;
    if |q.mem| < e.index then LogPair(q.mem + [e], q.stored[e.index := e]) else q
  }

  ghost predicate Follows(entries: seq<Entry>, prev: int) {
    forall i :: 0 <= i < |entries| ==> entries[i].index == prev + 1 + i
  }

  function Absorb(p: LogPair, entries: seq<Entry>, ghost prev: int, purge: bool): LogPair
    requires entries != [] ==> 0 <= prev <= |p.mem|
    requires Follows(entries, prev)
    decreases |entries|
  {
    if entries == [] then p
    else Absorb(AbsorbOne(p, entries[0], purge), entries[1..], prev + 1, purge)
  }

  /** Where the run of `term` that ends at index `i` begins. */
  function ConflictStart(log: Log, i: int, term: int): (r: int)
    requires 1 <= i <= |log|
    ensures 1 <= r <= i
    ensures forall j :: r - 1 <= j < i - 1 ==> log[j].term == term
    ensures r > 1 ==> log[r - 2].term != term
    decreases i
  {
    if i > 1 && log[i - 2].term == term then ConflictStart(log, i - 1, term) else i
  }

  /** The loop that looks for it. */
  method FindConflictStart(log: Log, i: int, term: int) returns (r: int)
    requires 1 <= i <= |log|
    ensures r == ConflictStart(log, i, term)
  {
    r := i;
    while r > 1 && log[r - 2].term == term
      invariant 1 <= r <= i
      invariant ConflictStart(log, r, term) == ConflictStart(log, i, term)
    {
      r := r - 1;
    }
  }

  /** The effect of one command on the stored key-value state. */
  function ApplyCommand(state: map<string, string>, c: Command): map<string, string> {
    match c.op
    case PutOp => state[c.key := c.value]
    case DelOp => state - {c.key}
    case _ => state
  }

  predicate Writes(c: Command) {
    c.op == PutOp || c.op == DelOp
  }

  function ApplyEntries(state: map<string, string>, entries: seq<Entry>): map<string, string>
    decreases |entries|
  {
    if entries == [] then state
    else ApplyEntries(ApplyCommand(state, entries[0].command), entries[1..])
  }

  lemma {:induction false} ApplyEntriesAppend(state: map<string, string>, a: seq<Entry>, b: seq<Entry>)
    ensures ApplyEntries(state, a + b) == ApplyEntries(ApplyEntries(state, a), b)
    decreases |a|
  {
    if a == [] {
      assert a + b == b;
    } else {
      assert (a + b)[1..] == a[1..] + b;
      ApplyEntriesAppend(ApplyCommand(state, a[0].command), a[1..], b);
    }
  }

  // ---------------------------------------------------------------------------
  // What a batch leaves at a key
  // ---------------------------------------------------------------------------

  ghost predicate WritesKey(e: Entry, k: string) {
    (e.command.op == PutOp || e.command.op == DelOp) && e.command.key == k
  }

  ghost predicate Unwritten(entries: seq<Entry>, k: string) {
    forall i :: 0 <= i < |entries| ==> !WritesKey(entries[i], k)
  }

  /** Entry `i` is the last one to write `k`. */
  ghost predicate LastWrite(entries: seq<Entry>, k: string, i: nat) {
    i < |entries| && WritesKey(entries[i], k) && Unwritten(entries[i + 1..], k)
  }

  lemma {:induction false} UnwrittenStays(state: map<string, string>, entries: seq<Entry>, k: string)
    requires Unwritten(entries, k)
    ensures SameAt(ApplyEntries(state, entries), state, k)
    decreases |entries|
  {
    if entries != [] {
      assert !WritesKey(entries[0], k);
      assert forall i :: 0 <= i < |entries[1..]| ==> entries[1..][i] == entries[i + 1];
      UnwrittenStays(ApplyCommand(state, entries[0].command), entries[1..], k);
    }
  }

  lemma {:induction false} UnwrittenOrLast(entries: seq<Entry>, k: string) returns (i: nat)
    ensures i <= |entries|
    ensures if i < |entries| then LastWrite(entries, k, i) else Unwritten(entries, k)
    decreases |entries|
  {
    if entries == [] {
      i := 0;
    } else {
      var rest := entries[1..];
      i := UnwrittenOrLast(rest, k);
      if i < |rest| || !WritesKey(entries[0], k) {
        assert entries[i + 1..] == rest[i..] || i == |rest|;
        i := i + 1;
        if i < |entries| {
          assert entries[i + 1..] == rest[i..];
        } else {
          assert forall j :: 0 < j < |entries| ==> entries[j] == rest[j - 1];
        }
      } else {
        i := 0;
      }
    }
  }

  /** The last entry that writes a key decides what is there: the value of a put, nothing after a delete. */
  lemma LastWriteDecides(state: map<string, string>, entries: seq<Entry>, k: string, i: nat)
    requires LastWrite(entries, k, i)
    ensures k in ApplyEntries(state, entries) <==> entries[i].command.op == PutOp
    ensures entries[i].command.op == PutOp ==> ApplyEntries(state, entries)[k] == entries[i].command.value
  {
    var before, rest := ApplyEntries(state, entries[..i]), entries[i..];
    assert entries == entries[..i] + rest && rest[0] == entries[i] && rest[1..] == entries[i + 1..];
    ApplyEntriesAppend(state, entries[..i], rest);
    UnwrittenStays(ApplyCommand(before, entries[i].command), entries[i + 1..], k);
  }

  /** The state after a batch, key by key: that of the last writer if there is one, and the old one otherwise. */
  ghost predicate IsResult(state: map<string, string>, entries: seq<Entry>, result: map<string, string>) {
    && (forall k, i: nat :: LastWrite(entries, k, i) ==>
          && (k in result <==> entries[i].command.op == PutOp)
          && (k in result ==> result[k] == entries[i].command.value))
    && (forall k :: Unwritten(entries, k) ==> (k in result <==> k in state) && (k in result ==> result[k] == state[k]))
  }

  /** There is one such state, and applying gives it. */
  lemma AppliedIffResult(state: map<string, string>, entries: seq<Entry>, result: map<string, string>)
    ensures result == ApplyEntries(state, entries) <==> IsResult(state, entries, result)
  {
    var r := ApplyEntries(state, entries);
    forall k, i: nat | LastWrite(entries, k, i)
      ensures (k in r <==> entries[i].command.op == PutOp) && (k in r ==> r[k] == entries[i].command.value)
    {
      LastWriteDecides(state, entries, k, i);
    }
    forall k | Unwritten(entries, k) ensures SameAt(r, state, k) {
      UnwrittenStays(state, entries, k);
    }
    if IsResult(state, entries, result) {
      forall k ensures SameAt(result, r, k) {
        var i := UnwrittenOrLast(entries, k);
      }
      assert result.Keys == r.Keys by {
        forall k ensures k in result <==> k in r {
          assert SameAt(result, r, k);
        }
      }
      forall k | k in r ensures result[k] == r[k] {
        assert SameAt(result, r, k);
      }
    }
  }

  /** The last turn of the loop. */
  lemma {:induction false} AbsorbLast(p: LogPair, entries: seq<Entry>, last: Entry, prev: int, purge: bool)
    requires 0 <= prev <= |p.mem| && Follows(entries, prev) && last.index == prev + 1 + |entries|
    ensures |Absorb(p, entries, prev, purge).mem| >= prev + |entries| && Follows(entries + [last], prev)
    ensures Absorb(p, entries + [last], prev, purge) == AbsorbOne(Absorb(p, entries, prev, purge), last, purge)
    decreases |entries|
  {
    if entries == [] {
      assert ([] + [last])[1..] == [];
    } else {
      assert (entries + [last])[1..] == entries[1..] + [last];
      AbsorbLast(AbsorbOne(p, entries[0], purge), entries[1..], last, prev + 1, purge);
    }
  }

  // ---------------------------------------------------------------------------
  // Absorbing a piece of another log
  // ---------------------------------------------------------------------------

  /** Two logs agree up to and including every position where their terms agree. */
  ghost predicate Matching(a: Log, b: Log) {
    forall i :: 0 <= i < |a| && i < |b| && a[i].term == b[i].term ==> a[..i + 1] == b[..i + 1]
  }

  lemma AbsorbOneOfSlice(p: LogPair, c: Log, prev: nat, purge: bool)
    requires prev < |c| && prev <= |p.mem| && c[prev].index == prev + 1
    requires p.mem[..prev] == c[..prev] && Matching(p.mem, c)
    ensures
      var q := AbsorbOne(p, c[prev], purge);
      && q.mem == (if prev < |p.mem| && p.mem[prev].term == c[prev].term then p.mem else c[..prev + 1])
      && q.mem[..prev + 1] == c[..prev + 1] && Matching(q.mem, c)
  {
    assert c[..prev + 1] == c[..prev] + [c[prev]];
    PrefixMatches(c, prev + 1);
  }

  /**
   * Absorbing the slice `c[prev..end]` of a matching log, starting where both agree: either everything was there
   * already and the log stays, or the log becomes exactly `c[..end]`.
   */
  lemma {:induction false} AbsorbSlice(p: LogPair, c: Log, prev: nat, end: nat, purge: bool)
    requires prev <= end <= |c| && prev <= |p.mem|
    requires WellIndexed(c)
    requires p.mem[..prev] == c[..prev]
    requires Matching(p.mem, c)
    ensures Follows(c[prev..end], prev)
    ensures Absorb(p, c[prev..end], prev, purge).mem == if c[..end] <= p.mem then p.mem else c[..end]
    decreases end - prev
  {
    if prev < end {
      assert c[prev..end][0] == c[prev] && c[prev..end][1..] == c[prev + 1..end];
      AbsorbOneOfSlice(p, c, prev, purge);
      AbsorbSlice(AbsorbOne(p, c[prev], purge), c, prev + 1, end, purge);
      assert c[..end][prev] == c[prev];
    } else {
      assert c[prev..end] == [];
      assert c[..end] <= p.mem;
    }
  }

  lemma PrefixMatches(c: Log, n: nat)
    requires n <= |c|
    ensures Matching(c[..n], c)
  {
    forall i | 0 <= i < |c[..n]| && i < |c| && c[..n][i].term == c[i].term
      ensures c[..n][..i + 1] == c[..i + 1]
    {
    }
  }

  // ---------------------------------------------------------------------------
  // Memory and disk
  // ---------------------------------------------------------------------------

  /** The stored log is the in-memory log. */
  ghost predicate InStep(p: LogPair) {
    WellIndexed(p.mem) && p.stored == LogMap(p.mem)
  }

  lemma TruncateInStep(p: LogPair, i: int)
    requires InStep(p) && 1 <= i <= |p.mem|
    ensures InStep(LogPair(p.mem[..i - 1], DeletedFrom(p.stored, i)))
  {
    assert DeletedFrom(p.stored, i) == LogMap(p.mem[..i - 1]);
  }

  lemma AbsorbOneInStep(p: LogPair, e: Entry)
    requires InStep(p) && 1 <= e.index <= |p.mem| + 1
    ensures InStep(AbsorbOne(p, e, true))
  {
    if e.index <= |p.mem| && p.mem[e.index - 1].term != e.term {
      TruncateInStep(p, e.index);
      AppendInStep(LogPair(p.mem[..e.index - 1], DeletedFrom(p.stored, e.index)), e);
    } else if e.index == |p.mem| + 1 {
      AppendInStep(p, e);
    }
  }

  lemma AppendInStep(p: LogPair, e: Entry)
    requires InStep(p) && e.index == |p.mem| + 1
    ensures InStep(LogPair(p.mem + [e], p.stored[e.index := e]))
  {
    assert (p.mem + [e])[..|p.mem|] == p.mem;
  }

  lemma {:induction false} AbsorbInStep(p: LogPair, entries: seq<Entry>, prev: int)
    requires InStep(p)
    requires entries != [] ==> 0 <= prev <= |p.mem|
    requires Follows(entries, prev)
    ensures InStep(Absorb(p, entries, prev, true))
    decreases |entries|
  {
    if entries != [] {
      AbsorbOneInStep(p, entries[0]);
      AbsorbInStep(AbsorbOne(p, entries[0], true), entries[1..], prev + 1);
    }
  }

  /** The log begins with `prev` old entries and then the new ones, or it already had them all. */
  lemma {:induction false} AbsorbShape(p: LogPair, entries: seq<Entry>, prev: int, purge: bool)
    requires WellIndexed(p.mem)
    requires entries != [] ==> 0 <= prev <= |p.mem|
    requires Follows(entries, prev)
    ensures
      var q := Absorb(p, entries, prev, purge);
      && WellIndexed(q.mem)
      && (entries != [] ==> |q.mem| >= prev + |entries| && q.mem[..prev] == p.mem[..prev])
      && (forall i :: 0 <= i < |entries| ==> q.mem[prev + i].term == entries[i].term)
      && (q.mem == p.mem || |q.mem| == prev + |entries|)
    decreases |entries|
  {
    if entries != [] {
      var p1 := AbsorbOne(p, entries[0], purge);
      var q := Absorb(p, entries, prev, purge);
      AbsorbShape(p1, entries[1..], prev + 1, purge);
      assert p1.mem[..prev] == p.mem[..prev];
      assert q.mem[..prev] == p.mem[..prev] by {
        if |entries| > 1 {
          assert q.mem[..prev] == q.mem[..prev + 1][..prev] == p1.mem[..prev + 1][..prev];
        }
      }
      assert q.mem[prev].term == entries[0].term by {
        assert p1.mem[prev].term == entries[0].term;
        if |entries| > 1 {
          assert q.mem[..prev + 1][prev] == p1.mem[..prev + 1][prev];
        }
      }
      forall i | 0 <= i < |entries|
        ensures q.mem[prev + i].term == entries[i].term
      {
        if i > 0 {
          assert entries[1..][i - 1] == entries[i];
        }
      }
    }
  }

  /** Entries that are all there already change nothing. */
  lemma {:induction false} AbsorbKnown(p: LogPair, entries: seq<Entry>, prev: int, purge: bool)
    requires entries != [] ==> 0 <= prev && prev + |entries| <= |p.mem|
    requires Follows(entries, prev)
    requires forall i :: 0 <= i < |entries| ==> p.mem[prev + i].term == entries[i].term
    ensures Absorb(p, entries, prev, purge) == p
    decreases |entries|
  {
    if entries != [] {
      assert p.mem[prev + 0].term == entries[0].term;
      assert AbsorbOne(p, entries[0], purge) == p;
      forall i | 0 <= i < |entries[1..]|
        ensures p.mem[prev + 1 + i].term == entries[1..][i].term
      {
        assert p.mem[prev + (i + 1)].term == entries[i + 1].term;
      }
      AbsorbKnown(p, entries[1..], prev + 1, purge);
    }
  }

  /** The first `d` entries of the message are in the log already, by index and term, and the next one is not. */
  ghost predicate KnownUpTo(log: Log, entries: seq<Entry>, prev: nat, d: nat) {
    && d <= |entries| && prev + d <= |log|
    && (forall i :: 0 <= i < d ==> log[prev + i].term == entries[i].term)
    && (d < |entries| ==> prev + d >= |log| || log[prev + d].term != entries[d].term)
  }

  lemma {:induction false} KnownUpToExists(log: Log, entries: seq<Entry>, prev: nat, from: nat) returns (d: nat)
    requires from <= |entries| && prev + from <= |log|
    requires forall i :: 0 <= i < from ==> log[prev + i].term == entries[i].term
    ensures KnownUpTo(log, entries, prev, d)
    decreases |entries| - from
  {
    if from < |entries| && prev + from < |log| && log[prev + from].term == entries[from].term {
      d := KnownUpToExists(log, entries, prev, from + 1);
    } else {
      d := from;
    }
  }

  /** What the log becomes: nothing changes if all is known, otherwise the message replaces everything from the first new entry on. */
  ghost predicate IsMerged(log: Log, entries: seq<Entry>, prev: nat, d: nat, merged: Log)
    requires KnownUpTo(log, entries, prev, d)
  {
    if d == |entries| then merged == log
    else merged == log[..prev + d] + entries[d..]
  }

  lemma AbsorbOneNew(p: LogPair, e: Entry, purge: bool)
    requires 1 <= e.index <= |p.mem| + 1
    requires e.index <= |p.mem| ==> p.mem[e.index - 1].term != e.term
    ensures AbsorbOne(p, e, purge).mem == p.mem[..e.index - 1] + [e]
    ensures !purge ==> AbsorbOne(p, e, purge).stored == p.stored[e.index := e]
  {
  }

  lemma {:induction false} AbsorbMerges(p: LogPair, entries: seq<Entry>, prev: nat, d: nat, purge: bool)
    requires prev <= |p.mem| && Follows(entries, prev) && KnownUpTo(p.mem, entries, prev, d)
    ensures IsMerged(p.mem, entries, prev, d, Absorb(p, entries, prev, purge).mem)
    decreases |entries|
  {
    if d > 0 {
      var rest := entries[1..];
      assert p.mem[prev + 0].term == entries[0].term;
      assert AbsorbOne(p, entries[0], purge) == p;
      KnownRest(p.mem, entries, prev, d);
      AbsorbMerges(p, rest, prev + 1, d - 1, purge);
      assert rest[d - 1..] == entries[d..];
    } else if entries != [] {
      AbsorbOneNew(p, entries[0], purge);
      AllNewMerges(AbsorbOne(p, entries[0], purge), entries[1..], prev + 1, purge);
      assert p.mem[..prev] + entries == p.mem[..prev] + [entries[0]] + entries[1..];
      assert entries[0..] == entries;
    }
  }

  lemma KnownRest(log: Log, entries: seq<Entry>, prev: nat, d: nat)
    requires KnownUpTo(log, entries, prev, d) && d > 0
    ensures KnownUpTo(log, entries[1..], prev + 1, d - 1)
  {
    forall i | 0 <= i < d - 1 ensures log[prev + 1 + i].term == entries[1..][i].term {
      assert log[prev + (i + 1)].term == entries[i + 1].term;
    }
  }

  /** Entries right behind the end of the log are appended. */
  lemma {:induction false} AllNewMerges(p: LogPair, entries: seq<Entry>, prev: nat, purge: bool)
    requires prev == |p.mem| && Follows(entries, prev)
    ensures Absorb(p, entries, prev, purge).mem == p.mem + entries
    decreases |entries|
  {
    if entries == [] {
      assert p.mem + entries == p.mem;
    } else {
      AllNewMerges(AbsorbOne(p, entries[0], purge), entries[1..], prev + 1, purge);
      assert p.mem + entries == p.mem + [entries[0]] + entries[1..];
    }
  }

  /** At index `k` the store has the entry of the message from the `d`-th on, and what it had for every other index. */
  ghost predicate StoredAt(stored: map<nat, Entry>, before: map<nat, Entry>, entries: seq<Entry>, prev: nat, d: nat, k: nat) {
    if prev + d < k <= prev + |entries| then k in stored && stored[k] == entries[k - prev - 1]
    else (k in stored <==> k in before) && (k in stored ==> stored[k] == before[k])
  }

  lemma {:induction false} AllNewStores(p: LogPair, entries: seq<Entry>, prev: nat, k: nat)
    requires prev == |p.mem| && Follows(entries, prev)
    ensures StoredAt(Absorb(p, entries, prev, false).stored, p.stored, entries, prev, 0, k)
    decreases |entries|
  {
    if entries != [] {
      AbsorbOneNew(p, entries[0], false);
      AllNewStores(AbsorbOne(p, entries[0], false), entries[1..], prev + 1, k);
    }
  }

  /** What a core node's store becomes. */
  lemma {:induction false} AbsorbStores(p: LogPair, entries: seq<Entry>, prev: nat, d: nat, k: nat)
    requires prev <= |p.mem| && Follows(entries, prev) && KnownUpTo(p.mem, entries, prev, d)
    ensures StoredAt(Absorb(p, entries, prev, false).stored, p.stored, entries, prev, d, k)
    decreases |entries|
  {
    if d > 0 {
      assert p.mem[prev + 0].term == entries[0].term;
      assert AbsorbOne(p, entries[0], false) == p;
      KnownRest(p.mem, entries, prev, d);
      AbsorbStores(p, entries[1..], prev + 1, d - 1, k);
    } else if entries != [] {
      AbsorbOneNew(p, entries[0], false);
      AllNewStores(AbsorbOne(p, entries[0], false), entries[1..], prev + 1, k);
    }
  }

  /** The stored log reaches up to index `n`, at least as far as the in-memory one, and agrees with it that far. */
  ghost predicate StoredCovers(p: LogPair, n: nat) {
    && WellIndexed(p.mem)
    && n >= |p.mem| && Dense(p.stored, n)
    && (forall k: nat :: 1 <= k <= |p.mem| ==> p.stored[k] == p.mem[k - 1])
  }

  lemma AbsorbOneCovers(p: LogPair, e: Entry, n: nat)
    requires StoredCovers(p, n) && 1 <= e.index <= |p.mem| + 1
    ensures var q := AbsorbOne(p, e, false); StoredCovers(q, Max(n, |q.mem|))
  {
  }

  lemma {:induction false} AbsorbCovers(p: LogPair, entries: seq<Entry>, prev: int, n: nat)
    requires StoredCovers(p, n)
    requires entries != [] ==> 0 <= prev <= |p.mem|
    requires Follows(entries, prev)
    ensures var q := Absorb(p, entries, prev, false); StoredCovers(q, Max(n, |q.mem|))
    decreases |entries|
  {
    if entries != [] {
      var p1 := AbsorbOne(p, entries[0], false);
      var n1 := Max(n, |p1.mem|);
      AbsorbOneCovers(p, entries[0], n);
      AbsorbCovers(p1, entries[1..], prev + 1, n1);
      AbsorbShape(p1, entries[1..], prev + 1, false);
    }
  }

  lemma CoversInStep(p: LogPair, n: nat)
    requires StoredCovers(p, n)
    ensures InStep(p) <==> n == |p.mem|
  {
    if n == |p.mem| {
      assert p.stored == LogMap(p.mem);
    } else {
      assert n in p.stored && n !in LogMap(p.mem);
    }
  }

  lemma CoversLoad(p: LogPair, n: nat)
    requires StoredCovers(p, n)
    ensures Load(p.stored) == p.mem <==> InStep(p)
  {
    LoadDense(p.stored, n);
    CoversInStep(p, n);
    LoadGivesLogBack(p.mem);
  }

  /** Every entry of the message is in the log already, by index and term. */
  ghost predicate AllKnown(log: Log, entries: seq<Entry>, prev: int)
    requires entries != [] ==> prev >= 0
  {
    entries != [] ==>
      prev + |entries| <= |log| && forall i :: 0 <= i < |entries| ==> log[prev + i].term == entries[i].term
  }

  lemma AbsorbNew(p: LogPair, entries: seq<Entry>, prev: int, purge: bool)
    requires WellIndexed(p.mem) && entries != [] && 0 <= prev <= |p.mem|
    requires Follows(entries, prev) && !AllKnown(p.mem, entries, prev)
    ensures |Absorb(p, entries, prev, purge).mem| == prev + |entries|
  {
    var q := Absorb(p, entries, prev, purge);
    AbsorbShape(p, entries, prev, purge);
    if q.mem == p.mem {
      assert AllKnown(q.mem, entries, prev);
    }
  }

  lemma AbsorbLength(p: LogPair, entries: seq<Entry>, prev: int, purge: bool)
    requires WellIndexed(p.mem)
    requires entries != [] ==> 0 <= prev <= |p.mem|
    requires Follows(entries, prev)
    ensures |Absorb(p, entries, prev, purge).mem| == if AllKnown(p.mem, entries, prev) then |p.mem| else prev + |entries|
  {
    if AllKnown(p.mem, entries, prev) {
      AbsorbKnown(p, entries, prev, purge);
    } else {
      AbsorbNew(p, entries, prev, purge);
    }
  }

  /**
   * A core node truncates in memory only (core/Raft.go:543-545). `n` is the last index stored, in every reachable
   * state at least the length of the log. After the message a restart reads back the log in memory exactly when that
   * log reaches up to index `n`, or beyond: with nothing new it keeps its length, otherwise it ends where the message does.
   */
  lemma CoreReloadsItsLogIff(p: LogPair, entries: seq<Entry>, prev: int, n: nat)
    requires StoredCovers(p, n)
    requires entries != [] ==> 0 <= prev <= |p.mem|
    requires Follows(entries, prev)
    ensures
      var q := Absorb(p, entries, prev, false);
      Load(q.stored) == q.mem <==> n <= if AllKnown(p.mem, entries, prev) then |p.mem| else prev + |entries|
  {
    var q := Absorb(p, entries, prev, false);
    AbsorbCovers(p, entries, prev, n);
    AbsorbLength(p, entries, prev, false);
    CoversInStep(q, Max(n, |q.mem|));
    CoversLoad(q, Max(n, |q.mem|));
  }

  lemma OverwriteStored(log: Log, e: Entry)
    requires 1 <= e.index <= |log|
    ensures LogMap(log)[e.index := e] == LogMap(log[e.index - 1 := e])
  {
  }

  /** One conflicting entry, and the suffix it cut off in memory is read back for good: a heartbeat does not mend it. */
  lemma TruncatedSuffixReturns(x: Entry, y: Entry, z: Entry, e: Entry)
    requires x.index == 1 && y.index == 2 && z.index == 3 && e.index == 2 && e.term != y.term
    ensures
      var mem := [x, y, z];
      var p := LogPair(mem, LogMap(mem));
      && InStep(p) && Follows([e], 1) && Follows([], 2)
      && var q := Absorb(p, [e], 1, false);
      q.mem == [x, e] && Load(q.stored) == [x, e, z] && Absorb(q, [], 2, false) == q
  {
    var mem := [x, y, z];
    assert mem[..1] + [e] == [x, e] && mem[1 := e] == [x, e, z];
    AbsorbSingle(LogPair(mem, LogMap(mem)), e, false);
    OverwriteStored(mem, e);
    LoadGivesLogBack([x, e, z]);
  }

  lemma AbsorbSingle(p: LogPair, e: Entry, purge: bool)
    requires 1 <= e.index <= |p.mem| + 1
    ensures Follows([e], e.index - 1) && Absorb(p, [e], e.index - 1, purge) == AbsorbOne(p, e, purge)
  {
    var rest := [e][1..];
    assert rest == [];
  }
}
