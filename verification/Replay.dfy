/**
 * Re-applying a log after a crash: the metadata on disk may be older than the key-value state, and the last writer
 * of every key decides whether that shows.
 */
module Replay {
  import opened Common
  import opened RaftTypes
  import opened RaftLog
  import L = LearnerNode
  import N = RaftNode

  /** The keys some entry puts or deletes. */
  function Touched(entries: seq<Entry>): set<string> {
    if entries == [] then {}
    else Touched(entries[1..]) + if Writes(entries[0].command) then {entries[0].command.key} else {}
  }

  /** Both stores agree on every key outside `keys`. */
  ghost predicate AgreeOff(a: map<string, string>, b: map<string, string>, keys: set<string>) {
    forall k :: k !in keys ==> SameAt(a, b, k)
  }

  lemma {:induction false} UntouchedKept(a: map<string, string>, entries: seq<Entry>)
    ensures AgreeOff(a, ApplyEntries(a, entries), Touched(entries))
    decreases |entries|
  {
    if entries != [] {
      UntouchedKept(ApplyCommand(a, entries[0].command), entries[1..]);
    }
  }

  /** What a batch leaves at the keys it writes does not depend on the store it started from. */
  lemma {:induction false} TouchedDecided(a: map<string, string>, b: map<string, string>, entries: seq<Entry>, k: string)
    ensures k in Touched(entries) || SameAt(a, b, k)
       ==> SameAt(ApplyEntries(a, entries), ApplyEntries(b, entries), k)
    decreases |entries|
  {
    if entries != [] {
      var c := entries[0].command;
      TouchedDecided(ApplyCommand(a, c), ApplyCommand(b, c), entries[1..], k);
    }
  }

  /** Two stores end up equal after the same batch exactly when they agreed on everything the batch does not write. */
  lemma ReplayMergesIff(a: map<string, string>, b: map<string, string>, entries: seq<Entry>)
    ensures ApplyEntries(a, entries) == ApplyEntries(b, entries) <==> AgreeOff(a, b, Touched(entries))
  {
    var a', b' := ApplyEntries(a, entries), ApplyEntries(b, entries);
    UntouchedKept(a, entries);
    UntouchedKept(b, entries);
    if AgreeOff(a, b, Touched(entries)) {
      forall k ensures SameAt(a', b', k) {
        TouchedDecided(a, b, entries, k);
      }
      SameEverywhere(a', b');
    }
    if a' == b' {
      forall k | k !in Touched(entries) ensures SameAt(a, b, k) {
        assert SameAt(a, a', k) && SameAt(b, b', k);
      }
    }
  }

  lemma SameEverywhere(a: map<string, string>, b: map<string, string>)
    requires forall k :: SameAt(a, b, k)
    ensures a == b
  {
    forall k ensures k in a <==> k in b {
      assert SameAt(a, b, k);
    }
    forall k | k in a ensures a[k] == b[k] {
      assert SameAt(a, b, k);
    }
  }

  // ---------------------------------------------------------------------------
  // Crashes
  // ---------------------------------------------------------------------------

  /** The store as it should be with the first `n` entries applied once each. */
  function Applied(log: Log, n: nat): map<string, string>
    requires n <= |log|
  {
    ApplyEntries(map[], log[..n])
  }

  lemma AppliedSplit(log: Log, a: nat, b: nat)
    requires a <= b <= |log|
    ensures Applied(log, b) == ApplyEntries(Applied(log, a), log[a..b])
  {
    assert log[..b] == log[..a] + log[a..b];
    ApplyEntriesAppend(map[], log[..a], log[a..b]);
  }

  lemma {:induction false} TouchedOfPart(part: seq<Entry>, batch: seq<Entry>)
    requires forall e :: e in part ==> e in batch
    ensures Touched(part) <= Touched(batch)
    decreases |part|
  {
    if part != [] {
      TouchedOfPart(part[1..], batch);
      TouchedHas(batch, part[0]);
    }
  }

  lemma {:induction false} TouchedHas(batch: seq<Entry>, e: Entry)
    requires e in batch
    ensures Writes(e.command) ==> e.command.key in Touched(batch)
    decreases |batch|
  {
    if batch[0] != e {
      TouchedHas(batch[1..], e);
    }
  }

  lemma {:induction false} TouchedGrows(a: seq<Entry>, b: seq<Entry>)
    ensures Touched(a) <= Touched(a + b)
    decreases |a|
  {
    if a != [] {
      assert (a + b)[1..] == a[1..] + b;
      TouchedGrows(a[1..], b);
    }
  }

  /**
   * The stored `lastApplied` is `la`; of the batch `la..m` any part reached the store before the crash, in any order
   * and any number of times. Re-applying from `la` up to any commit index `c >= m` repairs it.
   */
  lemma CrashReplay(log: Log, la: nat, m: nat, c: nat, part: seq<Entry>)
    requires la <= m <= c <= |log|
    requires forall e :: e in part ==> e in log[la..m]
    ensures ApplyEntries(ApplyEntries(Applied(log, la), part), log[la..c]) == Applied(log, c)
  {
    var base := Applied(log, la);
    AppliedSplit(log, la, c);
    UntouchedKept(base, part);
    TouchedOfPart(part, log[la..m]);
    assert log[la..c] == log[la..m] + log[m..c];
    TouchedGrows(log[la..m], log[m..c]);
    ReplayMergesIff(base, ApplyEntries(base, part), log[la..c]);
  }

  /** Stopping at an arbitrary `c`, the replay is right exactly when the store is right off the keys it rewrites. */
  lemma ReplayIsRightIff(log: Log, la: nat, c: nat, store: map<string, string>)
    requires la <= c <= |log|
    ensures ApplyEntries(store, log[la..c]) == Applied(log, c)
       <==> AgreeOff(store, Applied(log, la), Touched(log[la..c]))
  {
    AppliedSplit(log, la, c);
    ReplayMergesIff(store, Applied(log, la), log[la..c]);
  }

  /** With a commit index below what had reached the store, replay can leave a value no entry up to it wrote. */
  lemma ReplayBelowCrashPointFails(v: string, w: string)
    ensures
      var log := [Entry(1, 1, Command(PutOp, "a", v, 0)), Entry(2, 1, Command(PutOp, "b", w, 0))];
      ApplyEntries(Applied(log, 2), log[0..1]) != Applied(log, 1)
  {
    var log := [Entry(1, 1, Command(PutOp, "a", v, 0)), Entry(2, 1, Command(PutOp, "b", w, 0))];
    assert log[..2] == log && log[..1] == [log[0]] && log[0..1] == [log[0]] && log[1..] == [log[1]];
    assert ApplyEntries(map[], log) == ApplyEntries(map["a" := v], [log[1]]) == map["a" := v, "b" := w];
    assert ApplyEntries(map[], [log[0]]) == map["a" := v];
    assert ApplyEntries(map["a" := v, "b" := w], [log[0]]) == map["a" := v, "b" := w]["a" := v];
    assert "b" in ApplyEntries(Applied(log, 2), log[0..1]);
  }

  /** A learner that restarted with a store ahead of its metadata is repaired by the next commit that reaches as far. */
  lemma LearnerRecovers(l: L.Learner, m: nat, part: seq<Entry>, leaderCommit: int)
    requires 0 <= l.lastApplied <= m <= Min(leaderCommit, |l.log|)
    requires l.commitIndex < leaderCommit
    requires forall e :: e in part ==> e in l.log[l.lastApplied..m]
    requires l.disk.state == ApplyEntries(Applied(l.log, l.lastApplied), part)
    ensures L.FollowCommit(l, leaderCommit).disk.state == Applied(l.log, Min(leaderCommit, |l.log|))
    ensures L.FollowCommit(l, leaderCommit).lastApplied == Min(leaderCommit, |l.log|)
  {
    var c := Min(leaderCommit, |l.log|);
    L.ApplyRunsEntries(l.(commitIndex := c));
    CrashReplay(l.log, l.lastApplied, m, c, part);
  }

  /** The same for a core node. */
  lemma CoreRecovers(c: N.Core, m: nat, part: seq<Entry>, leaderCommit: int)
    requires 0 <= c.lastApplied <= m <= Min(leaderCommit, |c.log|)
    requires c.commitIndex < leaderCommit
    requires forall e :: e in part ==> e in c.log[c.lastApplied..m]
    requires c.disk.state == ApplyEntries(Applied(c.log, c.lastApplied), part)
    ensures N.FollowCommit(c, leaderCommit).disk.state == Applied(c.log, Min(leaderCommit, |c.log|))
    ensures N.FollowCommit(c, leaderCommit).lastApplied == Min(leaderCommit, |c.log|)
  {
    var n := Min(leaderCommit, |c.log|);
    N.ApplyRunsEntries(c.(commitIndex := n));
    CrashReplay(c.log, c.lastApplied, m, n, part);
  }
}
