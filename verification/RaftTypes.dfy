/** Log entries, messages and stored data shared by core nodes and learners (core/Raft.go, core/RaftStorage.go). */
module RaftTypes {
  import opened Common

  datatype Op = PutOp | DelOp | AddLearner | RemoveLearner | AddLearnerWithSnapshot | UnknownOp

  /** `value` is the JSON text the store keeps. */
  datatype Command = Command(op: Op, key: string, value: string, snapshotIndex: int)

  datatype Entry = Entry(index: nat, term: int, command: Command)

  type Log = seq<Entry>

  ghost predicate WellIndexed(log: Log) {
    forall i :: 0 <= i < |log| ==> log[i].index == i + 1
  }

  function LastIndex(log: Log): int {
    if log == [] then 0 else log[|log| - 1].index
  }

  function LastTerm(log: Log): int {
    if log == [] then 0 else log[|log| - 1].term
  }

  datatype Payload =
    | RequestVote(term: int, candidateId: Id, prevLogIndex: int, prevLogTerm: int)
    | RequestVoteResponse(term: int, voteGranted: bool, candidateId: Id, senderId: Id)
    | AppendEntries(term: int, leaderId: Id, prevLogIndex: int, prevLogTerm: int, entries: seq<Entry>, leaderCommit: int)
    | AppendEntriesResponse(term: int, success: bool, leaderId: Id, conflictTerm: int, conflictIndex: int, commitIndex: int)

  datatype Packet = Packet(src: Id, dst: Id, payload: Payload)

  /** Entries of an AppendEntries message follow its `prevLogIndex` without a gap. */
  ghost predicate WellFormedAppend(p: Payload) {
    && p.AppendEntries?
    && (p.entries != [] ==> p.prevLogIndex >= 0)
    && (forall i :: 0 <= i < |p.entries| ==> p.entries[i].index == p.prevLogIndex + 1 + i)
  }

  // ---------------------------------------------------------------------------
  // What is on disk
  // ---------------------------------------------------------------------------

  datatype Meta = Meta(term: int, votedFor: Id, commitIndex: int, lastApplied: int)

  /** One group's keys of the database: log entries by index, the metadata record, and the key-value state. */
  datatype Disk = Disk(logs: map<nat, Entry>, meta: Option<Meta>, state: map<string, string>) {
    function LoadMeta(): Meta {
      match meta
      case Some(m) => m
      case None => Meta(0, "", 0, 0)
    }
  }

  const EMPTY_DISK := Disk(map[], None, map[])

  function DeletedFrom(logs: map<nat, Entry>, start: int): map<nat, Entry> {
    map k | k in logs && k < start :: logs[k]
  }

  /** The stored form of an in-memory log. */
  ghost function LogMap(log: Log): (m: map<nat, Entry>)
    ensures forall k: nat :: k in m <==> 1 <= k <= |log|
    ensures forall k: nat :: k in m ==> m[k] == log[k - 1]
  {
    if log == [] then map[] else LogMap(log[..|log| - 1])[|log| := log[|log| - 1]]
  }

  /** Exactly the indices `1..n` are stored, each under its own number. */
  ghost predicate Dense(logs: map<nat, Entry>, n: nat) {
    && (forall k: nat :: k in logs <==> 1 <= k <= n)
    && (forall k: nat :: k in logs ==> logs[k].index == k)
  }

  /** The least key of a non-empty set: where an iterator over the ordered database starts. */
  ghost predicate IsMin(k: nat, keys: set<nat>) {
    k in keys && forall j: nat :: j in keys ==> k <= j
  }

  lemma {:induction false} MinExists(keys: set<nat>) returns (k: nat)
    requires keys != {}
    ensures IsMin(k, keys)
    decreases |keys|
  {
    var x :| x in keys;
    if keys == {x} {
      k := x;
    } else {
      var m := MinExists(keys - {x});
      k := Min(m, x);
      forall j: nat | j in keys ensures k <= j {
        if j != x {
          assert j in keys - {x};
        }
      }
    }
  }

  /** What `LoadLogs` returns: the stored entries in the order of their keys. */
  ghost function Load(logs: map<nat, Entry>): Log
    decreases |logs|
  {
    if k :| IsMin(k, logs.Keys) then
      assert |logs| == |logs - {k}| + 1 by { RemoveKeySize(logs, k); }
      [logs[k]] + Load(logs - {k})
    else []
  }

  lemma RemoveKeySize(logs: map<nat, Entry>, k: nat)
    requires k in logs
    ensures |logs - {k}| == |logs| - 1
  {
    assert (logs - {k}).Keys == logs.Keys - {k};
    assert |logs.Keys| == |logs| && |(logs - {k}).Keys| == |logs - {k}|;
  }

  lemma LoadStep(logs: map<nat, Entry>, k: nat)
    requires IsMin(k, logs.Keys)
    ensures Load(logs) == [logs[k]] + Load(logs - {k})
  {
  }

  /** Loading a run of consecutive indices gives them in order. */
  lemma {:induction false} LoadConsecutive(logs: map<nat, Entry>, a: nat, n: int)
    requires forall k: nat :: k in logs <==> a <= k <= n
    requires a <= n + 1
    ensures |Load(logs)| == n + 1 - a
    ensures forall i :: 0 <= i <= n - a ==> Load(logs)[i] == logs[a + i]
    decreases n - a
  {
    if a <= n {
      assert IsMin(a, logs.Keys);
      LoadStep(logs, a);
      LoadConsecutive(logs - {a}, a + 1, n);
      forall i | 1 <= i <= n - a ensures Load(logs)[i] == logs[a + i] {
        assert Load(logs)[i] == Load(logs - {a})[i - 1];
      }
    } else {
      assert logs == map[];
    }
  }

  /** A log that agrees with the store is what a restart reads back. */
  lemma LoadGivesLogBack(log: Log)
    ensures Load(LogMap(log)) == log
  {
    LoadConsecutive(LogMap(log), 1, |log|);
  }

  lemma LoadDense(logs: map<nat, Entry>, n: nat)
    requires Dense(logs, n)
    ensures |Load(logs)| == n && WellIndexed(Load(logs)) && logs == LogMap(Load(logs))
  {
    LoadConsecutive(logs, 1, n);
  }

  lemma {:induction false} LoadedAreStored(logs: map<nat, Entry>)
    requires forall k: nat :: k in logs ==> logs[k].index == k
    ensures forall e :: e in Load(logs) <==> e.index in logs && logs[e.index] == e
    decreases |logs|
  {
    if logs != map[] {
      var k := MinExists(logs.Keys);
      LoadStep(logs, k);
      RemoveKeySize(logs, k);
      LoadedAreStored(logs - {k});
    }
  }

  ghost predicate Ascending(log: Log) {
    forall i, j :: 0 <= i < j < |log| ==> log[i].index < log[j].index
  }

  /** The loaded entries are in ascending order of their own index, so sorting them by it changes nothing. */
  lemma {:induction false} LoadIsSorted(logs: map<nat, Entry>)
    requires forall k: nat :: k in logs ==> logs[k].index == k
    ensures Ascending(Load(logs))
    decreases |logs|
  {
    if logs != map[] {
      var k := MinExists(logs.Keys);
      LoadStep(logs, k);
      RemoveKeySize(logs, k);
      LoadIsSorted(logs - {k});
      LeastIsBelowRest(logs, k);
      LeastComesFirst(logs[k], Load(logs - {k}));
    }
  }

  lemma LeastIsBelowRest(logs: map<nat, Entry>, k: nat)
    requires IsMin(k, logs.Keys) && forall j: nat :: j in logs ==> logs[j].index == j
    ensures forall e :: e in Load(logs - {k}) ==> logs[k].index < e.index
  {
    LoadedAreStored(logs - {k});
  }

  lemma LeastComesFirst(first: Entry, rest: Log)
    requires forall e :: e in rest ==> first.index < e.index
    requires Ascending(rest)
    ensures Ascending([first] + rest)
  {
  }
}

/** The database wrapper of core/RaftStorage.go for one node and one group. */
module RaftStorage {
  import opened Common
  import opened RaftTypes

  /** Some of the entries from `start` on are gone. */
  ghost predicate PartlyDeleted(before: map<nat, Entry>, start: int, logs: map<nat, Entry>) {
    && (forall k: nat :: k in logs ==> k in before && logs[k] == before[k])
    && (forall k: nat :: k in before && k < start ==> k in logs)
  }

  class Storage {
    var logs: map<nat, Entry>
    var meta: Option<Meta>
    var state: map<string, string>

    /** What was on disk before each write, in order: where a crash can leave the node. */
    ghost var past: seq<Disk>

    ghost function View(): Disk
      reads this
    {
      Disk(logs, meta, state)
    }

    constructor (logs: map<nat, Entry>, meta: Option<Meta>, state: map<string, string>)
      ensures View() == Disk(logs, meta, state) && past == []
    {
      this.logs, this.meta, this.state, past := logs, meta, state, [];
    }

    method SaveLog(entry: Entry)
      modifies this`logs, this`past
      ensures View() == old(View()).(logs := old(logs)[entry.index := entry])
      ensures past == old(past) + [old(View())]
    {
      past := past + [View()];
      logs := logs[entry.index := entry];
    }

    /** Iterates over the log keys and deletes those at or above `start`. */
    method DeleteLogsFrom(start: int)
      modifies this`logs, this`past
      ensures View() == old(View()).(logs := DeletedFrom(old(logs), start))
      ensures old(past) <= past
      ensures forall i :: |old(past)| <= i < |past| ==>
                past[i].meta == meta && past[i].state == state && PartlyDeleted(old(logs), start, past[i].logs)
    {
      var keys := logs.Keys;
      while keys != {}
        invariant keys <= old(logs).Keys
        invariant forall k: nat :: k in logs <==> k in old(logs) && (k < start || k in keys)
        invariant forall k: nat :: k in logs ==> logs[k] == old(logs)[k]
        invariant meta == old(meta) && state == old(state) && old(past) <= past
        invariant forall i :: |old(past)| <= i < |past| ==>
                    past[i].meta == meta && past[i].state == state && PartlyDeleted(old(logs), start, past[i].logs)
        decreases |keys|
      {
        var k :| k in keys;
        if k >= start {
          past := past + [View()];
          logs := logs - {k};
        }
        keys := keys - {k};
      }
      assert logs == DeletedFrom(old(logs), start);
    }

    /** Iterates over the log keys in their order. */
    method LoadLogs() returns (log: Log)
      ensures log == Load(logs)
      ensures (forall k: nat :: k in logs ==> logs[k].index == k) ==> Ascending(log)
    {
      log := [];
      var rest := logs;
      while rest != map[]
        invariant log + Load(rest) == Load(logs)
        decreases |rest|
      {
        ghost var m := MinExists(rest.Keys);
        var k :| k in rest.Keys && forall j: nat :: j in rest.Keys ==> k <= j;
        LoadStep(rest, k);
        RemoveKeySize(rest, k);
        log := log + [rest[k]];
        rest := rest - {k};
      }
      if forall k: nat :: k in logs ==> logs[k].index == k {
        LoadIsSorted(logs);
      }
    }

    method SaveMeta(term: int, votedFor: Id, commitIndex: int, lastApplied: int)
      modifies this`meta, this`past
      ensures View() == old(View()).(meta := Some(Meta(term, votedFor, commitIndex, lastApplied)))
      ensures past == old(past) + [old(View())]
    {
      past := past + [View()];
      meta := Some(Meta(term, votedFor, commitIndex, lastApplied));
    }

    method LoadMeta() returns (m: Meta)
      ensures m == View().LoadMeta()
    {
      match meta
      case Some(v) => return v;
      case None => return Meta(0, "", 0, 0);
    }

    method PutState(key: string, value: string)
      modifies this`state, this`past
      ensures View() == old(View()).(state := old(state)[key := value])
      ensures past == old(past) + [old(View())]
    {
      past := past + [View()];
      state := state[key := value];
    }

    method DeleteState(key: string)
      modifies this`state, this`past
      ensures View() == old(View()).(state := old(state) - {key})
      ensures past == old(past) + [old(View())]
    {
      past := past + [View()];
      state := state - {key};
    }
  }
}
