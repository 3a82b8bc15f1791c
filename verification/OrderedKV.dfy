/** The ordered key-value structure of core/KVGroup.go: a list, an index into it, and a log it can be rebuilt from. */
module OrderedKVs {
  import opened Common

  datatype KVEntry = KVEntry(key: string, value: string)

  datatype LogEntry = LogEntry(index: int, term: int, op: string, key: string, value: string)

  type KVList = seq<KVEntry>

  // ---------------------------------------------------------------------------
  // The insertion-ordered map the structure stands for
  // ---------------------------------------------------------------------------

  ghost predicate NoDuplicates(l: KVList) {
    forall i, j :: 0 <= i < j < |l| ==> l[i].key != l[j].key
  }

  function Keys(l: KVList): set<string> {
    set i | 0 <= i < |l| :: l[i].key
  }

  /** Where `key` is, `|l|` if nowhere. */
  function Position(l: KVList, key: string): (i: nat)
    ensures i <= |l|
    ensures i < |l| ==> l[i].key == key
    ensures forall j :: 0 <= j < i ==> l[j].key != key
  {
    if l == [] || l[0].key == key then 0 else Position(l[1..], key) + 1
  }

  /** An update keeps the key's place, an insertion goes to the end. */
  function PutIn(l: KVList, key: string, value: string): KVList {
    var i := Position(l, key);
    if i < |l| then l[i := KVEntry(key, value)] else l + [KVEntry(key, value)]
  }

  function DeleteFrom(l: KVList, key: string): KVList {
    var i := Position(l, key);
    if i < |l| then l[..i] + l[i + 1..] else l
  }

  /** The plain map the list stands for. */
  function AsMap(l: KVList): map<string, string> {
    map k | k in Keys(l) :: l[Position(l, k)].value
  }

  predicate IsOperation(e: LogEntry) {
    e.op == "put" || e.op == "delete"
  }

  function Perform(l: KVList, e: LogEntry): KVList {
    if e.op == "put" then PutIn(l, e.key, e.value)
    else if e.op == "delete" then DeleteFrom(l, e.key)
    else l
  }

  function PerformAll(l: KVList, log: seq<LogEntry>): KVList
    decreases |log|
  {
    if log == [] then l else Perform(PerformAll(l, log[..|log| - 1]), log[|log| - 1])
  }

  function Operations(log: seq<LogEntry>): seq<LogEntry>
    decreases |log|
  {
    if log == [] then []
    else Operations(log[..|log| - 1]) + if IsOperation(log[|log| - 1]) then [log[|log| - 1]] else []
  }

  // ---------------------------------------------------------------------------
  // The mutable structure
  // ---------------------------------------------------------------------------

  class OrderedKV {
    var kvList: KVList
    var kvMap: map<string, nat>
    var log: seq<LogEntry>

    /** The index names exactly the keys of the list, each at its position. */
    ghost predicate Valid()
      reads this
    {
      && NoDuplicates(kvList)
      && (forall i :: 0 <= i < |kvList| ==> kvList[i].key in kvMap && kvMap[kvList[i].key] == i)
      && (forall k :: k in kvMap ==> kvMap[k] < |kvList| && kvList[kvMap[k]].key == k)
    }

    constructor ()
      ensures Valid() && kvList == [] && log == []
    {
      kvList, kvMap, log := [], map[], [];
    }

    method Put(key: string, value: string, term: int, index: int)
      requires Valid()
      modifies this
      ensures Valid()
      ensures kvList == PutIn(old(kvList), key, value)
      ensures log == old(log) + [LogEntry(index, term, "put", key, value)]
    {
      if key in kvMap {
        kvList := kvList[kvMap[key] := KVEntry(key, value)];
      } else {
        kvList := kvList + [KVEntry(key, value)];
        kvMap := kvMap[key := |kvList| - 1];
      }
      log := log + [LogEntry(index, term, "put", key, value)];
    }

    method Delete(key: string, term: int, index: int)
      requires Valid()
      modifies this
      ensures Valid()
      ensures kvList == DeleteFrom(old(kvList), key)
      ensures log == old(log) + [LogEntry(index, term, "delete", key, "")]
    {
      if key in kvMap {
        RemoveAt(key);
      }
      log := log + [LogEntry(index, term, "delete", key, "")];
    }

    method RemoveAt(key: string)
      requires Valid() && key in kvMap
      modifies this`kvList, this`kvMap
      ensures Valid()
      ensures kvList == DeleteFrom(old(kvList), key)
    {
      var idx := kvMap[key];
      ghost var l := kvList;
      PositionOf(l, idx);
      DeleteShape(l, key);
      KeysAfterRemoval(l, kvMap, idx);
      kvList := kvList[..idx] + kvList[idx + 1..];
      kvMap := kvMap - {key};
      Reindex(idx);
    }

    /** The loop that renumbers everything behind a removed entry. */
    method Reindex(idx: nat)
      requires idx <= |kvList| && NoDuplicates(kvList)
      requires forall i :: 0 <= i < |kvList| ==> kvList[i].key in kvMap && kvMap[kvList[i].key] == if i < idx then i else i + 1
      requires forall k :: k in kvMap ==> k in Keys(kvList)
      modifies this`kvMap
      ensures Valid()
    {
      ghost var keys := kvMap.Keys;
      for i := idx to |kvList|
        invariant kvMap.Keys == keys
        invariant forall j :: 0 <= j < |kvList| ==> kvMap[kvList[j].key] == if j < i then j else j + 1
      {
        kvMap := kvMap[kvList[i].key := i];
      }
      forall k | k in kvMap
        ensures kvMap[k] < |kvList| && kvList[kvMap[k]].key == k
      {
        var j :| 0 <= j < |kvList| && kvList[j].key == k;
      }
    }

    method Get(key: string) returns (value: string, ok: bool)
      requires Valid()
      ensures if ok then key in AsMap(kvList) && value == AsMap(kvList)[key] else key !in AsMap(kvList)
    {
      if key in kvMap {
        return kvList[kvMap[key]].value, true;
      }
      return "", false;
    }

    method AppendLog(entry: LogEntry)
      modifies this`log
      ensures log == old(log) + [entry]
    {
      log := log + [entry];
    }

    /** The body of the replay loop. */
    method ReplayEntry(entry: LogEntry)
      requires Valid()
      modifies this
      ensures Valid()
      ensures kvList == Perform(old(kvList), entry)
      ensures log == old(log) + Relogged(entry)
    {
      if entry.op == "put" {
        Put(entry.key, entry.value, entry.term, entry.index);
      } else if entry.op == "delete" {
        Delete(entry.key, entry.term, entry.index);
      }
    }

    /** `range o.log` fixes the slice it walks before the first turn, although every turn appends to the log. */
    method ReplayLog()
      requires Valid()
      modifies this
      ensures Valid()
      ensures kvList == PerformAll([], old(log))
      ensures log == old(log) + RelogAll(old(log))
      ensures |RelogAll(old(log))| == |Operations(old(log))|
      ensures PerformAll([], log) == PerformAll(PerformAll([], old(log)), old(log))
    {
      kvList := [];
      kvMap := map[];
      var entries := log;
      StartReplay(entries);
      for i := 0 to |entries|
        invariant Valid() && ReplayedSoFar(entries, i, kvList, log)
      {
        ReplayOne(entries, i, kvList, log);
        ReplayEntry(entries[i]);
      }
      EndReplay(entries, kvList, log);
    }
  }

  lemma KeysAfterRemoval(l: KVList, index: map<string, nat>, idx: nat)
    requires idx < |l|
    requires forall k :: k in index ==> index[k] < |l| && l[index[k]].key == k
    ensures forall k :: k in index && k != l[idx].key ==> k in Keys(l[..idx] + l[idx + 1..])
  {
    var l' := l[..idx] + l[idx + 1..];
    forall k | k in index && k != l[idx].key ensures k in Keys(l') {
      var j := index[k];
      assert l'[if j < idx then j else j - 1] == l[j];
    }
  }

  // ---------------------------------------------------------------------------
  // One turn of the replay
  // ---------------------------------------------------------------------------

  /** The first `i` of `entries` have been performed again, and appended again. */
  ghost predicate ReplayedSoFar(entries: seq<LogEntry>, i: nat, l: KVList, log: seq<LogEntry>)
    requires i <= |entries|
  {
    && l == PerformAll([], entries[..i])
    && log == entries + RelogAll(entries[..i]) && |RelogAll(entries[..i])| == |Operations(entries[..i])|
    && PerformAll([], log) == PerformAll(PerformAll([], entries), entries[..i])
  }

  /** What performing an entry appends: a deletion is logged without a value. */
  function Relogged(e: LogEntry): seq<LogEntry> {
    if e.op == "put" then [e]
    else if e.op == "delete" then [LogEntry(e.index, e.term, "delete", e.key, "")]
    else []
  }

  function RelogAll(log: seq<LogEntry>): seq<LogEntry>
    decreases |log|
  {
    if log == [] then [] else RelogAll(log[..|log| - 1]) + Relogged(log[|log| - 1])
  }

  /** What a replay appends: its puts and deletes in order, with their index, term and key, and with a put's value. */
  lemma {:induction false} RelogKeeps(log: seq<LogEntry>)
    ensures |RelogAll(log)| == |Operations(log)|
    ensures forall i :: 0 <= i < |Operations(log)| ==>
              RelogAll(log)[i] == Operations(log)[i].(value := if Operations(log)[i].op == "put" then Operations(log)[i].value else "")
    ensures forall e :: e in Operations(log) <==> e in log && (e.op == "put" || e.op == "delete")
    decreases |log|
  {
    if log != [] {
      var front, last := log[..|log| - 1], log[|log| - 1];
      RelogKeeps(front);
      assert log == front + [last];
    }
  }

  lemma StartReplay(entries: seq<LogEntry>)
    ensures ReplayedSoFar(entries, 0, [], entries)
  {
  }

  lemma ReplayOne(entries: seq<LogEntry>, i: nat, l: KVList, log: seq<LogEntry>)
    requires i < |entries| && ReplayedSoFar(entries, i, l, log)
    ensures ReplayedSoFar(entries, i + 1, Perform(l, entries[i]), log + Relogged(entries[i]))
  {
    var e, log' := entries[i], log + Relogged(entries[i]);
    assert entries[..i + 1][..i] == entries[..i] && entries[..i + 1][i] == e;
    SeqAssoc(entries, RelogAll(entries[..i]), Relogged(e));
    if IsOperation(e) {
      assert log'[..|log|] == log;
    } else {
      assert log' == log;
    }
  }

  lemma EndReplay(entries: seq<LogEntry>, l: KVList, log: seq<LogEntry>)
    requires ReplayedSoFar(entries, |entries|, l, log)
    ensures l == PerformAll([], entries) && log == entries + RelogAll(entries) && |RelogAll(entries)| == |Operations(entries)|
    ensures PerformAll([], log) == PerformAll(PerformAll([], entries), entries)
  {
    assert entries[..|entries|] == entries;
  }

  // ---------------------------------------------------------------------------
  // The list as a map
  // ---------------------------------------------------------------------------

  lemma PositionOf(l: KVList, i: nat)
    requires NoDuplicates(l) && i < |l|
    ensures Position(l, l[i].key) == i
  {
  }

  lemma AsMapAt(l: KVList, k: string)
    requires NoDuplicates(l)
    ensures k in AsMap(l) <==> Position(l, k) < |l|
    ensures forall i :: 0 <= i < |l| && l[i].key == k ==> AsMap(l)[k] == l[i].value
  {
    if k in Keys(l) {
      var i :| 0 <= i < |l| && l[i].key == k;
      PositionOf(l, i);
    }
  }

  lemma PutKeepsNoDuplicates(l: KVList, key: string, value: string)
    requires NoDuplicates(l)
    ensures NoDuplicates(PutIn(l, key, value))
    ensures AsMap(PutIn(l, key, value)) == AsMap(l)[key := value]
  {
    var i, l' := Position(l, key), PutIn(l, key, value);
    forall k
      ensures k in AsMap(l') <==> k in AsMap(l)[key := value]
      ensures k in AsMap(l') ==> AsMap(l')[k] == AsMap(l)[key := value][k]
    {
      AsMapAt(l, k);
      AsMapAt(l', k);
      if k == key {
        assert l'[i].key == k;
      } else if Position(l, k) < |l| {
        assert l'[Position(l, k)] == l[Position(l, k)];
      }
    }
  }

  lemma DeleteShape(l: KVList, key: string)
    requires NoDuplicates(l)
    ensures
      var i, l' := Position(l, key), DeleteFrom(l, key);
      && (i < |l| ==> |l'| == |l| - 1 && forall j :: 0 <= j < |l'| ==> l'[j] == l[if j < i then j else j + 1])
      && NoDuplicates(l')
      && forall j :: 0 <= j < |l'| ==> l'[j].key != key
  {
  }

  /** The map of a list is all its entries and nothing else. */
  lemma AsMapHas(l: KVList, e: KVEntry)
    requires NoDuplicates(l)
    ensures e in l <==> e.key in AsMap(l) && AsMap(l)[e.key] == e.value
  {
    AsMapAt(l, e.key);
    if e.key in AsMap(l) {
      assert l[Position(l, e.key)].key == e.key;
    }
  }

  lemma DeleteKeepsNoDuplicates(l: KVList, key: string)
    requires NoDuplicates(l)
    ensures NoDuplicates(DeleteFrom(l, key))
    ensures AsMap(DeleteFrom(l, key)) == AsMap(l) - {key}
  {
    DeleteShape(l, key);
    SameEntriesSameMap(DeleteFrom(l, key), l, key);
  }

  lemma EntriesLeft(l: KVList, key: string, e: KVEntry)
    requires NoDuplicates(l)
    ensures e in DeleteFrom(l, key) <==> e in l && e.key != key
  {
    var i, l' := Position(l, key), DeleteFrom(l, key);
    DeleteShape(l, key);
    if e in l && e.key != key {
      var j :| 0 <= j < |l| && l[j] == e;
      assert l'[if j < i then j else j - 1] == e;
    }
    if e in l' {
      var j :| 0 <= j < |l'| && l'[j] == e;
      assert l[if j < i then j else j + 1] == e;
    }
  }

  lemma SameEntriesSameMap(l': KVList, l: KVList, key: string)
    requires NoDuplicates(l) && NoDuplicates(l') && l' == DeleteFrom(l, key)
    ensures AsMap(l') == AsMap(l) - {key}
  {
    forall k
      ensures k in AsMap(l') <==> k in AsMap(l) - {key}
      ensures k in AsMap(l') ==> AsMap(l')[k] == AsMap(l)[k]
    {
      if k in AsMap(l') {
        AsMapHas(l', KVEntry(k, AsMap(l')[k]));
        EntriesLeft(l, key, KVEntry(k, AsMap(l')[k]));
        AsMapHas(l, KVEntry(k, AsMap(l')[k]));
      }
      if k in AsMap(l) {
        AsMapHas(l, KVEntry(k, AsMap(l)[k]));
        EntriesLeft(l, key, KVEntry(k, AsMap(l)[k]));
        AsMapHas(l', KVEntry(k, AsMap(l)[k]));
      }
    }
  }

  /** One logged operation on a plain map. */
  function MapPerform(m: map<string, string>, e: LogEntry): map<string, string> {
    if e.op == "put" then m[e.key := e.value] else if e.op == "delete" then m - {e.key} else m
  }

  function MapPerformAll(m: map<string, string>, log: seq<LogEntry>): map<string, string>
    decreases |log|
  {
    if log == [] then m else MapPerform(MapPerformAll(m, log[..|log| - 1]), log[|log| - 1])
  }

  /** The list refines a map: operation by operation, the map of the list is the operations on the map. */
  lemma {:induction false} ListRefinesMap(l: KVList, log: seq<LogEntry>)
    requires NoDuplicates(l)
    ensures NoDuplicates(PerformAll(l, log))
    ensures AsMap(PerformAll(l, log)) == MapPerformAll(AsMap(l), log)
    decreases |log|
  {
    if log != [] {
      var e, before := log[|log| - 1], PerformAll(l, log[..|log| - 1]);
      ListRefinesMap(l, log[..|log| - 1]);
      PutKeepsNoDuplicates(before, e.key, e.value);
      DeleteKeepsNoDuplicates(before, e.key);
    }
  }

  ghost predicate Mentions(log: seq<LogEntry>, k: string) {
    exists i :: 0 <= i < |log| && IsOperation(log[i]) && log[i].key == k
  }

  lemma {:induction false} LastOperationDecides(a: map<string, string>, b: map<string, string>, log: seq<LogEntry>, k: string)
    ensures Mentions(log, k) || SameAt(a, b, k) ==> SameAt(MapPerformAll(a, log), MapPerformAll(b, log), k)
    ensures !Mentions(log, k) ==> SameAt(a, MapPerformAll(a, log), k)
    decreases |log|
  {
    if log != [] {
      var front, e := log[..|log| - 1], log[|log| - 1];
      LastOperationDecides(a, b, front, k);
      if Mentions(log, k) && !Mentions(front, k) {
        var i :| 0 <= i < |log| && IsOperation(log[i]) && log[i].key == k;
        assert i < |front| ==> front[i] == log[i];
      }
      if Mentions(front, k) {
        var i :| 0 <= i < |front| && IsOperation(front[i]) && front[i].key == k;
        assert log[i] == front[i];
      }
      if IsOperation(e) && e.key == k {
        assert log[|log| - 1] == e;
        assert Mentions(log, k);
      }
    }
  }

  /** Replaying once more performs the log twice over, and leaves the same map. */
  lemma ReplayAgainSameMap(log: seq<LogEntry>)
    ensures AsMap(PerformAll(PerformAll([], log), log)) == AsMap(PerformAll([], log))
  {
    ListRefinesMap([], log);
    ListRefinesMap(PerformAll([], log), log);
    var m0, m1 := AsMap([]), AsMap(PerformAll([], log));
    var m2 := MapPerformAll(m1, log);
    forall k ensures SameAt(m1, m2, k) {
      LastOperationDecides(m0, m1, log, k);
      LastOperationDecides(m1, m1, log, k);
    }
    forall k ensures (k in m1 <==> k in m2) && (k in m1 ==> m1[k] == m2[k]) {
      assert SameAt(m1, m2, k);
    }
  }

  /** As long as every change was logged, a replay rebuilds the very same list, order included. */
  lemma LoggedChangesReplay(l: KVList, log: seq<LogEntry>, e: LogEntry)
    requires l == PerformAll([], log)
    ensures Perform(l, e) == PerformAll([], log + [e])
  {
    assert (log + [e])[..|log|] == log;
  }

  /** What a caller asks for. */
  datatype Call = PutCall(key: string, value: string, term: int, index: int) | DeleteCall(key: string, term: int, index: int)

  function Logged(call: Call): LogEntry {
    match call
    case PutCall(key, value, term, index) => LogEntry(index, term, "put", key, value)
    case DeleteCall(key, term, index) => LogEntry(index, term, "delete", key, "")
  }

  datatype Contents = Contents(list: KVList, log: seq<LogEntry>)

  /** The structure through a sequence of calls, from empty: each does what the contracts of `Put` and `Delete` say. */
  ghost predicate Life(states: seq<Contents>, calls: seq<Call>) {
    && |states| == |calls| + 1 && states[0] == Contents([], [])
    && forall i :: 0 <= i < |calls| ==> LifeStep(states[i], states[i + 1], calls[i])
  }

  ghost predicate LifeStep(c: Contents, c': Contents, call: Call) {
    && c'.log == c.log + [Logged(call)]
    && match call
       case PutCall(key, value, _, _) => c'.list == PutIn(c.list, key, value)
       case DeleteCall(key, _, _) => c'.list == DeleteFrom(c.list, key)
  }

  /** At every moment a replay would rebuild the list as it is, order included, and the map it stands for. */
  lemma {:induction false} CallsReplay(states: seq<Contents>, calls: seq<Call>, k: nat)
    requires Life(states, calls) && k < |states|
    ensures states[k].list == PerformAll([], states[k].log) && |states[k].log| == k
    ensures NoDuplicates(states[k].list) && AsMap(states[k].list) == MapPerformAll(map[], states[k].log)
  {
    if k > 0 {
      CallsReplay(states, calls, k - 1);
      assert LifeStep(states[k - 1], states[k - 1 + 1], calls[k - 1]);
      LoggedChangesReplay(states[k - 1].list, states[k - 1].log, Logged(calls[k - 1]));
    }
    ListRefinesMap([], states[k].log);
  }
}
