/** The ring buffer of core/FRPStreamStub.go: `seq` is kept in slot `seq mod size`. */
module WindowBuffers {
  import opened Common
  import opened Modulo

  /** The value of a window: its first sequence number and one optional chunk per slot. */
  datatype Window = Window(start: int, slots: seq<Option<Bytes>>) {

    predicate Valid() {
      start >= 0 && |slots| > 0
    }

    predicate InRange(s: int) {
      start <= s < start + |slots|
    }

    /** What `Get` answers for `s`. */
    function Lookup(s: int): Option<Bytes>
      requires Valid()
    {
      if InRange(s) then slots[s % |slots|] else None
    }

    /** The partial map the window stands for. */
    ghost function Contents(): map<int, Bytes>
      requires Valid()
    {
      map s | start <= s < start + |slots| && slots[s % |slots|].Some? :: slots[s % |slots|].value
    }

    function Put(s: int, chunk: Bytes): Window
      requires Valid()
    {
      if InRange(s) then this.(slots := slots[s % |slots| := Some(chunk)]) else this
    }

    function Advance(): Window
      requires Valid()
    {
      if slots[start % |slots|].Some?
      then Window(start + 1, slots[start % |slots| := None])
      else this
    }

    function BundleAdvanceUpTo(maxSeq: int): Window
      requires Valid()
      decreases maxSeq - start
    {
      if start <= maxSeq && slots[start % |slots|].Some?
      then Advance().BundleAdvanceUpTo(maxSeq)
      else this
    }

    function RemoveUpTo(s: int): Window
      requires Valid()
    {
      Window(s + 1, ClearRange(slots, start, s))
    }
  }

  function EmptyWindow(start: int, size: nat): Window {
    Window(start, seq(size, _ => None))
  }

  /** Empties the slots of `lo, lo+1, ..., upTo` one after the other. */
  function ClearRange(slots: seq<Option<Bytes>>, lo: int, upTo: int): (r: seq<Option<Bytes>>)
    requires |slots| > 0
    ensures |r| == |slots|
    decreases upTo - lo
  {
    if lo > upTo then slots
    else ClearRange(slots[lo % |slots| := None], lo + 1, upTo)
  }

  /** A slot survives the clearing loop exactly when no cleared number maps to it. */
  lemma {:induction false} ClearRangeSlot(slots: seq<Option<Bytes>>, lo: int, upTo: int, i: int)
    requires 0 <= i < |slots|
    ensures (exists c :: lo <= c <= upTo && c % |slots| == i) ==> ClearRange(slots, lo, upTo)[i] == None
    ensures !(exists c :: lo <= c <= upTo && c % |slots| == i) ==> ClearRange(slots, lo, upTo)[i] == slots[i]
    decreases upTo - lo
  {
    if lo <= upTo {
      var slots' := slots[lo % |slots| := None];
      ClearRangeSlot(slots', lo + 1, upTo, i);
      if c :| lo <= c <= upTo && c % |slots| == i {
        if c != lo {
          assert lo + 1 <= c <= upTo && c % |slots'| == i;
        } else if !(exists d :: lo + 1 <= d <= upTo && d % |slots'| == i) {
          assert ClearRange(slots', lo + 1, upTo)[i] == slots'[i] == None;
        }
      } else {
        assert lo % |slots| != i;
        forall d | lo + 1 <= d <= upTo ensures d % |slots'| != i {
          assert lo <= d <= upTo;
        }
      }
    }
  }

  // ---------------------------------------------------------------------------
  // The window as a partial map
  // ---------------------------------------------------------------------------

  lemma DistinctSlots(w: Window, a: int, b: int)
    requires w.Valid() && w.InRange(a) && w.InRange(b) && a != b
    ensures a % |w.slots| != b % |w.slots|
  {
    ModDistinct(Min(a, b), Max(a, b), |w.slots|);
  }

  lemma PutIsMapUpdate(w: Window, s: int, chunk: Bytes)
    requires w.Valid()
    ensures w.Put(s, chunk).Contents() == if w.InRange(s) then w.Contents()[s := chunk] else w.Contents()
  {
    var w' := w.Put(s, chunk);
    if w.InRange(s) {
      forall t | w.InRange(t) && t != s
        ensures w'.slots[t % |w.slots|] == w.slots[t % |w.slots|]
      {
        DistinctSlots(w, s, t);
      }
      assert w'.Contents().Keys == w.Contents().Keys + {s};
    }
  }

  lemma LookupIsMapLookup(w: Window, s: int)
    requires w.Valid()
    ensures w.Lookup(s) == if s in w.Contents() then Some(w.Contents()[s]) else None
  {
  }

  /** Advancing drops the first number and makes room for one that is not there yet. */
  lemma AdvanceIsMapRemoval(w: Window)
    requires w.Valid()
    ensures w.Advance().Contents() == w.Contents() - {w.start}
    ensures w.Advance().start == if w.start in w.Contents() then w.start + 1 else w.start
  {
    var n, w' := |w.slots|, w.Advance();
    if w'.start != w.start {
      ModShift(w.start, n);
      forall t | w.InRange(t) && t != w.start
        ensures w'.slots[t % n] == w.slots[t % n]
      {
        DistinctSlots(w, w.start, t);
      }
      assert w'.slots[(w.start + n) % n] == None;
      assert w'.Contents().Keys == w.Contents().Keys - {w.start};
    }
  }

  /** Bulk advance removes the run of filled numbers at the front, stopping at the first gap or past `maxSeq`. */
  lemma {:induction false} BundleAdvanceIsMapRemoval(w: Window, maxSeq: int)
    requires w.Valid()
    ensures
      var w' := w.BundleAdvanceUpTo(maxSeq);
      && w'.Valid() && |w'.slots| == |w.slots|
      && w.start <= w'.start <= Max(w.start, maxSeq + 1)
      && (forall s :: w.start <= s < Min(w'.start, w.start + |w.slots|) ==> w.Lookup(s).Some?)
      && (w'.start <= maxSeq ==> w'.Lookup(w'.start) == None)
      && (forall s :: s >= w.start ==> w'.Lookup(s) == if s < w'.start then None else w.Lookup(s))
    decreases maxSeq - w.start
  {
    if w.start <= maxSeq && w.slots[w.start % |w.slots|].Some? {
      var w1, w' := w.Advance(), w.BundleAdvanceUpTo(maxSeq);
      BundleAdvanceIsMapRemoval(w1, maxSeq);
      forall s | s >= w.start
        ensures w1.Lookup(s) == if s == w.start then None else w.Lookup(s)
      {
        AdvanceLookup(w, s);
      }
    }
  }

  lemma AdvanceLookup(w: Window, s: int)
    requires w.Valid() && w.slots[w.start % |w.slots|].Some? && s >= w.start
    ensures w.Advance().Lookup(s) == if s == w.start then None else w.Lookup(s)
  {
    ModShift(w.start, |w.slots|);
    if w.InRange(s) && s != w.start {
      DistinctSlots(w, w.start, s);
    }
  }

  /** Removing up to `s` keeps exactly the numbers above `s`, as long as the window does not move back. */
  lemma RemoveUpToIsMapRemoval(w: Window, s: int)
    requires w.Valid() && s >= w.start - 1
    ensures w.RemoveUpTo(s).Contents() == map t | t in w.Contents() && t > s :: w.Contents()[t]
  {
    var n, w' := |w.slots|, w.RemoveUpTo(s);
    forall t | w'.InRange(t)
      ensures w'.slots[t % n] == if w.InRange(t) then w.slots[t % n] else None
    {
      ClearRangeSlot(w.slots, w.start, s, t % n);
      if w.InRange(t) {
        forall c | w.start <= c <= s ensures c % n != t % n {
          ModDistinct(c, t, n);
        }
      } else {
        // t is one of the numbers that just came into range: its slot was last used by an older one
        var c := Representative(t, w.start, n);
        assert w.start <= c <= s && c % n == t % n;
      }
    }
    assert w'.Contents().Keys == (map t | t in w.Contents() && t > s :: w.Contents()[t]).Keys;
  }

  /** The number with the residue of `t` in the window that starts at `start`. */
  function Representative(t: int, start: int, n: int): (c: int)
    requires n > 0 && t >= start
    ensures start <= c < start + n && c <= t && c % n == t % n
    decreases t - start
  {
    if t < start + n then t
    else
      ModShift(t - n, n);
      Representative(t - n, start, n)
  }

  /** Moving back instead: a number below the old start answers with the chunk stored one window later. */
  lemma RemoveBackwardsAliases(w: Window, s: int, t: int)
    requires w.Valid() && -1 <= s < w.start - 1
    requires s < t < w.start <= t + |w.slots| && t < s + 1 + |w.slots|
    ensures w.RemoveUpTo(s).Lookup(t) == w.Lookup(t + |w.slots|)
  {
    ModShift(t, |w.slots|);
  }

  // ---------------------------------------------------------------------------
  // The mutable buffer
  // ---------------------------------------------------------------------------

  ghost function SlotsOf(data: seq<Bytes>, filled: seq<bool>): seq<Option<Bytes>>
    requires |data| == |filled|
  {
    seq(|data|, i requires 0 <= i < |data| => if filled[i] then Some(data[i]) else None)
  }

  class WindowBuffer {
    var startSeq: int
    const size: nat
    const data: array<Bytes>
    const filled: array<bool>

    ghost predicate Valid()
      reads this, data, filled
    {
      && size > 0 && startSeq >= 0
      && data.Length == size && filled.Length == size
      && forall i :: 0 <= i < size && !filled[i] ==> data[i] == []
    }

    ghost function View(): (w: Window)
      requires Valid()
      reads this, data, filled
      ensures w.Valid() && |w.slots| == size && w.start == startSeq
      ensures forall i :: 0 <= i < size ==> w.slots[i] == if filled[i] then Some(data[i]) else None
    {
      Window(startSeq, SlotsOf(data[..], filled[..]))
    }

    constructor (startSeq: int, size: nat)
      requires size > 0 && startSeq >= 0
      ensures Valid() && fresh(data) && fresh(filled) && this.size == size
      ensures View() == EmptyWindow(startSeq, size)
    {
      this.startSeq := startSeq;
      this.size := size;
      data := new Bytes[size](_ => []);
      filled := new bool[size](_ => false);
    }

    method Put(s: int, value: Bytes) returns (ok: bool)
      requires Valid()
      modifies data, filled
      ensures Valid()
      ensures ok == old(View()).InRange(s)
      ensures View() == old(View()).Put(s, value)
    {
      if s < startSeq || s >= startSeq + size {
        return false;
      }
      var index := s % size;
      data[index] := value;
      filled[index] := true;
      assert View().slots == old(View()).Put(s, value).slots;
      return true;
    }

    method Get(s: int) returns (value: Bytes, ok: bool)
      requires Valid()
      ensures View().Lookup(s) == if ok then Some(value) else None
    {
      if s < startSeq || s >= startSeq + size {
        return [], false;
      }
      var index := s % size;
      if !filled[index] {
        return [], false;
      }
      return data[index], true;
    }

    method Advance() returns (ok: bool)
      requires Valid()
      modifies this`startSeq, data, filled
      ensures Valid()
      ensures ok == (old(View()).Lookup(old(startSeq)) != None)
      ensures View() == old(View()).Advance()
    {
      var index := startSeq % size;
      if !filled[index] {
        return false;
      }
      data[index] := [];
      filled[index] := false;
      startSeq := startSeq + 1;
      assert View().slots == old(View()).Advance().slots;
      return true;
    }

    method BundleAdvanceUpTo(maxSeq: int) returns (count: int)
      requires Valid()
      modifies this`startSeq, data, filled
      ensures Valid()
      ensures View() == old(View()).BundleAdvanceUpTo(maxSeq)
      ensures count == startSeq - old(startSeq)
    {
      count := 0;
      while startSeq <= maxSeq
        invariant Valid()
        invariant View().BundleAdvanceUpTo(maxSeq) == old(View()).BundleAdvanceUpTo(maxSeq)
        invariant count == startSeq - old(startSeq)
        decreases maxSeq - startSeq
      {
        ghost var before := View();
        var index := startSeq % size;
        if !filled[index] {
          break;
        }
        data[index] := [];
        filled[index] := false;
        startSeq := startSeq + 1;
        assert View().slots == before.Advance().slots;
        count := count + 1;
      }
    }

    method IsFilled(s: int) returns (r: bool)
      requires Valid()
      ensures r == (View().Lookup(s) != None)
    {
      var offset := s - startSeq;
      if offset < 0 || offset >= size {
        return false;
      }
      var index := s % size;
      return filled[index];
    }

    method RemoveUpTo(s: int)
      requires Valid() && s >= -1
      modifies this`startSeq, data, filled
      ensures Valid()
      ensures View() == old(View()).RemoveUpTo(s)
    {
      var t := startSeq;
      while t <= s
        invariant Valid() && startSeq == old(startSeq)
        invariant ClearRange(View().slots, t, s) == ClearRange(old(View()).slots, startSeq, s)
        decreases s - t
      {
        ghost var before := View().slots;
        var index := t % size;
        data[index] := [];
        filled[index] := false;
        assert View().slots == before[t % size := None];
        t := t + 1;
      }
      startSeq := s + 1;
    }

    method CanPut(s: int) returns (r: bool)
      requires Valid()
      ensures r == View().InRange(s)
    {
      return s >= startSeq && s < startSeq + size;
    }
  }
}
