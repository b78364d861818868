/**
 The log of a node as the program keeps it: an in-memory storage behind a dummy entry, an unstable
 tail that starts at `offset`, and the commit and apply indexes, all updated in place. Each method
 is proved against the function of RaftCore on the one log that storage and tail stand for.
 */
module RaftLogImpl {
  import opened Basics
  import C = RaftCore
  import opened RaftCluster

  type Entry = C.Entry
  type Log = C.Log

  datatype StorageError = Compacted | Unavailable
  datatype Result<+T> = Ok(value: T) | Err(error: StorageError) {
    function Error(): Option<StorageError> {
      match this
      case Ok(_) => None
      case Err(e) => Some(e)
    }
  }

  /** Entries numbered from `first` on, each of a real term. */
  ghost predicate Numbered(es: seq<Entry>, first: nat) {
    forall i :: 0 <= i < |es| ==> es[i].index == first + i && 1 <= es[i].term
  }

  /** A Ready's entries still fit: storage reaches them, and where the log still has the last it has all. */
  ghost predicate CanPersist(v: C.LogView, es: seq<C.Entry>) {
    es != [] ==>
      && v.stable < es[0].index <= |v.disk| + 1 && v.stable < |v.log|
      && Numbered(es, es[0].index)
      && (var d := C.Persisted(v, es);
          |d| <= |v.log| && C.TermAt(v.log, |d|) == C.LastTerm(d) ==> v.log[..|d|] == d)
  }

  lemma AppliedCanPersist(v: C.LogView, i: nat, es: seq<Entry>)
    requires CanPersist(v, es) && C.AppliedTo(v, i).Ok?
    ensures CanPersist(C.AppliedTo(v, i).value, es)
  {
    assert es != [] ==> C.Persisted(C.AppliedTo(v, i).value, es) == C.Persisted(v, es);
  }

  /** Where the stable part moves on to the last entry, storage holds just the log up to it. */
  lemma PersistedFits(v: C.LogView, es: seq<Entry>)
    requires es != [] && CanPersist(v, es)
    ensures C.StorageAppend(v, es) == C.Ok(v.(disk := C.Persisted(v, es)))
    ensures var e, w := es[|es| - 1], v.(disk := C.Persisted(v, es));
            && (C.StableTo(w, e.index, e.term).stable != w.stable ==> e.index <= |w.log| && w.disk == w.log[..e.index])
            && C.StableTo(w, e.index, e.term).log == v.log
  {
    var d := C.Persisted(v, es);
    assert d[|d| - 1] == es[|es| - 1];
  }

  /** A slice of two pieces is a slice of each. */
  lemma SliceOfTwo(a: Log, b: Log, i: nat, j: nat)
    requires i <= j <= |a| + |b|
    ensures (a + b)[i..j] == (if i < |a| then a[i..C.Min(|a|, j)] else [])
                             + (if j > |a| then b[(if i >= |a| then i - |a| else 0)..j - |a|] else [])
  {
  }

  lemma CutOfCut(l: Log, k: nat, i: nat, j: nat)
    requires i <= j <= k <= |l|
    ensures l[..k][i..j] == l[i..j]
  {
  }

  lemma NumberedTail(es: seq<Entry>, first: nat, i: nat)
    requires Numbered(es, first) && i <= |es|
    ensures Numbered(es[i..], first + i) && (i < |es| ==> es[i].index == first + i)
  {
  }

  // ---------------------------------------------------------------- storage

  class MemoryStorage {
    var entries: seq<Entry>

    ghost predicate Valid() reads this {
      entries != [] && entries[0].index == 0 && entries[0].term == 0 && Numbered(entries[1..], 1)
    }

    ghost function Disk(): Log
      requires Valid()
      reads this
    {
      entries[1..]
    }

    constructor ()
      ensures Valid() && Disk() == []
    {
      entries := [C.EMPTY_ENTRY];
    }

    method LastIndex() returns (i: nat)
      requires Valid()
      ensures i == |Disk()|
    {
      i := entries[0].index + |entries| - 1;
    }

    method FirstIndex() returns (i: nat)
      requires Valid()
      ensures i == 1
    {
      i := entries[0].index + 1;
    }

    method Entries(l: nat, r: nat) returns (res: Result<seq<Entry>>)
      requires Valid() && l <= r
      ensures res.Ok? <==> 1 <= l && r <= |Disk()| + 1 && Disk() != []
      ensures res.Ok? ==> res.value == Disk()[l - 1..r - 1]
    {
      var offset := entries[0].index;
      if l <= offset { return Err(Compacted); }
      var last := LastIndex();
      if r > last + 1 { return Err(Unavailable); }
      if |entries| == 1 { return Err(Unavailable); }
      return Ok(entries[l - offset..r - offset]);
    }

    method Term(i: nat) returns (res: Result<nat>)
      requires Valid()
      ensures res == if i <= |Disk()| then Ok(C.TermAt(Disk(), i)) else Err(Unavailable)
    {
      var offset := entries[0].index;
      if i < offset { return Err(Compacted); }
      if i - offset >= |entries| { return Err(Unavailable); }
      return Ok(entries[i - offset].term);
    }

    /** Storage keeps what lies below the first new entry, and nothing else. */
    method Append(es: seq<Entry>) returns (err: Option<StorageError>)
      requires Valid() && (es != [] ==> 1 <= es[0].index && Numbered(es, es[0].index))
      modifies this
      ensures Valid()
      ensures err.None? <==> es == [] || es[0].index <= old(|Disk()|) + 1
      ensures Disk() == if err.None? && es != [] then old(Disk())[..es[0].index - 1] + es else old(Disk())
    {
      if es == [] { return None; }
      var first, offset := es[0].index, entries[0].index;
      if first < offset { return None; }
      var last := LastIndex();
      if first > last + 1 { return Some(Unavailable); }
      ghost var disk := Disk();
      entries := entries[..first - offset] + es;
      assert entries[1..] == disk[..first - 1] + es;
      return None;
    }
  }

  // ---------------------------------------------------------------- the unstable tail

  class Unstable {
    var entries: seq<Entry>
    var offset: nat

    ghost predicate Valid() reads this {
      1 <= offset && Numbered(entries, offset)
    }

    constructor (offset: nat)
      requires 1 <= offset
      ensures Valid() && entries == [] && this.offset == offset
    {
      entries := [];
      this.offset := offset;
    }

    method Slice(l: nat, r: nat) returns (es: seq<Entry>)
      requires offset <= l <= r <= offset + |entries|
      ensures es == entries[l - offset..r - offset]
    {
      es := entries[l - offset..r - offset];
    }

    /** From the first new index on, the tail is the new entries; it may now start earlier. */
    method TruncateAndAppend(es: seq<Entry>)
      requires Valid() && es != [] && 1 <= es[0].index <= offset + |entries| && Numbered(es, es[0].index)
      modifies this
      ensures Valid() && entries != []
      ensures offset == C.Min(old(offset), es[0].index)
      ensures entries == (if es[0].index <= old(offset) then [] else old(entries)[..es[0].index - old(offset)]) + es
    {
      var after := es[0].index;
      if after == offset + |entries| {
        entries := entries + es;
      } else if after <= offset {
        offset := after;
        entries := es;
      } else {
        var kept := Slice(offset, after);
        entries := kept;
        entries := entries + es;
      }
    }

    method MaybeLastIndex() returns (i: nat, ok: bool)
      requires Valid()
      ensures ok <==> entries != []
      ensures ok ==> i == offset + |entries| - 1
    {
      if entries != [] { return offset + |entries| - 1, true; }
      return 0, false;
    }

    method MaybeTerm(i: nat) returns (t: nat, ok: bool)
      requires Valid()
      ensures ok <==> offset <= i < offset + |entries|
      ensures ok ==> t == entries[i - offset].term
    {
      if i < offset { return 0, false; }
      var last, some := MaybeLastIndex();
      if !some { return 0, false; }
      if i > last { return 0, false; }
      return entries[i - offset].term, true;
    }

    method StableTo(i: nat, t: nat)
      requires Valid()
      modifies this
      ensures Valid()
      ensures if old(offset) <= i < old(offset + |entries|) && old(entries)[i - old(offset)].term == t
              then offset == i + 1 && entries == old(entries)[i - old(offset) + 1..]
              else offset == old(offset) && entries == old(entries)
    {
      var gt, ok := MaybeTerm(i);
      if !ok { return; }
      if t == gt && i >= offset {
        entries := entries[i - offset + 1..];
        offset := i + 1;
      }
    }
  }

  // ---------------------------------------------------------------- the log

  class RaftLog {
    const storage: MemoryStorage
    const unstable: Unstable
    var commitIndex: nat
    var applyIndex: nat

    ghost predicate Valid() reads this, storage, unstable {
      && storage.Valid() && unstable.Valid()
      && unstable.offset <= |storage.Disk()| + 1
      && (unstable.entries == [] ==> unstable.offset == |storage.Disk()| + 1)
    }

    /** The log that storage below the offset and the tail stand for. */
    ghost function View(): C.LogView
      requires Valid()
      reads this, storage, unstable
    {
      C.LogView(storage.Disk()[..unstable.offset - 1] + unstable.entries, unstable.offset - 1,
                storage.Disk(), commitIndex, applyIndex)
    }

    lemma ViewReadsAsOneLog()
      requires Valid()
      ensures ReadsAsOneLog(View()) && Numbered(View().log, 1) && C.UnstableEntries(View()) == unstable.entries
    {
      var v := View();
      assert v.log[..v.stable] == v.disk[..v.stable];
    }

    constructor (storage: MemoryStorage)
      requires storage.Valid() && storage.Disk() == []
      ensures Valid() && this.storage == storage && fresh(unstable)
      ensures View() == C.LogView([], 0, [], 0, 0)
    {
      this.storage := storage;
      var first := storage.FirstIndex();
      var last := storage.LastIndex();
      unstable := new Unstable(last + 1);
      commitIndex := first - 1;
      applyIndex := first - 1;
      new;
      assert storage.Disk()[..unstable.offset - 1] + unstable.entries == [];
    }

    method FirstIndex() returns (i: nat)
      requires Valid()
      ensures i == 1
    {
      i := storage.FirstIndex();
    }

    method LastIndex() returns (i: nat)
      requires Valid()
      ensures i == |View().log|
    {
      var j, ok := unstable.MaybeLastIndex();
      if ok { return j; }
      i := storage.LastIndex();
    }

    method Term(i: nat) returns (t: nat, err: Option<StorageError>)
      requires Valid()
      ensures err.None? && t == C.TermAt(View().log, i)
    {
      var first := FirstIndex();
      var dummy := first - 1;
      var last := LastIndex();
      if i < dummy || i > last { return 0, None; }
      var u, ok := unstable.MaybeTerm(i);
      if ok && u != 0 {
        assert View().log[i - 1] == unstable.entries[i - unstable.offset];
        return u, None;
      }
      assert i < unstable.offset;
      assert i > 0 ==> View().log[i - 1] == storage.Disk()[i - 1];
      var r := storage.Term(i);
      t := if r.Ok? then r.value else 0;
      err := r.Error();
    }

    method LastTerm() returns (t: nat)
      requires Valid()
      ensures t == C.LastTerm(View().log)
    {
      var last := LastIndex();
      var e;
      t, e := Term(last);
    }

    method MatchTerm(i: nat, t: nat) returns (b: bool)
      requires Valid()
      ensures b == (C.TermAt(View().log, i) == t)
    {
      var u, err := Term(i);
      b := err.None? && u == t;
    }

    method IsUpToDate(index: nat, term: nat) returns (b: bool)
      requires Valid()
      ensures b == C.UpToDate(View().log, index, term)
    {
      var t := LastTerm();
      var i := LastIndex();
      b := term > t || (term == t && index >= i);
    }

    /** A slice across storage and tail is the slice of the one log. */
    method Slice(lo: nat, hi: nat) returns (es: seq<Entry>)
      requires Valid() && 1 <= lo <= hi <= |View().log| + 1
      ensures es == View().log[lo - 1..hi - 1]
    {
      hide Numbered;
      ghost var a, b := storage.Disk()[..unstable.offset - 1], unstable.entries;
      assert View().log == a + b;
      SliceOfTwo(a, b, lo - 1, hi - 1);
      if lo == hi { return []; }
      es := [];
      if lo < unstable.offset { es := FromStorage(lo, C.Min(unstable.offset, hi)); }
      if hi > unstable.offset {
        var tail := unstable.Slice(if lo >= unstable.offset then lo else unstable.offset, hi);
        es := es + tail;
      }
    }

    /** The part of a slice that storage holds. */
    method FromStorage(lo: nat, hi: nat) returns (es: seq<Entry>)
      requires Valid() && 1 <= lo <= hi <= unstable.offset && lo < unstable.offset
      ensures es == storage.Disk()[..unstable.offset - 1][lo - 1..hi - 1]
    {
      hide Numbered;
      var r := storage.Entries(lo, hi);
      match r {
        case Ok(stable) => es := stable;
        case Err(_) => assert false;
      }
      CutOfCut(storage.Disk(), unstable.offset - 1, lo - 1, hi - 1);
    }

    method Entries(i: nat) returns (es: seq<Entry>)
      requires Valid() && 1 <= i
      ensures es == if i > |View().log| then [] else View().log[i - 1..]
    {
      var last := LastIndex();
      if i > last { return []; }
      es := Slice(i, last + 1);
    }

    method Append(es: seq<Entry>) returns (last: nat)
      requires Valid() && C.Append(View(), es).Ok? && (es != [] ==> Numbered(es, es[0].index))
      modifies unstable
      ensures Valid() && View() == C.Append(old(View()), es).value && last == |View().log|
    {
      if es != [] {
        ghost var v := View();
        assert |v.log| == unstable.offset - 1 + |unstable.entries|;
        unstable.TruncateAndAppend(es);
        assert View().log == v.log[..es[0].index - 1] + es;
      }
      last := LastIndex();
    }

    method CommitTo(c: nat)
      requires Valid() && C.CommitTo(View(), c).Ok?
      modifies this
      ensures Valid() && View() == C.CommitTo(old(View()), c).value
    {
      if commitIndex >= c { return; }
      commitIndex := c;
    }

    method AppliedTo(i: nat)
      requires Valid() && C.AppliedTo(View(), i).Ok?
      modifies this
      ensures Valid() && View() == C.AppliedTo(old(View()), i).value
    {
      if i == 0 { return; }
      applyIndex := i;
    }

    method MaybeCommit(maxIndex: nat, term: nat) returns (committed: bool)
      requires Valid() && 1 <= term
      modifies this
      ensures Valid()
      ensures committed == (maxIndex > old(commitIndex) && C.TermAt(old(View()).log, maxIndex) == term)
      ensures View() == if committed then old(View()).(commit := maxIndex) else old(View())
    {
      if maxIndex > commitIndex {
        var t, _ := Term(maxIndex);
        if t == term {
          CommitTo(maxIndex);
          return true;
        }
      }
      return false;
    }

    method FindConflict(es: seq<Entry>) returns (k: nat)
      requires Valid()
      ensures k == C.FindConflict(View().log, es)
    {
      for i := 0 to |es|
        invariant C.FindConflict(View().log, es) == C.FindConflict(View().log, es[i..])
      {
        assert es[i..][1..] == es[i + 1..];
        var b := MatchTerm(es[i].index, es[i].term);
        if !b { return es[i].index; }
      }
      return 0;
    }

    method MaybeAppend(logIndex: nat, logTerm: nat, commit: nat, es: seq<Entry>) returns (last: nat, ok: bool)
      requires Valid() && Numbered(es, logIndex + 1)
      requires C.MaybeAppend(View(), logIndex, logTerm, commit, es).Ok?
      modifies this, unstable
      ensures Valid()
      ensures var o := C.MaybeAppend(old(View()), logIndex, logTerm, commit, es).value;
              && ok == o.Some?
              && View() == (if ok then o.value else old(View()))
              && (ok ==> last == logIndex + |es|)
    {
      hide C.FindConflict, C.TermAt, C.Append, C.CommitTo, Valid, View, Numbered;
      var b := MatchTerm(logIndex, logTerm);
      if !b { return 0, false; }
      last := logIndex + |es|;
      var k := FindConflict(es);
      if k != 0 {
        NumberedTail(es, logIndex + 1, k - logIndex - 1);
        var _ := Append(es[k - logIndex - 1..]);
      }
      CommitTo(C.Min(commit, last));
      ok := true;
    }

    /** The committed entries not yet applied, read from the one log. */
    method NextEntries() returns (es: seq<Entry>)
      requires Valid() && C.NextEntries(View()).Ok?
      ensures es == C.NextEntries(View()).value
    {
      var first := FirstIndex();
      var off := if applyIndex + 1 >= first then applyIndex + 1 else first;
      if commitIndex + 1 > off {
        es := Slice(off, commitIndex + 1);
      } else {
        es := [];
      }
    }

    method StableTo(i: nat, t: nat)
      requires Valid()
      requires C.StableTo(View(), i, t).stable != View().stable ==> View().disk == View().log[..i]
      modifies unstable
      ensures Valid() && View() == C.StableTo(old(View()), i, t)
    {
      ghost var v := View();
      assert unstable.offset <= i <= |v.log| ==> v.log[i - 1] == unstable.entries[i - unstable.offset];
      unstable.StableTo(i, t);
      assert C.StableTo(v, i, t).stable != v.stable ==> v.log == v.log[..i] + v.log[i..];
    }

    /** Persisting the entries of a Ready leaves the log unchanged, even when that Ready is stale. */
    method Persist(es: seq<Entry>, i: nat, t: nat)
      requires Valid() && es != [] && CanPersist(View(), es)
      requires i == es[|es| - 1].index && t == es[|es| - 1].term
      modifies storage, unstable
      ensures Valid() && View().log == old(View()).log
      ensures C.StorageAppend(old(View()), es).Ok?
      ensures View() == C.StableTo(C.StorageAppend(old(View()), es).value, i, t)
    {
      hide Valid, View, C.StableTo, CanPersist;
      PersistedFits(View(), es);
      StoreEntries(es);
      StableTo(i, t);
    }

    method StoreEntries(es: seq<Entry>)
      requires Valid() && es != [] && CanPersist(View(), es)
      modifies storage
      ensures Valid() && View() == old(View()).(disk := C.Persisted(old(View()), es))
    {
      ghost var v := View();
      assert C.Persisted(v, es)[..v.stable] == v.disk[..v.stable];
      var err := storage.Append(es);
    }
  }
}
