/** What a log reads as after a crash cut it short, and what is lost when it is
    appended to before the tear is gone (src/records.rs). */
module TornTail {
  import opened Bytes
  import opened Chain
  import opened ChainIo
  import opened Readback
  import opened StateCodec
  import opened Timeline
  import opened Wrappers

  /** `tail` is not the start of a whole record. */
  predicate Torn(clean: seq<byte>, tail: seq<byte>) {
    !Complete(clean + tail, |clean|)
  }

  lemma TornIndex(clean: seq<byte>, es: seq<Entry>, tail: seq<byte>)
    requires IsIndex(clean, es) && EndsClean(clean, es) && Torn(clean, tail)
    ensures IsIndex(clean + tail, es)
  {
    forall i | 0 <= i < |es|
      ensures Placed(clean + tail, es, i)
    {
      assert Placed(clean, es, i);
      HeaderKept(clean, tail, Start(es, i));
    }
  }

  lemma {:induction false} ReplayIgnoresTail(f: Foreign, clean: seq<byte>, tail: seq<byte>, es: seq<Entry>,
                                             start: nat, n: nat)
    requires IsIndex(clean, es) && IsIndex(clean + tail, es) && start <= n <= |es|
    ensures Replay(f, clean + tail, es, start, n) == Replay(f, clean, es, start, n)
  {
    hide Step, IsIndex;
    if start < n {
      ReplayIgnoresTail(f, clean, tail, es, start, n - 1);
      EntriesInBounds(clean, es, n - 1);
      assert Payload(clean + tail, es[n - 1]) == Payload(clean, es[n - 1]);
    }
  }

  /** A log with a torn tail is indexed and read as if the tail were not there. */
  lemma TornLogReads(f: Foreign, clean: seq<byte>, es: seq<Entry>, vs: seq<Version>, tail: seq<byte>, slot: u64)
    requires IsLog(f, clean, es, vs) && Torn(clean, tail)
    ensures IsIndex(clean + tail, es)
    ensures ReadBack(f, clean + tail, es, slot) == Ok(Lookup(vs, slot))
  {
    hide IsIndex, Replay;
    LogIndexClean(f, clean, es, vs);
    TornIndex(clean, es, tail);
    ReadBackOfLog(f, clean, es, vs, slot);
    var found := NewestAt(es, slot);
    if found.Some? {
      ReplayIgnoresTail(f, clean, tail, es, ChainStart(es, found.value), found.value + 1);
    }
  }

  lemma LogIndexClean(f: Foreign, bytes: seq<byte>, es: seq<Entry>, vs: seq<Version>)
    requires IsLog(f, bytes, es, vs)
    ensures IsIndex(bytes, es) && EndsClean(bytes, es) && |es| == |vs|
  {
  }

  // ---------------------------------------------------------------------------
  // A crash at any byte

  lemma {:induction false} StartsAscend(file: seq<byte>, es: seq<Entry>, i: nat, k: nat)
    requires IsIndex(file, es) && i <= k <= |es|
    ensures Start(es, i) <= Start(es, k) <= |file|
  {
    if k > 0 {
      assert Placed(file, es, k - 1);
    }
    if i < k {
      StartsAscend(file, es, i, k - 1);
    }
  }

  /** How many whole records fit in the first `n` bytes. */
  function WholeRecords(es: seq<Entry>, n: nat): (k: nat)
    ensures k <= |es|
  {
    if es == [] then 0
    else if Start(es, |es|) <= n then |es|
    else WholeRecords(es[..|es| - 1], n)
  }

  lemma {:induction false} WholeRecordsBound(es: seq<Entry>, n: nat)
    ensures var k := WholeRecords(es, n);
            Start(es, k) <= n && (k < |es| ==> n < Start(es, k + 1))
  {
    if es != [] && Start(es, |es|) > n {
      var rest := es[..|es| - 1];
      WholeRecordsBound(rest, n);
      assert Start(es, WholeRecords(rest, n)) == Start(rest, WholeRecords(rest, n));
    }
  }

  /** The first `k` records of a log are a log. */
  lemma LogPrefix(f: Foreign, file: seq<byte>, es: seq<Entry>, vs: seq<Version>, k: nat)
    requires IsLog(f, file, es, vs) && k <= |es|
    ensures Start(es, k) <= |file|
    ensures IsLog(f, file[..Start(es, k)], es[..k], vs[..k])
  {
    StartsAscend(file, es, k, k);
    var cut := file[..Start(es, k)];
    forall i | 0 <= i < k
      ensures Placed(cut, es[..k], i) && StoresAt(f, None, cut, es[..k], vs[..k], i)
    {
      PrefixEntry(f, file, es, vs, k, i);
    }
    PrefixRuns(es, k);
  }

  lemma PrefixEntry(f: Foreign, file: seq<byte>, es: seq<Entry>, vs: seq<Version>, k: nat, i: nat)
    requires IsLog(f, file, es, vs) && i < k <= |es| && Start(es, k) <= |file|
    ensures Placed(file[..Start(es, k)], es[..k], i)
    ensures StoresAt(f, None, file[..Start(es, k)], es[..k], vs[..k], i)
  {
    hide Step, ShortRuns, Ascending, Storable;
    var cut := file[..Start(es, k)];
    assert Placed(file, es, i) && StoresAt(f, None, file, es, vs, i);
    StartsAscend(file, es, i + 1, k);
    var at := Start(es, i);
    CutSlice(file, Start(es, k), at, at + 8);
    CutSlice(file, Start(es, k), at + 9, at + 13);
    assert Start(es[..k], i) == at;
    assert Payload(cut, es[i]) == Payload(file, es[i]);
    assert Before(None, vs[..k], i) == Before(None, vs, i);
  }

  lemma CutSlice(b: seq<byte>, n: nat, lo: nat, hi: nat)
    requires lo <= hi <= n <= |b|
    ensures b[..n][lo..hi] == b[lo..hi]
  {
    var cut := b[..n];
    forall i | 0 <= i < hi - lo
      ensures cut[lo..hi][i] == b[lo..hi][i]
    {
      assert cut[lo + i] == b[lo + i];
    }
  }

  lemma PrefixRuns(es: seq<Entry>, k: nat)
    requires ShortRuns(es) && k <= |es|
    ensures ShortRuns(es[..k])
  {
    assert es == es[..k] + es[k..];
    forall n | 0 <= n <= k
      ensures DiffRun(es[..k], n) <= FULL_EVERY
    {
      DiffRunInPrefix(es[..k], es[k..], n);
    }
  }

  /** Cut anywhere, a log reads as its whole records and nothing else. */
  lemma CrashAnywhere(f: Foreign, file: seq<byte>, es: seq<Entry>, vs: seq<Version>, n: nat, slot: u64)
    requires IsLog(f, file, es, vs) && n <= |file|
    ensures var k := WholeRecords(es, n);
            && k <= |vs|
            && IsIndex(file[..n], es[..k])
            && ReadBack(f, file[..n], es[..k], slot) == Ok(Lookup(vs[..k], slot))
  {
    hide IsIndex, ReadBack, Start;
    LogIndexClean(f, file, es, vs);
    var k := WholeRecords(es, n);
    WholeRecordsBound(es, n);
    LogPrefix(f, file, es, vs, k);
    var clean, tail := file[..Start(es, k)], file[Start(es, k)..n];
    assert file[..n] == clean + tail;
    CutIsTorn(f, file, es, vs, n, k);
    TornLogReads(f, clean, es[..k], vs[..k], tail, slot);
  }

  lemma CutIsTorn(f: Foreign, file: seq<byte>, es: seq<Entry>, vs: seq<Version>, n: nat, k: nat)
    requires IsLog(f, file, es, vs) && k <= |es| && Start(es, k) <= n <= |file|
    requires k < |es| ==> n < Start(es, k + 1)
    ensures !Complete(file[..n], Start(es, k))
  {
    hide Decodes, ShortRuns, Ascending;
    var at := Start(es, k);
    assert file == file[..n] + file[n..];
    if k < |es| {
      EntryEnds(file, es, k);
    }
    if Complete(file[..n], at) {
      HeaderKept(file[..n], file[n..], at);
    }
  }

  lemma EntryEnds(file: seq<byte>, es: seq<Entry>, k: nat)
    requires IsIndex(file, es) && k < |es|
    ensures Complete(file, Start(es, k)) && es[k].offset == Start(es, k) + HEADER_LEN
    ensures Start(es, k + 1) == Start(es, k) + HEADER_LEN + EntryAt(file, Start(es, k)).len
  {
    assert Placed(file, es, k);
  }

  // ---------------------------------------------------------------------------
  // Appending after the tear

  /** What was whole stays whole, whatever follows. */
  lemma {:induction false} EntriesStay(clean: seq<byte>, es: seq<Entry>, more: seq<byte>, disk: seq<Entry>, n: nat)
    requires IsIndex(clean, es) && IsIndex(clean + more, disk) && n <= |es|
    ensures n <= |disk| && disk[..n] == es[..n] && Start(disk, n) == Start(es, n)
  {
    hide Complete;
    if n > 0 {
      EntriesStay(clean, es, more, disk, n - 1);
      assert Placed(clean, es, n - 1);
      HeaderKept(clean, more, Start(es, n - 1));
      assert Placed(clean + more, disk, n - 1);
      assert es[..n] == es[..n - 1] + [es[n - 1]] && disk[..n] == disk[..n - 1] + [disk[n - 1]];
    }
  }

  lemma HeaderCutBack(bytes: seq<byte>, more: seq<byte>, at: nat)
    requires Complete(bytes + more, at) && at + HEADER_LEN + EntryAt(bytes + more, at).len <= |bytes|
    ensures Complete(bytes, at)
  {
    assert (bytes + more)[at + 9..at + 13] == bytes[at + 9..at + 13];
  }

  /** No record of the file starts where one was appended after a tear. */
  lemma NoneStartsThere(clean: seq<byte>, es: seq<Entry>, tail: seq<byte>, more: seq<byte>, disk: seq<Entry>, i: nat)
    requires IsIndex(clean, es) && EndsClean(clean, es) && Torn(clean, tail) && tail != []
    requires IsIndex(clean + tail + more, disk) && i <= |disk|
    ensures Start(disk, i) != |clean + tail|
  {
    hide Complete;
    var n, file := |es|, clean + tail + more;
    assert file == clean + (tail + more);
    EntriesStay(clean, es, tail + more, disk, n);
    if i <= n {
      StartsAscend(file, disk, i, n);
    } else {
      EntryEnds(file, disk, n);
      StartsAscend(file, disk, n + 1, i);
      if Start(disk, n + 1) <= |clean + tail| {
        HeaderCutBack(clean + tail, more, |clean|);
      }
    }
  }

  /** Opening ignores a torn tail but leaves it in the file, and records go after it.
      Whatever the file then parses to begins with the records there were; and it has
      the record appended, where it was appended, exactly when there was no tail. */
  lemma AppendAfterTear(clean: seq<byte>, es: seq<Entry>, tail: seq<byte>,
                        slot: u64, kind: byte, payload: seq<byte>, disk: seq<Entry>)
    requires IsIndex(clean, es) && EndsClean(clean, es) && Torn(clean, tail)
    requires |payload| < U32_LIMIT
    requires IsIndex(clean + tail + EncodeRecord(slot, kind, payload), disk)
    ensures es <= disk
    ensures var appended := Entry(slot, kind, |clean + tail| + HEADER_LEN, |payload|);
            && (disk == es + [appended] <==> tail == [])
            && (tail != [] ==> forall e <- disk :: e.offset != appended.offset)
  {
    hide EncodeRecord, Complete;
    var r := EncodeRecord(slot, kind, payload);
    var file := clean + tail + r;
    assert file == clean + (tail + r);
    EntriesStay(clean, es, tail + r, disk, |es|);
    if tail == [] {
      RecordReadsBack(slot, kind, payload);
      var e := Entry(slot, kind, HEADER_LEN, |payload|);
      IndexOfConcat(clean, es, r, [e]);
      assert file == clean + r;
      IndexIsUnique(file, disk, es + ShiftAll([e], |clean|));
    } else {
      forall e <- disk ensures e.offset != |clean + tail| + HEADER_LEN {
        var i :| 0 <= i < |disk| && disk[i] == e;
        NoneStartsThere(clean, es, tail, r, disk, i);
        EntryEnds(file, disk, i);
      }
      assert disk != es + [Entry(slot, kind, |clean + tail| + HEADER_LEN, |payload|)] by {
        assert (es + [Entry(slot, kind, |clean + tail| + HEADER_LEN, |payload|)])[|es|].offset
              == |clean + tail| + HEADER_LEN;
      }
    }
  }

  /** One byte left by a crash, and then an absence recorded at slot 1: the next opening
      finds an empty log. */
  lemma OneByteHidesARecord()
    ensures Torn([], [0]) && IsIndex([0] + EncodeRecord(1, ABSENT, []), [])
  {
    var r := EncodeRecord(1, ABSENT, []);
    var file := [0] + r;
    assert r[8] == ABSENT;
    assert file[9] == r[8] && file[9..13][0] == file[9];
    AtLeastFirst(file[9..13]);
  }

  lemma AtLeastFirst(b: seq<byte>)
    requires |b| == 4
    ensures ReadU32(b) >= b[0]
  {
  }
}
