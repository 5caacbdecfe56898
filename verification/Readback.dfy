/** Materialising one version from a log: find it, walk back to the nearest full
    snapshot, apply diffs forward (src/records.rs). */
module Readback {
  import opened Bytes
  import opened Chain
  import opened ChainIo
  import opened StateCodec
  import opened Timeline
  import opened Wrappers

  /** The last entry at or before `slot`. */
  function NewestAt(es: seq<Entry>, slot: u64): (r: Option<nat>)
    ensures r.Some? ==> r.value < |es| && es[r.value].slot <= slot
    ensures forall i :: (if r.Some? then r.value + 1 else 0) <= i < |es| ==> es[i].slot > slot
  {
    if es == [] then None
    else if es[|es| - 1].slot <= slot then Some(|es| - 1)
    else NewestAt(es[..|es| - 1], slot)
  }

  /** Where the chain of diffs ending at `pos` starts. */
  function ChainStart(es: seq<Entry>, pos: nat): (start: nat)
    requires pos < |es|
    ensures start <= pos
  {
    if BaseKind(es[pos].kind) == DIFF && pos > 0 then ChainStart(es, pos - 1) else pos
  }

  /** The state after reading the records `[start, n)` from nothing. */
  function Replay(f: Foreign, file: seq<byte>, es: seq<Entry>, start: nat, n: nat)
    : Result<Option<AccountState>, StoreError>
    requires IsIndex(file, es) && start <= n <= |es|
  {
    if n == start then Ok(None)
    else
      var prev :- Replay(f, file, es, start, n - 1);
      EntriesInBounds(file, es, n - 1);
      Step(f, prev, es[n - 1].kind, Payload(file, es[n - 1]))
  }

  /** What a lookup of `slot` makes of any indexed bytes, decodable or not. */
  function ReadBack(f: Foreign, file: seq<byte>, es: seq<Entry>, slot: u64): Result<Option<Version>, StoreError>
    requires IsIndex(file, es)
  {
    match NewestAt(es, slot)
    case None => Ok(None)
    case Some(pos) =>
      if BaseKind(es[pos].kind) == ABSENT then Ok(Some(Version(es[pos].slot, None, true)))
      else
        var state :- Replay(f, file, es, ChainStart(es, pos), pos + 1);
        Ok(Some(Version(es[pos].slot, state, es[pos].kind < BALANCE_UNKNOWN)))
  }

  lemma {:induction false} ReplayStaysBroken(f: Foreign, file: seq<byte>, es: seq<Entry>, start: nat, k: nat, n: nat)
    requires IsIndex(file, es) && start <= k <= n <= |es|
    requires Replay(f, file, es, start, k).Err?
    ensures Replay(f, file, es, start, n) == Err(Replay(f, file, es, start, k).error)
  {
    hide Step, IsIndex;
    if k < n {
      ReplayStaysBroken(f, file, es, start, k, n - 1);
    }
  }

  lemma {:induction false} OffsetsAscend(file: seq<byte>, es: seq<Entry>, i: nat, k: nat)
    requires IsIndex(file, es) && i <= k < |es|
    ensures es[i].offset <= es[k].offset
    ensures i < k ==> es[i].offset + es[i].len <= es[k].offset
  {
    if i < k {
      OffsetsAscend(file, es, i, k - 1);
      assert Placed(file, es, k);
    }
  }

  lemma SliceWithin(b: seq<byte>, from: nat, to: nat, lo: nat, hi: nat)
    requires from <= lo <= hi <= to <= |b|
    ensures b[from..to][lo - from..hi - from] == b[lo..hi]
  {
    var inner := b[from..to];
    forall i | 0 <= i < hi - lo
      ensures inner[lo - from..hi - from][i] == b[lo..hi][i]
    {
      assert inner[lo - from + i] == b[lo + i];
    }
  }

  /** Reads only the chain's bytes, `[from, to)` of the file. */
  method ReadVersion(f: Foreign, file: seq<byte>, entries: seq<Entry>, slot: u64)
    returns (r: Result<Option<Version>, StoreError>)
    requires IsIndex(file, entries)
    ensures r == ReadBack(f, file, entries, slot)
  {
    hide Step, IsIndex;
    var found := NewestAt(entries, slot);
    if found.None? {
      return Ok(None);
    }
    var pos := found.value;
    var target := entries[pos];
    if BaseKind(target.kind) == ABSENT {
      return Ok(Some(Version(target.slot, None, true)));
    }
    var start := pos;
    while BaseKind(entries[start].kind) == DIFF && start > 0
      invariant start <= pos && ChainStart(entries, start) == ChainStart(entries, pos)
    {
      start := start - 1;
    }
    var from := entries[start].offset;
    OffsetsAscend(file, entries, start, pos);
    EntriesInBounds(file, entries, pos);
    var bytes := file[from..target.offset + target.len];
    var current: Option<AccountState> := None;
    var k := start;
    while k <= pos
      invariant start <= k <= pos + 1
      invariant Replay(f, file, entries, start, k) == Ok(current)
    {
      var e := entries[k];
      OffsetsAscend(file, entries, start, k);
      OffsetsAscend(file, entries, k, pos);
      EntriesInBounds(file, entries, k);
      SliceWithin(file, from, target.offset + target.len, e.offset, e.offset + e.len);
      var next := Step(f, current, e.kind, bytes[e.offset - from..e.offset - from + e.len]);
      assert Replay(f, file, entries, start, k + 1) == next;
      if next.Err? {
        ReplayStaysBroken(f, file, entries, start, k + 1, pos + 1);
        return Err(next.error);
      }
      current := next.value;
      k := k + 1;
    }
    return Ok(Some(Version(target.slot, current, target.kind < BALANCE_UNKNOWN)));
  }

  // ---------------------------------------------------------------------------
  // On a whole log

  /** The run of diffs before a record is what a lookup of it replays. */
  lemma {:induction false} ChainIsRun(es: seq<Entry>, pos: nat)
    requires pos < |es| && BaseKind(es[0].kind) != DIFF
    ensures pos - ChainStart(es, pos) == DiffRun(es, pos + 1)
    ensures BaseKind(es[ChainStart(es, pos)].kind) != DIFF
  {
    if BaseKind(es[pos].kind) == DIFF && pos > 0 {
      ChainIsRun(es, pos - 1);
    }
  }

  lemma StartsWhole(f: Foreign, file: seq<byte>, es: seq<Entry>, vs: seq<Version>)
    requires IsLog(f, file, es, vs) && es != []
    ensures BaseKind(es[0].kind) != DIFF
  {
    SelfContained(f, None, file, es, vs);
  }

  /** No lookup replays more than fifty diffs. */
  lemma ShortReplays(f: Foreign, file: seq<byte>, es: seq<Entry>, vs: seq<Version>, pos: nat)
    requires IsLog(f, file, es, vs) && pos < |es|
    ensures pos - ChainStart(es, pos) <= FULL_EVERY
  {
    StartsWhole(f, file, es, vs);
    ChainIsRun(es, pos);
  }

  lemma {:induction false} ReplayOfLog(f: Foreign, file: seq<byte>, es: seq<Entry>, vs: seq<Version>, start: nat,
                                       n: nat)
    requires IsLog(f, file, es, vs) && start < n <= |es|
    requires BaseKind(es[start].kind) != DIFF
    ensures Replay(f, file, es, start, n) == Ok(vs[n - 1].state)
  {
    hide IsLog, IsIndex;
    IsLogIndex(f, file, es, vs);
    NextOfLog(f, file, es, vs, n - 1);
    if n - 1 > start {
      ReplayOfLog(f, file, es, vs, start, n - 1);
    } else {
      assert Replay(f, file, es, start, start) == Ok(None);
    }
  }

  lemma LogEntry(f: Foreign, file: seq<byte>, es: seq<Entry>, vs: seq<Version>, i: nat)
    requires IsLog(f, file, es, vs) && i < |es|
    ensures es[i].slot == vs[i].slot && KindFits(es[i].kind, vs[i])
  {
    assert StoresAt(f, None, file, es, vs, i);
  }

  /** Reading a log back is looking its versions up. */
  lemma ReadBackOfLog(f: Foreign, file: seq<byte>, es: seq<Entry>, vs: seq<Version>, slot: u64)
    requires IsLog(f, file, es, vs)
    ensures IsIndex(file, es) && ReadBack(f, file, es, slot) == Ok(Lookup(vs, slot))
  {
    hide IsLog, IsIndex, Replay;
    IsLogIndex(f, file, es, vs);
    var found := NewestAt(es, slot);
    forall i | 0 <= i < |es|
      ensures es[i].slot == vs[i].slot
    {
      LogEntry(f, file, es, vs, i);
    }
    if found.None? {
      AnswerIsLookup(vs, slot, None);
    } else {
      var pos := found.value;
      LookupByPosition(vs, slot, pos);
      LogEntry(f, file, es, vs, pos);
      StartsWhole(f, file, es, vs);
      ChainIsRun(es, pos);
      ReplayOfLog(f, file, es, vs, ChainStart(es, pos), pos + 1);
    }
  }
}
