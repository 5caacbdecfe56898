/** Writing and walking one account's chain a version at a time (src/records.rs). */
module ChainIo {
  import opened Bytes
  import opened Chain
  import opened StateCodec
  import opened Timeline
  import opened Wrappers

  /** Encodes a chain one version at a time, keeping only the previous state. */
  class ChainWriter {
    const f: Foreign
    var out: seq<byte>
    var prev: Option<AccountState>
    var sinceFull: nat
    var count: nat
    ghost var entries: seq<Entry>
    ghost var versions: seq<Version>

    ghost predicate Valid()
      reads this
    {
      && Sound(f) && IsLog(f, out, entries, versions)
      && prev == LastState(versions) && count == |versions|
      && DiffRun(entries, |entries|) <= sinceFull
    }

    constructor (f: Foreign)
      requires Sound(f)
      ensures Valid() && versions == [] && out == [] && this.f == f
    {
      this.f := f;
      out, prev, sinceFull, count := [], None, 0, 0;
      entries, versions := [], [];
      new;
      EmptyLog(f);
    }

    /** A newer version whose payload fits. */
    ghost predicate Takes(slot: u64, state: Option<AccountState>)
      reads this
    {
      StorableOrAbsent(f, state) && (versions == [] || versions[|versions| - 1].slot < slot)
    }

    /** The balance mark is not carried: what is pushed reads back as observed. */
    method Push(slot: u64, state: Option<AccountState>)
      modifies this
      ensures old(Valid() && Takes(slot, state)) ==>
                Valid() && versions == old(versions) + [Version(slot, state, true)]
    {
      hide IsLog, EncodeNext, EncodeRecord, Sound, LastState, StorableOrAbsent;
      var (kind, payload) := EncodeNext(f, prev, sinceFull, state);
      if Valid() && Takes(slot, state) {
        PushedLog(f, out, entries, versions, sinceFull, slot, state);
      }
      entries := entries + [Entry(slot, kind, |out| + HEADER_LEN, |payload|)];
      versions := versions + [Version(slot, state, true)];
      sinceFull := if BaseKind(kind) == FULL then 0 else sinceFull + 1;
      prev := state;
      out := out + EncodeRecord(slot, kind, payload);
      count := count + 1;
    }
  }

  /** A log with one more version pushed. */
  lemma PushedLog(f: Foreign, out: seq<byte>, es: seq<Entry>, vs: seq<Version>, sinceFull: nat,
                  slot: u64, state: Option<AccountState>)
    requires Sound(f) && IsLog(f, out, es, vs) && DiffRun(es, |es|) <= sinceFull
    requires StorableOrAbsent(f, state) && (vs == [] || vs[|vs| - 1].slot < slot)
    ensures var (kind, payload) := EncodeNext(f, LastState(vs), sinceFull, state);
            var more := es + [Entry(slot, kind, |out| + HEADER_LEN, |payload|)];
            && IsLog(f, out + EncodeRecord(slot, kind, payload), more, vs + [Version(slot, state, true)])
            && LastState(vs + [Version(slot, state, true)]) == state
            && DiffRun(more, |more|) <= if BaseKind(kind) == FULL then 0 else sinceFull + 1
  {
    hide IsLog, EncodeNext, EncodeRecord, Sound, StorableOrAbsent;
    var (kind, payload) := EncodeNext(f, LastState(vs), sinceFull, state);
    var e := Entry(slot, kind, |out| + HEADER_LEN, |payload|);
    AppendVersion(f, out, es, vs, sinceFull, Version(slot, state, true));
    NextDecodes(f, LastState(vs), sinceFull, state, false);
    DiffRunInPrefix(es, [e], |es|);
  }

  lemma EntriesInBounds(bytes: seq<byte>, es: seq<Entry>, i: nat)
    requires IsIndex(bytes, es) && i < |es|
    ensures es[i].offset + es[i].len <= |bytes|
  {
    assert Placed(bytes, es, i);
  }

  /** A log walked one version at a time, so that two logs can be merged in slot
      order with one state each in memory. */
  class VersionWalker {
    const f: Foreign
    const bytes: seq<byte>
    var entries: seq<Entry>
    var at: nat
    var current: Option<AccountState>

    ghost predicate Valid()
      reads this
    {
      IsIndex(bytes, entries) && at <= |entries|
    }

    constructor (f: Foreign, bytes: seq<byte>)
      ensures Valid() && at == 0 && current == None && this.bytes == bytes && this.f == f
    {
      this.f, this.bytes := f, bytes;
      var es := IndexOf(bytes);
      entries, at, current := es, 0, None;
    }

    function PeekSlot(): (r: Option<u64>)
      reads this
      requires Valid()
      ensures r.None? <==> at == |entries|
      ensures r.Some? ==> r.value == entries[at].slot
    {
      if at < |entries| then Some(entries[at].slot) else None
    }

    /** The next version, or nothing at the end; a record that does not decode is
        an error. */
    method Next() returns (r: Result<Option<(u64, Option<AccountState>)>, StoreError>)
      requires Valid()
      modifies this`at, this`current
      ensures Valid()
      ensures old(at) == |entries| ==> r == Ok(None) && at == old(at) && current == old(current)
      ensures old(at) < |entries| ==>
                var e := entries[old(at)];
                && at == old(at) + 1
                && e.offset + e.len <= |bytes|
                && match Step(f, old(current), e.kind, Payload(bytes, e))
                   case Err(error) => r == Err(error)
                   case Ok(state) => r == Ok(Some((e.slot, state))) && current == state
    {
      if at == |entries| {
        return Ok(None);
      }
      var e := entries[at];
      EntriesInBounds(bytes, entries, at);
      at := at + 1;
      var next := Step(f, current, e.kind, Payload(bytes, e));
      if next.Err? {
        return Err(next.error);
      }
      current := next.value;
      return Ok(Some((e.slot, current)));
    }
  }

  /** The state after the first `n` records, walked from `init`, or the first error. */
  function Walked(f: Foreign, init: Option<AccountState>, bytes: seq<byte>, es: seq<Entry>, n: nat)
    : Result<Option<AccountState>, StoreError>
    requires IsIndex(bytes, es) && n <= |es|
  {
    if n == 0 then Ok(init)
    else
      var prev :- Walked(f, init, bytes, es, n - 1);
      EntriesInBounds(bytes, es, n - 1);
      Step(f, prev, es[n - 1].kind, Payload(bytes, es[n - 1]))
  }

  /** What a pass over a whole log comes to: nothing, or the first error. */
  function Passed(f: Foreign, bytes: seq<byte>, es: seq<Entry>): Result<(), StoreError>
    requires IsIndex(bytes, es)
  {
    var _ :- Walked(f, None, bytes, es, |es|);
    Ok(())
  }

  /** An error met on the way is what a pass comes to. */
  lemma {:induction false} WalkStaysBroken(f: Foreign, init: Option<AccountState>, bytes: seq<byte>,
                                           es: seq<Entry>, k: nat, n: nat)
    requires IsIndex(bytes, es) && k <= n <= |es| && Walked(f, init, bytes, es, k).Err?
    ensures Walked(f, init, bytes, es, n) == Err(Walked(f, init, bytes, es, k).error)
  {
    hide Step, IsIndex;
    if k < n {
      WalkStaysBroken(f, init, bytes, es, k, n - 1);
    }
  }

  lemma NextOfLog(f: Foreign, bytes: seq<byte>, es: seq<Entry>, vs: seq<Version>, i: nat)
    requires IsLog(f, bytes, es, vs) && i < |es|
    ensures es[i].offset + es[i].len <= |bytes| && es[i].slot == vs[i].slot
    ensures Step(f, Before(None, vs, i), es[i].kind, Payload(bytes, es[i])) == Ok(vs[i].state)
    ensures StorableOrAbsent(f, vs[i].state)
  {
    assert StoresAt(f, None, bytes, es, vs, i);
  }

  /** A log decodes all the way. */
  lemma {:induction false} LogWalks(f: Foreign, bytes: seq<byte>, es: seq<Entry>, vs: seq<Version>, n: nat)
    requires IsLog(f, bytes, es, vs) && n <= |es|
    ensures IsIndex(bytes, es) && |es| == |vs|
    ensures Walked(f, None, bytes, es, n) == Ok(Before(None, vs, n))
  {
    hide IsLog, Step;
    IsLogIndex(f, bytes, es, vs);
    if n > 0 {
      LogWalks(f, bytes, es, vs, n - 1);
      NextOfLog(f, bytes, es, vs, n - 1);
    }
  }

  /** Which versions a pass picks, by position and slot. */
  function Picked(vs: seq<Version>, pick: (nat, u64) -> bool): (keep: seq<bool>)
    ensures |keep| == |vs|
    ensures forall i :: 0 <= i < |vs| ==> keep[i] == pick(i, vs[i].slot)
  {
    seq(|vs|, i requires 0 <= i < |vs| => pick(i, vs[i].slot))
  }

  /** One pass over any bytes, one state in memory, the picked versions re-encoded as they
      go by; a record that does not decode ends it. */
  method CopyVersions(f: Foreign, bytes: seq<byte>, pick: (nat, u64) -> bool, w: ChainWriter,
                      ghost es: seq<Entry>, ghost vs: seq<Version>)
    returns (r: Result<(), StoreError>)
    requires IsIndex(bytes, es)
    requires w.Valid() && w.f == f && w.versions == []
    modifies w
    ensures r == Passed(f, bytes, es)
    ensures IsLog(f, bytes, es, vs) ==> r.Ok? && w.Valid() && w.versions == Rewrite(vs, Picked(vs, pick))
  {
    hide IsLog, Sound, Step, ChainWriter.Valid, Before, IsIndex, Rewrite, StorableOrAbsent;
    var walker := new VersionWalker(f, bytes);
    IndexIsUnique(bytes, es, walker.entries);
    ghost var keep := Picked(vs, pick);
    ghost var whole := IsLog(f, bytes, es, vs);
    RewriteNone(vs, keep);
    if whole {
      IsLogIndex(f, bytes, es, vs);
    }
    var i := 0;
    r := Ok(());
    while i < |walker.entries| && r.Ok?
      invariant i <= |walker.entries| && walker.Valid() && walker.f == f && walker.entries == es
      invariant r.Ok? ==> r == Ok(()) && walker.at == i && AheadOf(f, walker)
      invariant r.Err? ==> Passed(f, bytes, es) == r
      invariant whole ==> r.Ok? && |vs| == |es| && w.Valid() && w.versions == Rewrite(vs[..i], keep[..i])
      invariant w.f == f
      decreases |es| - i, r.Ok?
    {
      if whole {
        CopyNext(f, bytes, es, vs, keep, i);
      }
      var next := NextVersion(f, walker);
      if next.Err? {
        r := Err(next.error);
      } else {
        var (slot, state) := next.value;
        if pick(i, slot) {
          w.Push(slot, state);
        }
        i := i + 1;
      }
    }
    if whole {
      assert vs[..|vs|] == vs && keep[..|vs|] == keep;
    }
  }

  lemma RewriteNone(vs: seq<Version>, keep: seq<bool>)
    requires |vs| == |keep|
    ensures Rewrite(vs[..0], keep[..0]) == []
  {
  }

  /** The next version of a log, and what a rewrite does with it. */
  lemma CopyNext(f: Foreign, bytes: seq<byte>, es: seq<Entry>, vs: seq<Version>, keep: seq<bool>, i: nat)
    requires IsLog(f, bytes, es, vs) && |keep| == |vs| && i < |es|
    ensures IsIndex(bytes, es) && |es| == |vs|
    ensures Walked(f, None, bytes, es, i + 1) == Ok(vs[i].state) && es[i].slot == vs[i].slot
    ensures StorableOrAbsent(f, vs[i].state)
    ensures var out := Rewrite(vs[..i], keep[..i]);
            && (out == [] || out[|out| - 1].slot < vs[i].slot)
            && Rewrite(vs[..i + 1], keep[..i + 1])
               == out + if keep[i] then [Version(vs[i].slot, vs[i].state, true)] else []
  {
    hide IsLog, Rewrite, Walked;
    IsLogIndex(f, bytes, es, vs);
    LogWalks(f, bytes, es, vs, i + 1);
    NextOfLog(f, bytes, es, vs, i);
    RewriteStep(f, vs, keep, i);
  }

  lemma IsLogIndex(f: Foreign, bytes: seq<byte>, es: seq<Entry>, vs: seq<Version>)
    requires IsLog(f, bytes, es, vs)
    ensures IsIndex(bytes, es) && |es| == |vs| && Ascending(vs)
  {
  }

  /** What one more version adds to a rewrite, and where it may be pushed. */
  lemma RewriteStep(f: Foreign, vs: seq<Version>, keep: seq<bool>, i: nat)
    requires |vs| == |keep| && i < |vs| && Ascending(vs)
    ensures Rewrite(vs[..i + 1], keep[..i + 1])
         == Rewrite(vs[..i], keep[..i])
            + if keep[i] then [Version(vs[i].slot, vs[i].state, true)] else []
    ensures var out := Rewrite(vs[..i], keep[..i]);
            out == [] || out[|out| - 1].slot < vs[i].slot
  {
    assert vs[..i + 1][..i] == vs[..i] && keep[..i + 1][..i] == keep[..i];
    RewriteAscends(vs[..i], keep[..i]);
  }

  lemma {:induction false} MergeBounds(here: seq<Version>, there: seq<Version>, done: seq<Version>)
    requires Ascending(done + Merge(here, there)) && Merge(here, there) != []
    ensures done == [] || done[|done| - 1].slot < Merge(here, there)[0].slot
  {
    var all := done + Merge(here, there);
    if done != [] {
      assert all[|done| - 1] == done[|done| - 1] && all[|done|] == Merge(here, there)[0];
    }
  }

  /** The walker remembers the state after the records before it. */
  ghost predicate AheadOf(f: Foreign, w: VersionWalker)
    reads w
  {
    w.Valid() && w.f == f && Walked(f, None, w.bytes, w.entries, w.at) == Ok(w.current)
  }

  /** It stands at a position of a log. */
  ghost predicate Walks(f: Foreign, w: VersionWalker, es: seq<Entry>, vs: seq<Version>)
    reads w
  {
    AheadOf(f, w) && w.entries == es && |es| == |vs|
  }

  /** The version the walker stands before; or the error a pass comes to. */
  method NextVersion(f: Foreign, w: VersionWalker) returns (r: Result<(u64, Option<AccountState>), StoreError>)
    requires AheadOf(f, w) && w.at < |w.entries|
    modifies w`at, w`current
    ensures w.Valid() && w.at == old(w.at) + 1
    ensures Walked(f, None, w.bytes, w.entries, w.at)
         == if r.Ok? then Ok(r.value.1) else Err(r.error)
    ensures r.Ok? ==> AheadOf(f, w) && r.value.0 == w.entries[old(w.at)].slot
    ensures r.Err? ==> Passed(f, w.bytes, w.entries) == Err(r.error)
  {
    hide Step, IsIndex;
    var next := w.Next();
    if next.Err? {
      WalkStaysBroken(f, None, w.bytes, w.entries, w.at, |w.entries|);
      r := Err(next.error);
    } else {
      r := Ok(next.value.value);
    }
  }

  /** Both chains walked in slot order, the version already here winning a tie,
      re-encoded as they go by; and how many were new. It fails exactly when one of them
      does not decode. */
  method MergeChains(f: Foreign, hereBytes: seq<byte>, thereBytes: seq<byte>, w: ChainWriter,
                     ghost es: seq<Entry>, ghost vs: seq<Version>, ghost fs: seq<Entry>, ghost ws: seq<Version>)
    returns (r: Result<nat, StoreError>)
    requires IsIndex(hereBytes, es) && IsIndex(thereBytes, fs)
    requires w.Valid() && w.f == f && w.versions == []
    modifies w
    ensures r.Ok? <==> Passed(f, hereBytes, es).Ok? && Passed(f, thereBytes, fs).Ok?
    ensures r.Err? ==> Passed(f, hereBytes, es) == Err(r.error) || Passed(f, thereBytes, fs) == Err(r.error)
    ensures IsLog(f, hereBytes, es, vs) && IsLog(f, thereBytes, fs, ws) ==>
              r.Ok? && w.Valid() && w.versions == Merge(vs, ws) && |w.versions| == |vs| + r.value
  {
    hide IsLog, Sound, Ascending, Merge, StorableOrAbsent, ChainWriter.Valid, Before, Settle, IsIndex, Walked, Passed;
    var here := new VersionWalker(f, hereBytes);
    var there := new VersionWalker(f, thereBytes);
    IndexIsUnique(hereBytes, es, here.entries);
    IndexIsUnique(thereBytes, fs, there.entries);
    ghost var whole := IsLog(f, hereBytes, es, vs) && IsLog(f, thereBytes, fs, ws);
    MergeStarts(f, hereBytes, es, vs, thereBytes, fs, ws);
    var added := 0;
    r := Ok(added);
    while (here.at < |here.entries| || there.at < |there.entries|) && r.Ok?
      invariant here.Valid() && there.Valid() && here.entries == es && there.entries == fs && w.f == f
      invariant r.Ok? ==> r == Ok(added) && AheadOf(f, here) && AheadOf(f, there)
      invariant r.Err? ==> Passed(f, hereBytes, es) == Err(r.error) || Passed(f, thereBytes, fs) == Err(r.error)
      invariant whole ==> r.Ok? && Merging(f, here, there, w, es, vs, fs, ws)
      invariant whole ==> w.versions + Merge(vs[here.at..], ws[there.at..]) == Merge(vs, ws)
      invariant whole ==> |w.versions| == here.at + added
      decreases |es| - here.at + |fs| - there.at, r.Ok?
    {
      var isNew := MergeOne(f, here, there, w, whole, es, vs, fs, ws);
      if isNew.Err? {
        r := Err(isNew.error);
      } else {
        added := added + if isNew.value then 1 else 0;
        r := Ok(added);
      }
    }
    MergeEnds(f, here, there, r.Ok?);
    if whole {
      assert vs[here.at..] == [] && ws[there.at..] == [];
      MergeOfNothing();
    }
  }

  /** What is left of two logs is merged behind what was written. */
  ghost predicate Merging(f: Foreign, here: VersionWalker, there: VersionWalker, w: ChainWriter,
                          es: seq<Entry>, vs: seq<Version>, fs: seq<Entry>, ws: seq<Version>)
    reads here, there, w
  {
    && IsLog(f, here.bytes, es, vs) && IsLog(f, there.bytes, fs, ws)
    && Walks(f, here, es, vs) && Walks(f, there, fs, ws) && w.Valid() && w.f == f
    && Ascending(w.versions + Merge(vs[here.at..], ws[there.at..]))
  }

  lemma MergeStarts(f: Foreign, hereBytes: seq<byte>, es: seq<Entry>, vs: seq<Version>,
                    thereBytes: seq<byte>, fs: seq<Entry>, ws: seq<Version>)
    requires IsIndex(hereBytes, es) && IsIndex(thereBytes, fs)
    ensures Walked(f, None, hereBytes, es, 0) == Ok(None) && Walked(f, None, thereBytes, fs, 0) == Ok(None)
    ensures vs[0..] == vs && ws[0..] == ws && [] + Merge(vs, ws) == Merge(vs, ws)
    ensures IsLog(f, hereBytes, es, vs) && IsLog(f, thereBytes, fs, ws) ==>
              |es| == |vs| && |fs| == |ws| && Ascending(Merge(vs, ws))
  {
    hide IsLog, Merge;
    if IsLog(f, hereBytes, es, vs) && IsLog(f, thereBytes, fs, ws) {
      IsLogIndex(f, hereBytes, es, vs);
      IsLogIndex(f, thereBytes, fs, ws);
      MergeAscends(vs, ws);
    }
  }

  /** Walked to their ends, both decode. */
  lemma MergeEnds(f: Foreign, here: VersionWalker, there: VersionWalker, ended: bool)
    requires ended ==> AheadOf(f, here) && AheadOf(f, there)
    requires ended ==> here.at == |here.entries| && there.at == |there.entries|
    ensures ended ==> Passed(f, here.bytes, here.entries).Ok? && Passed(f, there.bytes, there.entries).Ok?
  {
  }

  /** The next version in slot order, from whichever chain has it. */
  method MergeOne(f: Foreign, here: VersionWalker, there: VersionWalker, w: ChainWriter, ghost whole: bool,
                  ghost es: seq<Entry>, ghost vs: seq<Version>, ghost fs: seq<Entry>, ghost ws: seq<Version>)
    returns (r: Result<bool, StoreError>)
    requires here != there && AheadOf(f, here) && AheadOf(f, there)
    requires here.at < |here.entries| || there.at < |there.entries|
    requires whole ==> Merging(f, here, there, w, es, vs, fs, ws)
    modifies here`at, here`current, there`at, there`current, w
    ensures here.Valid() && there.Valid() && old(here.at) <= here.at && old(there.at) <= there.at
    ensures r.Ok? ==> AheadOf(f, here) && AheadOf(f, there) && here.at + there.at > old(here.at) + old(there.at)
    ensures r.Err? ==> || Passed(f, here.bytes, here.entries) == Err(r.error)
                       || Passed(f, there.bytes, there.entries) == Err(r.error)
    ensures whole ==> r.Ok? && Merging(f, here, there, w, es, vs, fs, ws)
    ensures whole ==> w.versions + Merge(vs[here.at..], ws[there.at..])
                      == old(w.versions) + Merge(vs[old(here.at)..], ws[old(there.at)..])
    ensures whole ==> here.at - old(here.at) == (if r.value then 0 else 1)
                      && |w.versions| == old(|w.versions|) + 1
  {
    hide IsLog, Sound, Ascending, Merge, StorableOrAbsent, ChainWriter.Valid, Before, Settle, IsIndex, Walked, Passed;
    if whole {
      MergeFacts(f, here, there, w.versions, es, vs, fs, ws);
    }
    var a, b := here.PeekSlot(), there.PeekSlot();
    if a.Some? && (b.None? || a.value <= b.value) {
      var next := NextVersion(f, here);
      if next.Err? {
        r := Err(next.error);
      } else {
        w.Push(next.value.0, next.value.1);
        r := Ok(false);
        if b == a {
          var same := NextVersion(f, there); // same slot: the version already here stands
          if same.Err? {
            r := Err(same.error);
          }
        }
      }
    } else {
      var next := NextVersion(f, there);
      if next.Err? {
        r := Err(next.error);
      } else {
        w.Push(next.value.0, next.value.1);
        r := Ok(true);
      }
    }
  }

  /** What merging two logs meets next. */
  lemma MergeFacts(f: Foreign, here: VersionWalker, there: VersionWalker, done: seq<Version>,
                   es: seq<Entry>, vs: seq<Version>, fs: seq<Entry>, ws: seq<Version>)
    requires IsLog(f, here.bytes, es, vs) && IsLog(f, there.bytes, fs, ws)
    requires Walks(f, here, es, vs) && Walks(f, there, fs, ws)
    requires here.at < |es| || there.at < |fs|
    requires Ascending(done + Merge(vs[here.at..], ws[there.at..]))
    ensures NextFacts(f, here, es, vs) && NextFacts(f, there, fs, ws)
    ensures var i, j := here.at, there.at;
            var next := Merge(vs[i..], ws[j..]);
            && next != [] && (done == [] || done[|done| - 1].slot < next[0].slot)
            && if i < |vs| && (j == |ws| || vs[i].slot <= ws[j].slot) then
                 next[0] == Settled(vs[i])
                 && done + next == (done + [Settled(vs[i])])
                      + Merge(vs[i + 1..], if j < |ws| && vs[i].slot == ws[j].slot then ws[j + 1..] else ws[j..])
               else
                 j < |ws| && next[0] == Settled(ws[j])
                 && done + next == (done + [Settled(ws[j])]) + Merge(vs[i..], ws[j + 1..])
  {
    hide IsLog, Ascending, Merge, Walked, IsIndex;
    var i, j := here.at, there.at;
    var hs, ts := vs[i..], ws[j..];
    AtNext(f, here, es, vs);
    AtNext(f, there, fs, ws);
    MergeNonEmpty(hs, ts);
    MergeBounds(hs, ts, done);
    if i < |vs| && (j == |ws| || vs[i].slot <= ws[j].slot) {
      MergeTakesHere(hs, ts, done);
    } else {
      MergeTakesThere(hs, ts, done);
    }
  }

  /** The walker's next version, if there is one, is the log's. */
  ghost predicate NextFacts(f: Foreign, w: VersionWalker, es: seq<Entry>, vs: seq<Version>)
    reads w
  {
    w.Valid() && w.entries == es && |es| == |vs|
    && (w.at < |es| ==>
          && Walked(f, None, w.bytes, es, w.at + 1) == Ok(vs[w.at].state)
          && es[w.at].slot == vs[w.at].slot && StorableOrAbsent(f, vs[w.at].state)
          && vs[w.at..][1..] == vs[w.at + 1..] && vs[w.at..][0] == vs[w.at])
  }

  lemma AtNext(f: Foreign, w: VersionWalker, es: seq<Entry>, vs: seq<Version>)
    requires IsLog(f, w.bytes, es, vs) && Walks(f, w, es, vs)
    ensures NextFacts(f, w, es, vs)
  {
    hide IsLog, Walked;
    if w.at < |es| {
      LogWalks(f, w.bytes, es, vs, w.at + 1);
      NextOfLog(f, w.bytes, es, vs, w.at);
    }
  }

  lemma MergeOfNothing()
    ensures Merge([], []) == []
  {
  }

  lemma MergeNonEmpty(hs: seq<Version>, ts: seq<Version>)
    requires hs != [] || ts != []
    ensures Merge(hs, ts) != []
    ensures hs != [] && (ts == [] || hs[0].slot <= ts[0].slot) ==> Merge(hs, ts)[0] == Settled(hs[0])
    ensures ts != [] && (hs == [] || hs[0].slot > ts[0].slot) ==> Merge(hs, ts)[0] == Settled(ts[0])
  {
  }

  lemma MergeTakesHere(hs: seq<Version>, ts: seq<Version>, done: seq<Version>)
    requires hs != [] && (ts == [] || hs[0].slot <= ts[0].slot)
    ensures var rest := Merge(hs[1..], if ts != [] && hs[0].slot == ts[0].slot then ts[1..] else ts);
            done + Merge(hs, ts) == (done + [Settled(hs[0])]) + rest
  {
    var rest := Merge(hs[1..], if ts != [] && hs[0].slot == ts[0].slot then ts[1..] else ts);
    if ts == [] {
      SettleFrontOf(hs);
    }
    assert Merge(hs, ts) == [Settled(hs[0])] + rest;
    Regroup(done, Settled(hs[0]), rest);
  }

  lemma MergeTakesThere(hs: seq<Version>, ts: seq<Version>, done: seq<Version>)
    requires ts != [] && (hs == [] || hs[0].slot > ts[0].slot)
    ensures done + Merge(hs, ts) == (done + [Settled(ts[0])]) + Merge(hs, ts[1..])
  {
    if hs == [] {
      SettleFrontOf(ts);
    }
    assert Merge(hs, ts) == [Settled(ts[0])] + Merge(hs, ts[1..]);
    Regroup(done, Settled(ts[0]), Merge(hs, ts[1..]));
  }

  lemma SettleFrontOf(vs: seq<Version>)
    requires vs != []
    ensures Settle(vs) == [Settled(vs[0])] + Settle(vs[1..])
    ensures Merge([], vs[1..]) == Settle(vs[1..]) == Merge(vs[1..], [])
  {
  }

  lemma Regroup(done: seq<Version>, v: Version, rest: seq<Version>)
    ensures done + ([v] + rest) == (done + [v]) + rest
  {
  }
}
