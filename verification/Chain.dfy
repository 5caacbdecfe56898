/** One account's log: records laid end to end, the index over them, and the
    slot-ordered versions they decode to (src/records.rs). */
module Chain {
  import opened Bytes
  import opened StateCodec
  import opened Wrappers

  /** What a log stands for: the state observed at `slot`, or its absence, and
      whether the balance was observed rather than inferred. */
  datatype Version = Version(slot: u64, state: Option<AccountState>, known: bool)

  datatype Entry = Entry(slot: u64, kind: byte, offset: nat, len: nat)

  const FULL: byte := 0
  const DIFF: byte := 1
  const ABSENT: byte := 2
  /** Flag bit of a record whose balance was inferred. */
  const BALANCE_UNKNOWN: byte := 128
  const HEADER_LEN := 13
  /** No more diffs than this follow one another. */
  const FULL_EVERY := 50

  function BaseKind(kind: byte): byte { kind % 128 }

  // ---------------------------------------------------------------------------
  // Records and their index

  function EncodeRecord(slot: u64, kind: byte, payload: seq<byte>): seq<byte> {
    LE64(slot) + ([kind] + (LE32(TruncateU32(|payload|)) + payload))
  }

  /** The header at `at`, taken at its word. */
  function EntryAt(bytes: seq<byte>, at: nat): Entry
    requires at + HEADER_LEN <= |bytes|
  {
    Entry(ReadU64(bytes[at..at + 8]), bytes[at + 8], at + 13, ReadU32(bytes[at + 9..at + 13]))
  }

  /** A whole record starts at `at`; a torn tail does not. */
  predicate Complete(bytes: seq<byte>, at: nat) {
    && at + HEADER_LEN <= |bytes|
    && at + HEADER_LEN + EntryAt(bytes, at).len <= |bytes|
  }

  /** Where the record numbered `i` starts, given the ones before it. */
  function Start(es: seq<Entry>, i: nat): nat
    requires i <= |es|
  {
    if i == 0 then 0 else es[i - 1].offset + es[i - 1].len
  }

  predicate Placed(bytes: seq<byte>, es: seq<Entry>, i: nat)
    requires i < |es|
  {
    Complete(bytes, Start(es, i)) && es[i] == EntryAt(bytes, Start(es, i))
  }

  /** The entries are the records of `bytes` in order, up to a torn tail. */
  predicate IsIndex(bytes: seq<byte>, es: seq<Entry>) {
    && (forall i :: 0 <= i < |es| ==> Placed(bytes, es, i))
    && !Complete(bytes, Start(es, |es|))
  }

  /** Nothing follows the last record. */
  predicate EndsClean(bytes: seq<byte>, es: seq<Entry>) {
    Start(es, |es|) == |bytes|
  }

  method IndexOf(bytes: seq<byte>) returns (es: seq<Entry>)
    ensures IsIndex(bytes, es)
  {
    es := [];
    var at := 0;
    while at + HEADER_LEN <= |bytes|
      invariant at == Start(es, |es|)
      invariant forall i :: 0 <= i < |es| ==> Placed(bytes, es, i)
      decreases |bytes| - at
    {
      var slot := ReadU64(bytes[at..at + 8]);
      var kind := bytes[at + 8];
      var len := ReadU32(bytes[at + 9..at + 13]);
      var offset := at + HEADER_LEN;
      if offset + len > |bytes| {
        break; // a torn tail from a crash mid-append
      }
      ghost var before := es;
      es := es + [Entry(slot, kind, offset, len)];
      forall i | 0 <= i < |es|
        ensures Placed(bytes, es, i)
      {
        assert Start(es, i) == Start(before, i);
        assert i < |before| ==> Placed(bytes, before, i);
      }
      at := offset + len;
    }
  }

  /** A log has one index. */
  lemma IndexIsUnique(bytes: seq<byte>, es: seq<Entry>, fs: seq<Entry>)
    requires IsIndex(bytes, es) && IsIndex(bytes, fs)
    ensures es == fs
  {
    IndexNotLonger(bytes, es, fs);
    IndexNotLonger(bytes, fs, es);
    SharedPrefix(bytes, es, fs, |es|);
  }

  lemma IndexNotLonger(bytes: seq<byte>, es: seq<Entry>, fs: seq<Entry>)
    requires IsIndex(bytes, es) && IsIndex(bytes, fs)
    ensures |es| <= |fs|
  {
    if |fs| < |es| {
      SharedPrefix(bytes, es, fs, |fs|);
      EntryIsComplete(bytes, es, |fs|);
    }
  }

  lemma EntryIsComplete(bytes: seq<byte>, es: seq<Entry>, i: nat)
    requires IsIndex(bytes, es) && i < |es|
    ensures Complete(bytes, Start(es, i))
  {
    assert Placed(bytes, es, i);
  }

  lemma {:induction false} SharedPrefix(bytes: seq<byte>, es: seq<Entry>, fs: seq<Entry>, n: nat)
    requires IsIndex(bytes, es) && IsIndex(bytes, fs)
    requires n <= |es| && n <= |fs|
    ensures es[..n] == fs[..n] && Start(es, n) == Start(fs, n)
  {
    if n > 0 {
      SharedPrefix(bytes, es, fs, n - 1);
      assert Placed(bytes, es, n - 1) && Placed(bytes, fs, n - 1);
      assert es[..n] == es[..n - 1] + [es[n - 1]] && fs[..n] == fs[..n - 1] + [fs[n - 1]];
    }
  }

  function Shift(e: Entry, base: nat): Entry { e.(offset := e.offset + base) }

  function ShiftAll(es: seq<Entry>, base: nat): (r: seq<Entry>)
    ensures |r| == |es|
    ensures forall i :: 0 <= i < |es| ==> r[i] == Shift(es[i], base)
  {
    seq(|es|, i requires 0 <= i < |es| => Shift(es[i], base))
  }

  lemma HeaderKept(bytes: seq<byte>, more: seq<byte>, at: nat)
    requires Complete(bytes, at)
    ensures Complete(bytes + more, at) && EntryAt(bytes + more, at) == EntryAt(bytes, at)
  {
    var all := bytes + more;
    assert all[at..at + 8] == bytes[at..at + 8];
    assert all[at + 9..at + 13] == bytes[at + 9..at + 13];
  }

  lemma HeaderShifts(bytes: seq<byte>, more: seq<byte>, at: nat)
    ensures Complete(bytes + more, |bytes| + at) <==> Complete(more, at)
    ensures Complete(more, at) ==>
              EntryAt(bytes + more, |bytes| + at) == Shift(EntryAt(more, at), |bytes|)
  {
    var all, k := bytes + more, |bytes| + at;
    if at + HEADER_LEN <= |more| {
      assert all[k..k + 8] == more[at..at + 8];
      assert all[k + 9..k + 13] == more[at + 9..at + 13];
    }
  }

  lemma PlacedAfterConcat(bytes: seq<byte>, es: seq<Entry>, more: seq<byte>, fs: seq<Entry>, i: nat)
    requires IsIndex(bytes, es) && EndsClean(bytes, es) && IsIndex(more, fs)
    requires i < |es| + |fs|
    ensures Placed(bytes + more, es + ShiftAll(fs, |bytes|), i)
  {
    var all := es + ShiftAll(fs, |bytes|);
    if i < |es| {
      assert Placed(bytes, es, i);
      assert Start(all, i) == Start(es, i);
      HeaderKept(bytes, more, Start(es, i));
    } else {
      var j := i - |es|;
      assert Placed(more, fs, j);
      assert Start(all, i) == |bytes| + Start(fs, j);
      HeaderShifts(bytes, more, Start(fs, j));
    }
  }

  /** Appending to a log that ends cleanly appends to its index. */
  lemma IndexOfConcat(bytes: seq<byte>, es: seq<Entry>, more: seq<byte>, fs: seq<Entry>)
    requires IsIndex(bytes, es) && EndsClean(bytes, es) && IsIndex(more, fs)
    ensures IsIndex(bytes + more, es + ShiftAll(fs, |bytes|))
    ensures EndsClean(more, fs) ==> EndsClean(bytes + more, es + ShiftAll(fs, |bytes|))
  {
    var all := es + ShiftAll(fs, |bytes|);
    forall i | 0 <= i < |all|
      ensures Placed(bytes + more, all, i)
    {
      PlacedAfterConcat(bytes, es, more, fs, i);
    }
    assert Start(all, |all|) == |bytes| + Start(fs, |fs|);
    HeaderShifts(bytes, more, Start(fs, |fs|));
  }

  /** A record reads back as written exactly when its payload fits the 32-bit
      length field. */
  lemma RecordReadsBack(slot: u64, kind: byte, payload: seq<byte>)
    ensures var r := EncodeRecord(slot, kind, payload);
            && |r| == HEADER_LEN + |payload|
            && r[HEADER_LEN..] == payload
            && (IsIndex(r, [Entry(slot, kind, HEADER_LEN, |payload|)]) <==> |payload| < U32_LIMIT)
  {
    var r := EncodeRecord(slot, kind, payload);
    var length := LE32(TruncateU32(|payload|));
    assert r[0..8] == LE64(slot);
    assert r[9..13] == length;
    assert EntryAt(r, 0) == Entry(slot, kind, 13, TruncateU32(|payload|));
    var es := [Entry(slot, kind, HEADER_LEN, |payload|)];
    assert Placed(r, es, 0) <==> |payload| == TruncateU32(|payload|);
  }

  // ---------------------------------------------------------------------------
  // Versions

  /** Decode one record after `prev`. */
  function Step(f: Foreign, prev: Option<AccountState>, kind: byte, payload: seq<byte>)
    : Result<Option<AccountState>, StoreError>
  {
    if BaseKind(kind) == FULL then
      var s :- DecodeFull(f, payload);
      Ok(Some(s))
    else if BaseKind(kind) == DIFF then
      if prev.None? then Err(DiffWithoutBase)
      else
        var s :- ApplyDiff(f, prev.value, payload);
        Ok(Some(s))
    else Ok(None)
  }

  function Payload(bytes: seq<byte>, e: Entry): seq<byte>
    requires e.offset + e.len <= |bytes|
  {
    bytes[e.offset..e.offset + e.len]
  }

  predicate KindFits(kind: byte, v: Version) {
    && BaseKind(kind) <= ABSENT
    && (BaseKind(kind) == ABSENT <==> v.state.None?)
    && (v.known <==> kind < BALANCE_UNKNOWN)
    && (v.state.None? ==> v.known)
  }

  /** The record `e` of `bytes`, read after `prev`, is the version `v`. */
  predicate Stores(f: Foreign, bytes: seq<byte>, e: Entry, prev: Option<AccountState>, v: Version) {
    && e.offset + e.len <= |bytes|
    && e.slot == v.slot && KindFits(e.kind, v)
    && Step(f, prev, e.kind, Payload(bytes, e)) == Ok(v.state)
    && (v.state.Some? ==> Storable(f, v.state.value))
  }

  function Before(init: Option<AccountState>, vs: seq<Version>, i: nat): Option<AccountState>
    requires i <= |vs|
  {
    if i == 0 then init else vs[i - 1].state
  }

  function LastState(vs: seq<Version>): Option<AccountState> { Before(None, vs, |vs|) }

  predicate StoresAt(f: Foreign, init: Option<AccountState>, bytes: seq<byte>,
                     es: seq<Entry>, vs: seq<Version>, i: nat)
    requires i < |es| == |vs|
  {
    Stores(f, bytes, es[i], Before(init, vs, i), vs[i])
  }

  /** Read after `init`, the records decode to `vs`. */
  predicate Decodes(f: Foreign, init: Option<AccountState>, bytes: seq<byte>,
                    es: seq<Entry>, vs: seq<Version>)
  {
    && |es| == |vs|
    && forall i :: 0 <= i < |es| ==> StoresAt(f, init, bytes, es, vs, i)
  }

  predicate Ascending(vs: seq<Version>) {
    forall i, j :: 0 <= i < j < |vs| ==> vs[i].slot < vs[j].slot
  }

  /** How many diffs in a row end just before the record numbered `n`. */
  function DiffRun(es: seq<Entry>, n: nat): (r: nat)
    requires n <= |es|
    ensures r <= n
  {
    if n == 0 || BaseKind(es[n - 1].kind) != DIFF then 0 else 1 + DiffRun(es, n - 1)
  }

  predicate ShortRuns(es: seq<Entry>) {
    forall n :: 0 <= n <= |es| ==> DiffRun(es, n) <= FULL_EVERY
  }

  /** `bytes` is a whole log, `es` its index and `vs` what it records: strictly
      ascending slots, every diff with a base, and no long run of diffs. */
  predicate IsLog(f: Foreign, bytes: seq<byte>, es: seq<Entry>, vs: seq<Version>) {
    && IsIndex(bytes, es) && EndsClean(bytes, es)
    && Decodes(f, None, bytes, es, vs)
    && Ascending(vs) && ShortRuns(es)
  }

  lemma EmptyLog(f: Foreign)
    ensures IsLog(f, [], [], [])
  {
  }

  lemma StoresWithin(f: Foreign, bytes: seq<byte>, more: seq<byte>, e: Entry, prev: Option<AccountState>, v: Version)
    ensures Stores(f, bytes, e, prev, v) ==> Stores(f, bytes + more, e, prev, v)
    ensures Stores(f, more, e, prev, v) ==> Stores(f, bytes + more, Shift(e, |bytes|), prev, v)
  {
    var all := bytes + more;
    if e.offset + e.len <= |bytes| {
      assert Payload(all, e) == Payload(bytes, e);
    }
    if e.offset + e.len <= |more| {
      assert Payload(all, Shift(e, |bytes|)) == Payload(more, e);
    }
  }

  lemma DecodesConcat(f: Foreign, bytes: seq<byte>, es: seq<Entry>, vs: seq<Version>,
                      more: seq<byte>, fs: seq<Entry>, ws: seq<Version>)
    requires Decodes(f, None, bytes, es, vs) && Decodes(f, LastState(vs), more, fs, ws)
    ensures Decodes(f, None, bytes + more, es + ShiftAll(fs, |bytes|), vs + ws)
  {
    hide Stores;
    var all, versions := es + ShiftAll(fs, |bytes|), vs + ws;
    forall i | 0 <= i < |all|
      ensures StoresAt(f, None, bytes + more, all, versions, i)
    {
      if i < |es| {
        assert StoresAt(f, None, bytes, es, vs, i);
        assert Before(None, versions, i) == Before(None, vs, i);
        StoresWithin(f, bytes, more, es[i], Before(None, vs, i), vs[i]);
      } else {
        var j := i - |es|;
        assert StoresAt(f, LastState(vs), more, fs, ws, j);
        assert Before(None, versions, i) == Before(LastState(vs), ws, j);
        StoresWithin(f, bytes, more, fs[j], Before(LastState(vs), ws, j), ws[j]);
      }
    }
  }

  /** A chain that stands on its own starts with no diff, so it reads the same
      after anything. */
  lemma SelfContained(f: Foreign, init: Option<AccountState>, bytes: seq<byte>, es: seq<Entry>, vs: seq<Version>)
    requires Decodes(f, None, bytes, es, vs)
    ensures Decodes(f, init, bytes, es, vs)
    ensures es != [] ==> BaseKind(es[0].kind) != DIFF
  {
    forall i | 0 <= i < |es|
      ensures StoresAt(f, init, bytes, es, vs, i)
    {
      assert StoresAt(f, None, bytes, es, vs, i);
    }
    if es != [] {
      assert StoresAt(f, None, bytes, es, vs, 0);
    }
  }

  lemma {:induction false} DiffRunInPrefix(es: seq<Entry>, fs: seq<Entry>, n: nat)
    requires n <= |es|
    ensures DiffRun(es + fs, n) == DiffRun(es, n)
  {
    if n > 0 {
      DiffRunInPrefix(es, fs, n - 1);
    }
  }

  lemma {:induction false} DiffRunInSuffix(es: seq<Entry>, fs: seq<Entry>, base: nat, n: nat)
    requires n <= |fs|
    requires fs != [] ==> BaseKind(fs[0].kind) != DIFF
    ensures n > 0 ==> DiffRun(es + ShiftAll(fs, base), |es| + n) == DiffRun(fs, n)
  {
    if n > 1 {
      DiffRunInSuffix(es, fs, base, n - 1);
    }
  }

  lemma ShortRunsConcat(es: seq<Entry>, fs: seq<Entry>, base: nat)
    requires ShortRuns(es) && ShortRuns(fs)
    requires fs != [] ==> BaseKind(fs[0].kind) != DIFF
    ensures ShortRuns(es + ShiftAll(fs, base))
  {
    var all := es + ShiftAll(fs, base);
    forall n | 0 <= n <= |all|
      ensures DiffRun(all, n) <= FULL_EVERY
    {
      if n <= |es| {
        DiffRunInPrefix(es, ShiftAll(fs, base), n);
      } else {
        DiffRunInSuffix(es, fs, base, n - |es|);
      }
    }
  }

  /** Appending a chain that stands on its own, newer throughout. */
  lemma AppendChain(f: Foreign, bytes: seq<byte>, es: seq<Entry>, vs: seq<Version>,
                    more: seq<byte>, fs: seq<Entry>, ws: seq<Version>)
    requires IsLog(f, bytes, es, vs) && IsLog(f, more, fs, ws)
    requires vs == [] || ws == [] || vs[|vs| - 1].slot < ws[0].slot
    ensures IsLog(f, bytes + more, es + ShiftAll(fs, |bytes|), vs + ws)
  {
    hide IsIndex, EndsClean, Decodes, ShortRuns;
    IndexOfConcat(bytes, es, more, fs);
    SelfContained(f, LastState(vs), more, fs, ws);
    DecodesConcat(f, bytes, es, vs, more, fs, ws);
    ShortRunsConcat(es, fs, |bytes|);
  }

  // ---------------------------------------------------------------------------
  // Writing the next version

  /** The kind and payload a state is recorded with after `prev`: a diff while the
      last full is near enough and the diff small enough, else in full. */
  function EncodeNext(f: Foreign, prev: Option<AccountState>, sinceFull: nat, state: Option<AccountState>)
    : (byte, seq<byte>)
  {
    match state
    case None => (ABSENT, [])
    case Some(s) =>
      if prev.Some? && sinceFull < FULL_EVERY then
        match EncodeDiff(f, prev.value, s)
        case Some(d) => (DIFF, d)
        case None => (FULL, EncodeFull(f, s))
      else (FULL, EncodeFull(f, s))
  }

  predicate StorableOrAbsent(f: Foreign, state: Option<AccountState>) {
    state.Some? ==> Storable(f, state.value)
  }

  lemma NextDecodes(f: Foreign, prev: Option<AccountState>, sinceFull: nat, state: Option<AccountState>, flag: bool)
    requires Sound(f) && StorableOrAbsent(f, state)
    ensures var (kind, payload) := EncodeNext(f, prev, sinceFull, state);
            && kind <= ABSENT && (kind == ABSENT <==> state.None?)
            && |payload| < U32_LIMIT
            && (kind == DIFF ==> sinceFull < FULL_EVERY)
            && Step(f, prev, if flag then kind + BALANCE_UNKNOWN else kind, payload) == Ok(state)
  {
    hide Sound, EncodeFull, DecodeFull, EncodeDiff, ApplyDiff;
    if state.Some? {
      FullRoundTrip(f, state.value);
      if prev.Some? && EncodeDiff(f, prev.value, state.value).Some? {
        DiffRoundTrip(f, prev.value, state.value);
      }
    }
  }

  lemma OneRecordDecodes(f: Foreign, prev: Option<AccountState>, more: seq<byte>, e: Entry, v: Version)
    requires e.offset == HEADER_LEN && |more| == HEADER_LEN + e.len
    requires e.slot == v.slot && KindFits(e.kind, v) && StorableOrAbsent(f, v.state)
    requires Step(f, prev, e.kind, more[HEADER_LEN..]) == Ok(v.state)
    ensures Decodes(f, prev, more, [e], [v]) && EndsClean(more, [e])
  {
    hide Step;
    assert Payload(more, e) == more[HEADER_LEN..];
    assert StoresAt(f, prev, more, [e], [v], 0);
  }

  lemma OneMoreShortRun(es: seq<Entry>, e: Entry)
    requires ShortRuns(es)
    requires BaseKind(e.kind) == DIFF ==> DiffRun(es, |es|) < FULL_EVERY
    ensures ShortRuns(es + [e])
  {
    forall n | 0 <= n <= |es + [e]|
      ensures DiffRun(es + [e], n) <= FULL_EVERY
    {
      DiffRunInPrefix(es, [e], if n <= |es| then n else |es|);
    }
  }

  /** Recording a version newer than the rest extends the log by it. */
  lemma AppendVersion(f: Foreign, bytes: seq<byte>, es: seq<Entry>, vs: seq<Version>,
                      sinceFull: nat, v: Version)
    requires Sound(f) && IsLog(f, bytes, es, vs) && StorableOrAbsent(f, v.state)
    requires v.state.None? ==> v.known
    requires DiffRun(es, |es|) <= sinceFull
    requires vs == [] || vs[|vs| - 1].slot < v.slot
    ensures var (kind, payload) := EncodeNext(f, LastState(vs), sinceFull, v.state);
            var flagged := if v.known then kind else kind + BALANCE_UNKNOWN;
            IsLog(f, bytes + EncodeRecord(v.slot, flagged, payload),
                  es + [Entry(v.slot, flagged, |bytes| + HEADER_LEN, |payload|)], vs + [v])
  {
    hide IsIndex, EndsClean, Decodes, ShortRuns, EncodeNext, Step, EncodeRecord;
    var (kind, payload) := EncodeNext(f, LastState(vs), sinceFull, v.state);
    var flagged := if v.known then kind else kind + BALANCE_UNKNOWN;
    NextDecodes(f, LastState(vs), sinceFull, v.state, !v.known);
    var more := EncodeRecord(v.slot, flagged, payload);
    var e := Entry(v.slot, flagged, HEADER_LEN, |payload|);
    RecordReadsBack(v.slot, flagged, payload);
    OneRecordDecodes(f, LastState(vs), more, e, v);
    IndexOfConcat(bytes, es, more, [e]);
    DecodesConcat(f, bytes, es, vs, more, [e], [v]);
    assert ShiftAll([e], |bytes|) == [Entry(v.slot, flagged, |bytes| + HEADER_LEN, |payload|)];
    OneMoreShortRun(es, Shift(e, |bytes|));
  }
}
