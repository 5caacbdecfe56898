/** Account states and the payloads they are stored as: full snapshots and
    binary diffs (src/records.rs). */
module StateCodec {
  import opened Bytes
  import opened Wrappers

  /** `owner` holds the UTF-8 bytes of the owner's address string. */
  datatype AccountState = AccountState(data: seq<byte>, lamports: u64, owner: seq<byte>)

  /** Library calls whose code is not part of this model: zlib, the UTF-8 check
      and the hasher behind the newest-state digest. */
  datatype Foreign = Foreign(
    deflate: seq<byte> -> seq<byte>,
    inflate: seq<byte> -> Option<seq<byte>>,
    utf8: seq<byte> -> bool,
    digest: Option<AccountState> -> u64)

  /** zlib undoes itself, and never grows an input below two gigabytes past a
      32-bit length; the empty string is UTF-8. */
  ghost predicate Sound(f: Foreign) {
    && (forall b :: f.inflate(f.deflate(b)) == Some(b))
    && (forall b :: |b| < 0x8000_0000 ==> |f.deflate(b)| < U32_LIMIT)
    && f.utf8([])
  }

  /** What is asked of the foreign calls can be met. */
  lemma SoundIsPossible()
    ensures exists f :: Sound(f)
  {
    assert Sound(Foreign(b => b, b => Some(b), _ => true, _ => 0));
  }

  /** An owner is a string, and its length fits the four bytes written for it. */
  predicate OwnerFits(f: Foreign, s: AccountState) { f.utf8(s.owner) && |s.owner| < U32_LIMIT }

  /** A state whose payloads fit the log's 32-bit lengths. Rust's `String`
      guarantees the UTF-8 part, and an account holds at most ten megabytes. */
  predicate Storable(f: Foreign, s: AccountState) {
    f.utf8(s.owner) && |s.owner| + |s.data| < 0x7fff_0000
  }

  // ---------------------------------------------------------------------------
  // Full payloads

  /** A state's balance and owner, then whatever follows. */
  function Prologue(s: AccountState, rest: seq<byte>): (raw: seq<byte>)
    ensures |raw| == 12 + |s.owner| + |rest|
  {
    LE64(s.lamports) + (LE32(TruncateU32(|s.owner|)) + (s.owner + rest))
  }

  function GetU32(b: seq<byte>, at: nat): (r: Result<u32, StoreError>)
    ensures r.Ok? <==> at + 4 <= |b|
  {
    if at + 4 <= |b| then Ok(ReadU32(b[at..at + 4])) else Err(Truncated)
  }

  function GetU64(b: seq<byte>, at: nat): (r: Result<u64, StoreError>)
    ensures r.Ok? <==> at + 8 <= |b|
  {
    if at + 8 <= |b| then Ok(ReadU64(b[at..at + 8])) else Err(Truncated)
  }

  /** The string at `at`, whose bytes start at `at + 4`. */
  function GetStr(f: Foreign, b: seq<byte>, at: nat): (r: Result<seq<byte>, StoreError>)
    ensures r.Ok? ==> at + 4 + |r.value| <= |b|
  {
    var n :- GetU32(b, at);
    if at + 4 + n > |b| then Err(Truncated)
    else
      var s := b[at + 4..at + 4 + n];
      if f.utf8(s) then Ok(s) else Err(BadUtf8)
  }

  function EncodeFull(f: Foreign, s: AccountState): seq<byte> {
    f.deflate(Prologue(s, s.data))
  }

  function DecodeFull(f: Foreign, payload: seq<byte>): Result<AccountState, StoreError> {
    match f.inflate(payload)
    case None => Err(BadInflate)
    case Some(raw) =>
      var lamports :- GetU64(raw, 0);
      var owner :- GetStr(f, raw, 8);
      Ok(AccountState(raw[12 + |owner|..], lamports, owner))
  }

  lemma CountReads(raw: seq<byte>, at: nat, n: u32, rest: seq<byte>)
    requires at <= |raw| && raw[at..] == LE32(n) + rest
    ensures at + 4 <= |raw| && GetU32(raw, at) == Ok(n) && raw[at + 4..] == rest
  {
    Reads(raw, at, LE32(n), rest);
  }

  lemma StrReads(f: Foreign, raw: seq<byte>, at: nat, s: seq<byte>, rest: seq<byte>)
    requires f.utf8(s) && |s| < U32_LIMIT
    requires at <= |raw| && raw[at..] == LE32(|s|) + (s + rest)
    ensures GetStr(f, raw, at) == Ok(s)
    ensures at + 4 + |s| <= |raw| && raw[at + 4 + |s|..] == rest
  {
    CountReads(raw, at, |s|, s + rest);
    Reads(raw, at + 4, s, rest);
  }

  /** Any payload that opens with a state's prologue reads its balance and owner
      back, and leaves the rest. */
  lemma PrologueReads(f: Foreign, s: AccountState, rest: seq<byte>)
    requires OwnerFits(f, s)
    ensures var raw := Prologue(s, rest);
            && GetU64(raw, 0) == Ok(s.lamports)
            && GetStr(f, raw, 8) == Ok(s.owner)
            && raw[12 + |s.owner|..] == rest
  {
    var raw := Prologue(s, rest);
    var tail := LE32(|s.owner|) + (s.owner + rest);
    assert raw[0..] == LE64(s.lamports) + tail;
    Reads(raw, 0, LE64(s.lamports), tail);
    StrReads(f, raw, 8, s.owner, rest);
  }

  /** A full snapshot decodes to its state; under the limit its length is written whole. */
  lemma FullRoundTrip(f: Foreign, s: AccountState)
    requires Sound(f) && OwnerFits(f, s)
    ensures DecodeFull(f, EncodeFull(f, s)) == Ok(s)
    ensures Storable(f, s) ==> |EncodeFull(f, s)| < U32_LIMIT
  {
    PrologueReads(f, s, s.data);
  }

  // ---------------------------------------------------------------------------
  // Changed ranges

  /** Bytes `[from, to)` of the new data replace the old ones. */
  datatype Range = Range(from: nat, to: nat)

  /** Whether a difference at `start` is fewer than eight bytes past the last range. */
  predicate Merges(rs: seq<Range>, start: nat) {
    rs != [] && start - rs[|rs| - 1].to < 8
  }

  function Kept(rs: seq<Range>, start: nat): seq<Range> {
    if Merges(rs, start) then rs[..|rs| - 1] else rs
  }

  function First(rs: seq<Range>, start: nat): nat {
    if Merges(rs, start) then rs[|rs| - 1].from else start
  }

  /** The ranges once `[start, end)` is known to differ: joined to the last range
      when close enough, on its own otherwise. */
  function Join(rs: seq<Range>, start: nat, end: nat): seq<Range> {
    Kept(rs, start) + [Range(First(rs, start), end)]
  }

  /** The reference: scanning the first `n` bytes one at a time. */
  function RangesUpto(before: seq<byte>, after: seq<byte>, n: nat): seq<Range>
    requires |before| == |after| && n <= |after|
  {
    if n == 0 then []
    else
      var rs := RangesUpto(before, after, n - 1);
      if before[n - 1] == after[n - 1] then rs else Join(rs, n - 1, n)
  }

  predicate Inside(r: Range, j: nat) { r.from <= j < r.to }

  predicate InRange(rs: seq<Range>, j: nat) {
    exists k :: 0 <= k < |rs| && Inside(rs[k], j)
  }

  /** Ascending, in bounds, non-empty, and at least eight bytes apart. */
  predicate WellSpaced(rs: seq<Range>, n: nat) {
    && (forall k :: 0 <= k < |rs| ==> rs[k].from < rs[k].to <= n)
    && (forall j, k :: 0 <= j < k < |rs| ==> rs[j].to + 8 <= rs[k].from)
  }

  lemma JoinKeepsSpacing(rs: seq<Range>, i: nat)
    requires WellSpaced(rs, i)
    ensures WellSpaced(Join(rs, i, i + 1), i + 1)
  {
  }

  lemma JoinCovers(rs: seq<Range>, i: nat, j: nat)
    requires WellSpaced(rs, i)
    requires InRange(rs, j) || j == i
    ensures InRange(Join(rs, i, i + 1), j)
  {
    var grown := Join(rs, i, i + 1);
    if InRange(rs, j) {
      var k :| 0 <= k < |rs| && Inside(rs[k], j);
      assert Inside(grown[k], j);
    } else {
      assert Inside(grown[|grown| - 1], j);
    }
  }

  lemma SpacedFurther(rs: seq<Range>, i: nat)
    requires WellSpaced(rs, i)
    ensures WellSpaced(rs, i + 1)
  {
  }

  lemma {:induction false} RangesAreSpaced(before: seq<byte>, after: seq<byte>, n: nat)
    requires |before| == |after| && n <= |after|
    ensures WellSpaced(RangesUpto(before, after, n), n)
  {
    if n > 0 {
      hide WellSpaced, Join;
      var rs := RangesUpto(before, after, n - 1);
      RangesAreSpaced(before, after, n - 1);
      SpacedFurther(rs, n - 1);
      JoinKeepsSpacing(rs, n - 1);
    }
  }

  lemma {:induction false} OutsideRangesAgrees(before: seq<byte>, after: seq<byte>, n: nat, j: nat)
    requires |before| == |after| && j < n <= |after|
    requires !InRange(RangesUpto(before, after, n), j)
    ensures before[j] == after[j]
  {
    hide WellSpaced, InRange, Join;
    var rs := RangesUpto(before, after, n - 1);
    RangesAreSpaced(before, after, n - 1);
    if before[n - 1] != after[n - 1] && (InRange(rs, j) || j == n - 1) {
      JoinCovers(rs, n - 1, j);
    }
    if j < n - 1 {
      OutsideRangesAgrees(before, after, n - 1, j);
    }
  }

  /** No range starts or ends with an unchanged byte. */
  lemma {:induction false} RangesAreTight(before: seq<byte>, after: seq<byte>, n: nat)
    requires |before| == |after| && n <= |after|
    ensures forall r :: r in RangesUpto(before, after, n) ==>
                          && r.from < r.to <= n
                          && before[r.from] != after[r.from]
                          && before[r.to - 1] != after[r.to - 1]
  {
    if n > 0 {
      RangesAreTight(before, after, n - 1);
      var rs := RangesUpto(before, after, n - 1);
      assert rs != [] ==> rs[|rs| - 1] in rs;
    }
  }

  lemma JoinAgain(rs: seq<Range>, start: nat, mid: nat, end: nat)
    requires start < mid && end == mid + 1
    ensures Join(Join(rs, start, mid), mid, end) == Join(rs, start, end)
  {
    var kept := Kept(rs, start);
    assert Join(rs, start, mid)[..|kept|] == kept;
  }

  /** Taking a whole run of differences at once is scanning it byte by byte. */
  lemma {:induction false} RunJoins(before: seq<byte>, after: seq<byte>, start: nat, end: nat)
    requires |before| == |after| && start < end <= |after|
    requires forall j :: start <= j < end ==> before[j] != after[j]
    ensures RangesUpto(before, after, end) == Join(RangesUpto(before, after, start), start, end)
  {
    hide Join;
    var mid := end - 1;
    assert before[mid] != after[mid];
    assert RangesUpto(before, after, end) == Join(RangesUpto(before, after, mid), mid, end);
    if start < mid {
      RunJoins(before, after, start, mid);
      JoinAgain(RangesUpto(before, after, start), start, mid, end);
    }
  }

  /** The two-cursor scan of the original, which runs to the end of each
      difference before it looks at the ranges. */
  method ChangedRanges(before: seq<byte>, after: seq<byte>) returns (ranges: seq<Range>)
    requires |before| == |after|
    ensures ranges == RangesUpto(before, after, |after|)
  {
    ranges := [];
    var i := 0;
    while i < |after|
      invariant 0 <= i <= |after|
      invariant ranges == RangesUpto(before, after, i)
    {
      if before[i] == after[i] {
        i := i + 1;
        continue;
      }
      var start := i;
      while i < |after| && before[i] != after[i]
        invariant start <= i <= |after|
        invariant i == start ==> before[i] != after[i]
        invariant forall j :: start <= j < i ==> before[j] != after[j]
      {
        i := i + 1;
      }
      RunJoins(before, after, start, i);
      if ranges != [] && start - ranges[|ranges| - 1].to < 8 {
        ranges := ranges[..|ranges| - 1] + [Range(ranges[|ranges| - 1].from, i)];
      } else {
        ranges := ranges + [Range(start, i)];
      }
    }
  }

  // ---------------------------------------------------------------------------
  // Diff payloads

  predicate Bounded(rs: seq<Range>, n: nat) {
    forall k :: 0 <= k < |rs| ==> rs[k].from <= rs[k].to <= n
  }

  function DiffCost(rs: seq<Range>, n: nat): nat
    requires Bounded(rs, n)
  {
    if rs == [] then 0 else rs[0].to - rs[0].from + 8 + DiffCost(rs[1..], n)
  }

  /** One range's offset, length and new bytes, then whatever follows. */
  function EncodeRange(r: Range, after: seq<byte>, rest: seq<byte>): seq<byte>
    requires r.from <= r.to <= |after|
  {
    LE32(TruncateU32(r.from)) + (LE32(TruncateU32(r.to - r.from)) + (after[r.from..r.to] + rest))
  }

  function EncodeRanges(rs: seq<Range>, after: seq<byte>): seq<byte>
    requires Bounded(rs, |after|)
  {
    if rs == [] then [] else EncodeRange(rs[0], after, EncodeRanges(rs[1..], after))
  }

  lemma {:induction false} EncodeRangesSize(rs: seq<Range>, after: seq<byte>)
    requires Bounded(rs, |after|)
    ensures |EncodeRanges(rs, after)| == DiffCost(rs, |after|)
  {
    if rs != [] {
      EncodeRangesSize(rs[1..], after);
    }
  }

  function DiffBody(s: AccountState, rs: seq<Range>): seq<byte>
    requires Bounded(rs, |s.data|)
  {
    Prologue(s, LE32(TruncateU32(|rs|)) + EncodeRanges(rs, s.data))
  }

  /** `None` when a diff is not worth it: another length, or not under half the
      size. */
  function EncodeDiff(f: Foreign, base: AccountState, s: AccountState): Option<seq<byte>> {
    if |base.data| != |s.data| then None
    else
      RangesAreSpaced(base.data, s.data, |s.data|);
      var rs := RangesUpto(base.data, s.data, |s.data|);
      if DiffCost(rs, |s.data|) * 2 >= (if |s.data| == 0 then 1 else |s.data|) then None
      else Some(f.deflate(DiffBody(s, rs)))
  }

  function ApplyRanges(raw: seq<byte>, at: nat, n: nat, data: seq<byte>): Result<seq<byte>, StoreError>
    decreases n
  {
    if n == 0 then Ok(data)
    else
      var offset :- GetU32(raw, at);
      var len :- GetU32(raw, at + 4);
      if at + 8 + len > |raw| then Err(Truncated)
      else if offset + len > |data| then Err(DiffOutOfRange)
      else ApplyRanges(raw, at + 8 + len, n - 1,
                       data[..offset] + raw[at + 8..at + 8 + len] + data[offset + len..])
  }

  /** The count at `at`, then that many ranges written over `data`. */
  function PatchData(raw: seq<byte>, at: nat, data: seq<byte>): Result<seq<byte>, StoreError> {
    var n :- GetU32(raw, at);
    ApplyRanges(raw, at + 4, n, data)
  }

  function ApplyDiff(f: Foreign, base: AccountState, payload: seq<byte>): Result<AccountState, StoreError> {
    match f.inflate(payload)
    case None => Err(BadInflate)
    case Some(raw) =>
      var lamports :- GetU64(raw, 0);
      var owner :- GetStr(f, raw, 8);
      var data :- PatchData(raw, 12 + |owner|, base.data);
      Ok(AccountState(data, lamports, owner))
  }

  /** Reading one encoded range overwrites its bytes and leaves the rest to read. */
  lemma RangeApplies(r: Range, after: seq<byte>, rest: seq<byte>, raw: seq<byte>, at: nat, n: nat, data: seq<byte>)
    requires r.from <= r.to <= |after| == |data| && |after| < U32_LIMIT
    requires at <= |raw| && raw[at..] == EncodeRange(r, after, rest)
    ensures var next := at + 8 + r.to - r.from;
            && next <= |raw| && raw[next..] == rest
            && ApplyRanges(raw, at, n + 1, data) == ApplyRanges(raw, next, n, Overwrite(data, r, after))
  {
    hide ApplyRanges, GetU32, TruncateU32, LE32, ReadU32;
    var bytes := after[r.from..r.to];
    assert TruncateU32(r.from) == r.from && TruncateU32(r.to - r.from) == |bytes|;
    CountReads(raw, at, r.from, LE32(|bytes|) + (bytes + rest));
    CountReads(raw, at + 4, |bytes|, bytes + rest);
    Reads(raw, at + 8, bytes, rest);
    ApplyOne(raw, at, n, data, r.from, r.to);
  }

  lemma ApplyOne(raw: seq<byte>, at: nat, n: nat, data: seq<byte>, from: nat, to: nat)
    requires from <= to <= |data| < U32_LIMIT && at + 8 + to - from <= |raw|
    requires GetU32(raw, at) == Ok(from) && GetU32(raw, at + 4) == Ok(to - from)
    ensures ApplyRanges(raw, at, n + 1, data)
         == ApplyRanges(raw, at + 8 + to - from, n,
                        data[..from] + raw[at + 8..at + 8 + to - from] + data[to..])
  {
    hide GetU32;
    var next, len := at + 8 + to - from, to - from;
    assert raw[at + 8..at + 8 + len] == raw[at + 8..next];
    assert data[from + len..] == data[to..];
  }

  function Overwrite(data: seq<byte>, r: Range, after: seq<byte>): (d: seq<byte>)
    requires |data| == |after| && r.from <= r.to <= |after|
    ensures |d| == |data|
  {
    data[..r.from] + after[r.from..r.to] + data[r.to..]
  }

  function OverwriteAll(data: seq<byte>, rs: seq<Range>, after: seq<byte>): (d: seq<byte>)
    requires |data| == |after| && Bounded(rs, |after|)
    ensures |d| == |data|
    decreases |rs|
  {
    if rs == [] then data else OverwriteAll(Overwrite(data, rs[0], after), rs[1..], after)
  }

  lemma OverwriteAt(data: seq<byte>, r: Range, after: seq<byte>, j: nat)
    requires |data| == |after| && r.from <= r.to <= |after| && j < |after|
    ensures Overwrite(data, r, after)[j] == if Inside(r, j) then after[j] else data[j]
  {
  }

  lemma {:induction false} OverwriteAllAt(data: seq<byte>, rs: seq<Range>, after: seq<byte>, j: nat)
    requires |data| == |after| && j < |after|
    requires Bounded(rs, |after|)
    ensures OverwriteAll(data, rs, after)[j] == if InRange(rs, j) then after[j] else data[j]
    decreases |rs|
  {
    if rs != [] {
      hide Overwrite, InRange, Inside;
      InRangeFront(rs, j);
      OverwriteAt(data, rs[0], after, j);
      OverwriteAllAt(Overwrite(data, rs[0], after), rs[1..], after, j);
    }
  }

  /** Applying encoded ranges overwrites exactly the bytes inside them. */
  lemma {:induction false} EncodedRangesApply(
      rs: seq<Range>, after: seq<byte>, raw: seq<byte>, at: nat, data: seq<byte>)
    requires |data| == |after| < U32_LIMIT && at <= |raw|
    requires Bounded(rs, |after|)
    requires raw[at..] == EncodeRanges(rs, after)
    ensures ApplyRanges(raw, at, |rs|, data) == Ok(OverwriteAll(data, rs, after))
    decreases |rs|
  {
    if rs != [] {
      hide EncodeRange, Overwrite, GetU32;
      var r, rest := rs[0], rs[1..];
      RangeApplies(r, after, EncodeRanges(rest, after), raw, at, |rest|, data);
      EncodedRangesApply(rest, after, raw, at + 8 + r.to - r.from, Overwrite(data, r, after));
    }
  }

  lemma InRangeFront(rs: seq<Range>, j: nat)
    requires rs != []
    ensures InRange(rs, j) <==> Inside(rs[0], j) || InRange(rs[1..], j)
  {
    if InRange(rs[1..], j) {
      var k :| 0 <= k < |rs[1..]| && Inside(rs[1..][k], j);
      assert Inside(rs[k + 1], j);
    }
    if InRange(rs, j) && !Inside(rs[0], j) {
      var k :| 0 <= k < |rs| && Inside(rs[k], j);
      assert Inside(rs[1..][k - 1], j);
    }
  }

  lemma {:induction false} RangesAreFew(rs: seq<Range>, n: nat, k: nat)
    requires WellSpaced(rs, n) && k < |rs|
    ensures k < rs[k].to <= n
  {
    if k > 0 {
      RangesAreFew(rs, n, k - 1);
    }
  }

  lemma RebuildAt(before: seq<byte>, after: seq<byte>, rs: seq<Range>, j: nat)
    requires |before| == |after| && j < |after|
    requires rs == RangesUpto(before, after, |after|) && Bounded(rs, |after|)
    ensures OverwriteAll(before, rs, after)[j] == after[j]
  {
    hide InRange, RangesUpto, OverwriteAll;
    OverwriteAllAt(before, rs, after, j);
    if !InRange(rs, j) {
      OutsideRangesAgrees(before, after, |after|, j);
    }
  }

  /** Writing the changed ranges of `after` over `before` gives `after`. */
  lemma RangesRebuild(before: seq<byte>, after: seq<byte>)
    requires |before| == |after|
    ensures WellSpaced(RangesUpto(before, after, |after|), |after|)
    ensures OverwriteAll(before, RangesUpto(before, after, |after|), after) == after
  {
    hide RangesUpto, OverwriteAll;
    var rs := RangesUpto(before, after, |after|);
    RangesAreSpaced(before, after, |after|);
    SpacedIsBounded(rs, |after|);
    hide WellSpaced, Bounded;
    forall j | 0 <= j < |after|
      ensures OverwriteAll(before, rs, after)[j] == after[j]
    {
      RebuildAt(before, after, rs, j);
    }
  }

  lemma SpacedIsBounded(rs: seq<Range>, n: nat)
    requires WellSpaced(rs, n)
    ensures Bounded(rs, n)
  {
  }

  lemma PatchReads(before: seq<byte>, rs: seq<Range>, after: seq<byte>, raw: seq<byte>, at: nat)
    requires |before| == |after| < U32_LIMIT && at <= |raw|
    requires WellSpaced(rs, |after|)
    requires raw[at..] == LE32(TruncateU32(|rs|)) + EncodeRanges(rs, after)
    ensures PatchData(raw, at, before) == Ok(OverwriteAll(before, rs, after))
  {
    if rs != [] {
      RangesAreFew(rs, |after|, |rs| - 1);
    }
    CountReads(raw, at, |rs|, EncodeRanges(rs, after));
    EncodedRangesApply(rs, after, raw, at + 4, before);
  }

  /** The diff applied to its base gives the new state. */
  lemma DiffBodyApplies(f: Foreign, base: AccountState, s: AccountState)
    requires OwnerFits(f, s) && |base.data| == |s.data| < U32_LIMIT
    ensures var rs := RangesUpto(base.data, s.data, |s.data|);
            && WellSpaced(rs, |s.data|)
            && (forall payload :: f.inflate(payload) == Some(DiffBody(s, rs)) ==>
                                    ApplyDiff(f, base, payload) == Ok(s))
  {
    hide RangesUpto, EncodeRanges, PatchData, OverwriteAll, GetU64, GetStr;
    var rs := RangesUpto(base.data, s.data, |s.data|);
    RangesRebuild(base.data, s.data);
    var tail := LE32(TruncateU32(|rs|)) + EncodeRanges(rs, s.data);
    PrologueReads(f, s, tail);
    PatchReads(base.data, rs, s.data, Prologue(s, tail), 12 + |s.owner|);
  }

  /** A diff applied to its base gives its state; under the limit its length is written
      whole. */
  lemma DiffRoundTrip(f: Foreign, base: AccountState, s: AccountState)
    requires Sound(f) && OwnerFits(f, s) && |s.data| < U32_LIMIT
    requires EncodeDiff(f, base, s).Some?
    ensures ApplyDiff(f, base, EncodeDiff(f, base, s).value) == Ok(s)
    ensures Storable(f, s) ==> |EncodeDiff(f, base, s).value| < U32_LIMIT
  {
    DiffBodyApplies(f, base, s);
    EncodeRangesSize(RangesUpto(base.data, s.data, |s.data|), s.data);
  }
}
