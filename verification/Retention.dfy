/** Two-tier retention: which versions survive thinning, and which lookups that
    leaves unchanged (src/records.rs). */
module Retention {
  import opened Bytes
  import opened Wrappers

  /** Every change is kept this many slots back (24 hours). */
  const DENSE_SLOTS := 216_000
  /** Further back, one version per this many slots (30 seconds). */
  const SPARSE_BUCKET := 75
  /** And nothing further than this (30 days), except one anchor. */
  const RETENTION_SLOTS := 6_480_000

  function SaturatingSub(a: u64, b: u64): u64 { if a >= b then a - b else 0 }

  function DenseFrom(now: u64): u64 { SaturatingSub(now, DENSE_SLOTS) }
  function KeepFrom(now: u64): u64 { SaturatingSub(now, RETENTION_SLOTS) }
  function Bucket(slot: u64): nat { slot / SPARSE_BUCKET }

  lemma TiersNest(n1: u64, n2: u64)
    requires n1 <= n2
    ensures KeepFrom(n1) <= KeepFrom(n2) <= DenseFrom(n2)
    ensures DenseFrom(n1) <= DenseFrom(n2)
  {
  }

  predicate Sorted(slots: seq<u64>) {
    forall i, j :: 0 <= i < j < |slots| ==> slots[i] < slots[j]
  }

  /** Between the retention cutoff and the dense tier. */
  predicate Sparse(slot: u64, now: u64) { KeepFrom(now) <= slot < DenseFrom(now) }

  /** A later sparse version shares the bucket of the one at `i`. */
  predicate Superseded(slots: seq<u64>, now: u64, i: nat)
    requires i < |slots|
  {
    exists j :: i < j < |slots| && Sparse(slots[j], now) && Bucket(slots[j]) == Bucket(slots[i])
  }

  /** A later version than the one at `i` also lies before the cutoff. */
  predicate OlderThanAnchor(slots: seq<u64>, now: u64, i: nat)
    requires i < |slots|
  {
    exists j :: i < j < |slots| && slots[j] < KeepFrom(now)
  }

  /** The tiers, said of one version at a time: dense ones stay, the newest of
      each sparse bucket stays, and so does the newest before the cutoff. */
  predicate Survives(slots: seq<u64>, now: u64, i: nat)
    requires i < |slots|
  {
    if slots[i] >= DenseFrom(now) then true
    else if slots[i] >= KeepFrom(now) then !Superseded(slots, now, i)
    else !OlderThanAnchor(slots, now, i)
  }

  // ---------------------------------------------------------------------------
  // The one-pass marking

  /** What the pass has marked once it has seen the first `n` slots. */
  predicate MarkedUpto(slots: seq<u64>, now: u64, n: nat, keep: seq<bool>)
    requires n <= |slots| == |keep|
  {
    forall k :: 0 <= k < |slots| ==>
      keep[k] == (k < n && slots[k] >= KeepFrom(now) && Survives(slots[..n], now, k))
  }

  /** The newest sparse version among the first `n`. */
  predicate IsLastSparse(slots: seq<u64>, now: u64, n: nat, last: Option<nat>)
    requires n <= |slots|
  {
    match last
    case None => forall k :: 0 <= k < n ==> !Sparse(slots[k], now)
    case Some(p) =>
      p < n && Sparse(slots[p], now) && forall k :: p < k < n ==> !Sparse(slots[k], now)
  }

  /** The newest version before the cutoff among the first `n`. */
  predicate IsAnchor(slots: seq<u64>, now: u64, n: nat, anchor: Option<nat>)
    requires n <= |slots|
  {
    match anchor
    case None => forall k :: 0 <= k < n ==> slots[k] >= KeepFrom(now)
    case Some(p) =>
      p < n && slots[p] < KeepFrom(now) && forall k :: p < k < n ==> slots[k] >= KeepFrom(now)
  }

  /** Seeing one more slot supersedes earlier versions exactly when it is sparse
      and shares their bucket. */
  lemma SupersededGrows(slots: seq<u64>, now: u64, n: nat, k: nat)
    requires k < n < |slots|
    ensures Superseded(slots[..n + 1], now, k) <==>
            Superseded(slots[..n], now, k) || (Sparse(slots[n], now) && Bucket(slots[n]) == Bucket(slots[k]))
  {
    var a, b := slots[..n], slots[..n + 1];
    if Superseded(a, now, k) {
      var j :| k < j < n && Sparse(a[j], now) && Bucket(a[j]) == Bucket(a[k]);
      assert Sparse(b[j], now) && Bucket(b[j]) == Bucket(b[k]);
    }
    if Sparse(slots[n], now) && Bucket(slots[n]) == Bucket(slots[k]) {
      assert Sparse(b[n], now) && Bucket(b[n]) == Bucket(b[k]);
    }
    if Superseded(b, now, k) {
      var j :| k < j < n + 1 && Sparse(b[j], now) && Bucket(b[j]) == Bucket(b[k]);
      assert j < n ==> Sparse(a[j], now) && Bucket(a[j]) == Bucket(a[k]);
    }
  }

  /** Only the last sparse version can be the one a new sparse slot supersedes. */
  lemma OnlyLastSupersededNow(slots: seq<u64>, now: u64, n: nat, last: Option<nat>, k: nat)
    requires Sorted(slots) && k < n < |slots| && IsLastSparse(slots, now, n, last)
    requires Sparse(slots[n], now) && Sparse(slots[k], now) && Bucket(slots[n]) == Bucket(slots[k])
    ensures last.Some? && Bucket(slots[last.value]) == Bucket(slots[n])
    ensures k != last.value ==> Superseded(slots[..n], now, k)
  {
    var p := last.value;
    assert k <= p && slots[k] <= slots[p] < slots[n];
    if k < p {
      var a := slots[..n];
      assert Sparse(a[p], now) && Bucket(a[p]) == Bucket(a[k]);
    }
  }

  lemma NoneSupersedesTheNewest(slots: seq<u64>, now: u64)
    requires slots != []
    ensures !Superseded(slots, now, |slots| - 1)
    ensures !OlderThanAnchor(slots, now, |slots| - 1)
  {
  }

  /** One slot's worth of marking. */
  lemma MarkOne(slots: seq<u64>, now: u64, n: nat, keep: seq<bool>, last: Option<nat>, keep': seq<bool>)
    requires Sorted(slots) && n < |slots| == |keep| == |keep'|
    requires MarkedUpto(slots, now, n, keep) && IsLastSparse(slots, now, n, last)
    requires forall k :: 0 <= k < |slots| ==>
               keep'[k] == if k == n then slots[n] >= KeepFrom(now)
                           else if Sparse(slots[n], now) && last == Some(k) && Bucket(slots[k]) == Bucket(slots[n])
                           then false else keep[k]
    ensures MarkedUpto(slots, now, n + 1, keep')
  {
    forall k | 0 <= k < |slots|
      ensures keep'[k] == (k < n + 1 && slots[k] >= KeepFrom(now) && Survives(slots[..n + 1], now, k))
    {
      if k == n {
        NoneSupersedesTheNewest(slots[..n + 1], now);
        assert slots[..n + 1][n] == slots[n];
      } else if k < n {
        SupersededGrows(slots, now, n, k);
        assert slots[..n + 1][k] == slots[..n][k] == slots[k];
        if Sparse(slots[n], now) && Sparse(slots[k], now) && Bucket(slots[n]) == Bucket(slots[k]) {
          OnlyLastSupersededNow(slots, now, n, last, k);
        }
      }
    }
  }

  lemma AnchorSurvives(slots: seq<u64>, now: u64, anchor: Option<nat>, k: nat)
    requires Sorted(slots) && k < |slots| && IsAnchor(slots, now, |slots|, anchor)
    requires slots[k] < KeepFrom(now)
    ensures Survives(slots, now, k) <==> anchor == Some(k)
  {
    var p := anchor.value;
    if k < p {
      assert k < p < |slots| && slots[p] < KeepFrom(now);
    }
  }

  /** The marks of a finished pass, with the anchor's added. */
  lemma MarksComplete(slots: seq<u64>, now: u64, keep: seq<bool>, anchor: Option<nat>)
    requires Sorted(slots) && |keep| == |slots| && MarkedUpto(slots, now, |slots|, keep)
    requires IsAnchor(slots, now, |slots|, anchor)
    ensures forall i :: 0 <= i < |slots| ==> (keep[i] || anchor == Some(i)) == Survives(slots, now, i)
    ensures anchor.Some? ==> anchor.value < |slots|
  {
    hide Survives;
    assert slots[..|slots|] == slots;
    forall k | 0 <= k < |slots| && slots[k] < KeepFrom(now)
      ensures Survives(slots, now, k) <==> anchor == Some(k)
    {
      AnchorSurvives(slots, now, anchor, k);
    }
  }

  lemma NothingMarked(slots: seq<u64>, now: u64)
    ensures MarkedUpto(slots, now, 0, seq(|slots|, _ => false))
  {
  }

  lemma NotYetMarked(slots: seq<u64>, now: u64, n: nat, keep: seq<bool>)
    requires n < |slots| == |keep| && MarkedUpto(slots, now, n, keep)
    ensures !keep[n]
  {
  }

  method KeptSlots(slots: seq<u64>, now: u64) returns (keep: seq<bool>)
    requires Sorted(slots)
    ensures |keep| == |slots|
    ensures forall i :: 0 <= i < |slots| ==> keep[i] == Survives(slots, now, i)
  {
    hide MarkedUpto, Survives, Sorted;
    var denseFrom := DenseFrom(now);
    var keepFrom := KeepFrom(now);
    keep := seq(|slots|, _ => false);
    NothingMarked(slots, now);
    var lastBucket: Option<(nat, nat)> := None;
    ghost var last: Option<nat> := None;
    var anchor: Option<nat> := None;
    for i := 0 to |slots|
      invariant |keep| == |slots|
      invariant MarkedUpto(slots, now, i, keep)
      invariant IsLastSparse(slots, now, i, last)
      invariant lastBucket == if last.Some? then Some((Bucket(slots[last.value]), last.value)) else None
      invariant IsAnchor(slots, now, i, anchor)
    {
      var slot := slots[i];
      ghost var before := keep;
      if slot < keepFrom {
        anchor := Some(i);
        NotYetMarked(slots, now, i, keep);
        MarkOne(slots, now, i, before, last, keep);
        continue;
      }
      if slot >= denseFrom {
        keep := keep[i := true];
        MarkOne(slots, now, i, before, last, keep);
        continue;
      }
      var bucket := Bucket(slot);
      if lastBucket.Some? && lastBucket.value.0 == bucket {
        keep := keep[lastBucket.value.1 := false]; // newest per bucket wins
      }
      keep := keep[i := true];
      MarkOne(slots, now, i, before, last, keep);
      last := Some(i);
      lastBucket := Some((bucket, i));
    }
    MarksComplete(slots, now, keep, anchor);
    if anchor.Some? {
      keep := keep[anchor.value := true];
    }
  }
}
