/** Which slots a recorder was running across: polled spans, merged as they come
    (src/records.rs). */
module Coverage {
  import opened Bytes

  /** Rounds further apart than this leave a hole. */
  const MAX_COVERAGE_GAP := 300

  datatype Span = Span(first: u64, last: u64)

  predicate Proper(r: Span) { r.first <= r.last }

  predicate Holds(s: Span, r: Span) { s.first <= r.first && r.last <= s.last }

  predicate Within(cov: seq<Span>, r: Span) {
    exists k :: 0 <= k < |cov| && Holds(cov[k], r)
  }

  predicate Contains(cov: seq<Span>, slot: u64) { Within(cov, Span(slot, slot)) }

  /** Ascending and disjoint, with more than a coverage gap between neighbours. */
  predicate Normal(cov: seq<Span>) {
    && (forall k :: 0 <= k < |cov| ==> Proper(cov[k]))
    && (forall j, k :: 0 <= j < k < |cov| ==> cov[j].last + MAX_COVERAGE_GAP < cov[k].first)
  }

  predicate CoversAll(cov: seq<Span>, rs: seq<Span>) {
    forall i :: 0 <= i < |rs| ==> Within(cov, rs[i])
  }

  /** The smallest normal coverage of `rs`: everything it spans, any other normal
      coverage of `rs` spans too. */
  ghost predicate Least(cov: seq<Span>, rs: seq<Span>) {
    && Normal(cov) && CoversAll(cov, rs)
    && forall other :: Normal(other) && CoversAll(other, rs) ==> CoversAll(other, cov)
  }

  // ---------------------------------------------------------------------------
  // Merging

  /** Take one more span, no earlier than the last one taken. */
  function Absorb(cov: seq<Span>, r: Span): seq<Span> {
    var n := |cov|;
    if n > 0 && r.first <= cov[n - 1].last + MAX_COVERAGE_GAP then
      cov[..n - 1] + [Span(cov[n - 1].first, if r.last > cov[n - 1].last then r.last else cov[n - 1].last)]
    else cov + [r]
  }

  lemma AbsorbIsNormal(cov: seq<Span>, r: Span)
    requires Normal(cov) && Proper(r)
    requires cov != [] ==> cov[|cov| - 1].first <= r.first
    ensures Normal(Absorb(cov, r))
    ensures Absorb(cov, r)[|Absorb(cov, r)| - 1].first <= r.first
  {
  }

  lemma AbsorbHolds(cov: seq<Span>, r: Span, s: Span)
    requires cov != [] ==> cov[|cov| - 1].first <= r.first
    requires Within(cov, s) || s == r
    ensures Within(Absorb(cov, r), s)
  {
    var grown := Absorb(cov, r);
    if Within(cov, s) {
      var k :| 0 <= k < |cov| && Holds(cov[k], s);
      assert Holds(grown[k], s);
    } else {
      assert Holds(grown[|grown| - 1], r);
    }
  }

  /** Any normal coverage of the last span and of a near one holds both in one. */
  lemma NearSpansShare(other: seq<Span>, last: Span, r: Span)
    requires Normal(other) && Proper(last) && Proper(r) && Within(other, last) && Within(other, r)
    requires last.first <= r.first <= last.last + MAX_COVERAGE_GAP
    ensures Within(other, Span(last.first, if r.last > last.last then r.last else last.last))
  {
    var j :| 0 <= j < |other| && Holds(other[j], last);
    var k :| 0 <= k < |other| && Holds(other[k], r);
    assert j == k;
    assert Holds(other[j], Span(last.first, if r.last > last.last then r.last else last.last));
  }

  lemma AbsorbIsLeast(cov: seq<Span>, rs: seq<Span>, r: Span)
    requires Least(cov, rs) && Proper(r)
    requires cov != [] ==> cov[|cov| - 1].first <= r.first
    ensures Least(Absorb(cov, r), rs + [r])
  {
    var all, grown := rs + [r], Absorb(cov, r);
    AbsorbIsNormal(cov, r);
    forall i | 0 <= i < |all|
      ensures Within(grown, all[i])
    {
      AbsorbHolds(cov, r, all[i]);
    }
    forall other | Normal(other) && CoversAll(other, all)
      ensures CoversAll(other, grown)
    {
      AbsorbIsMinimal(cov, rs, r, other);
    }
  }

  lemma AbsorbIsMinimal(cov: seq<Span>, rs: seq<Span>, r: Span, other: seq<Span>)
    requires Least(cov, rs) && Proper(r)
    requires cov != [] ==> cov[|cov| - 1].first <= r.first
    requires Normal(other) && CoversAll(other, rs + [r])
    ensures CoversAll(other, Absorb(cov, r))
  {
    hide Within, Normal;
    var all := rs + [r];
    assert Within(other, all[|rs|]);
    forall i | 0 <= i < |rs|
      ensures Within(other, rs[i])
    {
      assert all[i] == rs[i];
    }
    var n := |cov|;
    if n > 0 && r.first <= cov[n - 1].last + MAX_COVERAGE_GAP {
      LastIsProper(cov);
      NearSpansShare(other, cov[n - 1], r);
    }
  }

  lemma LastIsProper(cov: seq<Span>)
    requires Normal(cov) && cov != []
    ensures Proper(cov[|cov| - 1])
  {
  }

  predicate Before(a: Span, b: Span) {
    a.first < b.first || (a.first == b.first && a.last <= b.last)
  }

  predicate SortedSpans(rs: seq<Span>) {
    forall i, j :: 0 <= i < j < |rs| ==> Before(rs[i], rs[j])
  }

  /** The spans in order; the original calls its library's sort. */
  function Insert(rs: seq<Span>, r: Span): seq<Span> {
    if rs == [] then [r]
    else if Before(r, rs[0]) then [r] + rs
    else [rs[0]] + Insert(rs[1..], r)
  }

  function SortSpans(rs: seq<Span>): seq<Span> {
    if rs == [] then [] else Insert(SortSpans(rs[..|rs| - 1]), rs[|rs| - 1])
  }

  lemma {:induction false} InsertMembers(rs: seq<Span>, r: Span, x: Span)
    ensures x in Insert(rs, r) <==> x in rs || x == r
  {
    if rs != [] && !Before(r, rs[0]) {
      InsertMembers(rs[1..], r, x);
      assert rs == [rs[0]] + rs[1..];
    }
  }

  lemma {:induction false} InsertSorts(rs: seq<Span>, r: Span)
    requires SortedSpans(rs)
    ensures SortedSpans(Insert(rs, r))
  {
    if rs != [] && !Before(r, rs[0]) {
      InsertSorts(rs[1..], r);
      var rest := Insert(rs[1..], r);
      forall i | 0 <= i < |rest|
        ensures Before(rs[0], rest[i])
      {
        InsertMembers(rs[1..], r, rest[i]);
        assert rest[i] in rest;
        if rest[i] in rs[1..] {
          var k :| 0 <= k < |rs[1..]| && rs[1..][k] == rest[i];
        }
      }
    }
  }

  lemma {:induction false} SortSorts(rs: seq<Span>)
    ensures SortedSpans(SortSpans(rs))
    ensures forall x :: x in SortSpans(rs) <==> x in rs
  {
    if rs != [] {
      var n := |rs| - 1;
      SortSorts(rs[..n]);
      InsertSorts(SortSpans(rs[..n]), rs[n]);
      assert rs == rs[..n] + [rs[n]];
      forall x
        ensures x in SortSpans(rs) <==> x in rs
      {
        InsertMembers(SortSpans(rs[..n]), rs[n], x);
      }
    }
  }

  /** The coalescing loop: sort, then absorb from the left. */
  method MergeSpans(rs: seq<Span>) returns (merged: seq<Span>)
    requires forall i :: 0 <= i < |rs| ==> Proper(rs[i])
    ensures Least(merged, rs)
  {
    hide Least, CoversAll;
    var sorted := SortSpans(rs);
    SortSorts(rs);
    merged := [];
    LeastOfNone();
    for i := 0 to |sorted|
      invariant Least(merged, sorted[..i])
      invariant merged != [] ==> i > 0 && merged[|merged| - 1].first <= sorted[i - 1].first
    {
      var r := sorted[i];
      assert r in sorted;
      AbsorbIsLeast(merged, sorted[..i], r);
      AbsorbFirst(merged, r);
      assert sorted[..i + 1] == sorted[..i] + [r];
      if merged != [] && r.first <= merged[|merged| - 1].last + MAX_COVERAGE_GAP {
        var last := merged[|merged| - 1];
        merged := merged[..|merged| - 1] + [Span(last.first, if r.last > last.last then r.last else last.last)];
      } else {
        merged := merged + [r];
      }
    }
    assert sorted[..|sorted|] == sorted;
    LeastOfMembers(merged, sorted, rs);
  }

  lemma LeastOfNone()
    ensures Least([], [])
  {
  }

  lemma AbsorbFirst(cov: seq<Span>, r: Span)
    requires cov != [] ==> cov[|cov| - 1].first <= r.first
    ensures Absorb(cov, r) != [] && Absorb(cov, r)[|Absorb(cov, r)| - 1].first <= r.first
  {
  }

  // ---------------------------------------------------------------------------
  // What being least gives

  lemma CoversTransitively(a: seq<Span>, b: seq<Span>, rs: seq<Span>)
    requires CoversAll(a, b) && CoversAll(b, rs)
    ensures CoversAll(a, rs)
  {
    forall i | 0 <= i < |rs|
      ensures Within(a, rs[i])
    {
      var k :| 0 <= k < |b| && Holds(b[k], rs[i]);
      var j :| 0 <= j < |a| && Holds(a[j], b[k]);
      assert Holds(a[j], rs[i]);
    }
  }

  lemma CoversMembers(cov: seq<Span>, a: seq<Span>, b: seq<Span>)
    requires CoversAll(cov, a) && forall r :: r in b ==> r in a
    ensures CoversAll(cov, b)
  {
    forall i | 0 <= i < |b|
      ensures Within(cov, b[i])
    {
      assert b[i] in a;
      var k :| 0 <= k < |a| && a[k] == b[i];
    }
  }

  /** The result depends on the spans merged, not on their order or repeats. */
  lemma LeastOfMembers(cov: seq<Span>, a: seq<Span>, b: seq<Span>)
    requires Least(cov, a) && forall r :: r in a <==> r in b
    ensures Least(cov, b)
  {
    CoversMembers(cov, a, b);
    forall other | Normal(other) && CoversAll(other, b)
      ensures CoversAll(other, cov)
    {
      CoversMembers(other, b, a);
    }
  }

  /** Nor on how they were batched: merging the rest into a merged part is merging
      them all at once. */
  lemma LeastInBatches(part: seq<Span>, a: seq<Span>, b: seq<Span>, whole: seq<Span>)
    requires Least(part, a) && Least(whole, part + b)
    ensures Least(whole, a + b)
  {
    CoversMembers(whole, part + b, part);
    CoversMembers(whole, part + b, b);
    CoversTransitively(whole, part, a);
    CoversBoth(whole, a, b);
    forall other | Normal(other) && CoversAll(other, a + b)
      ensures CoversAll(other, whole)
    {
      CoversMembers(other, a + b, a);
      CoversMembers(other, a + b, b);
      CoversBoth(other, part, b);
    }
  }

  lemma CoversBoth(cov: seq<Span>, a: seq<Span>, b: seq<Span>)
    requires CoversAll(cov, a) && CoversAll(cov, b)
    ensures CoversAll(cov, a + b)
  {
    forall i | 0 <= i < |a + b|
      ensures Within(cov, (a + b)[i])
    {
      assert (a + b)[i] == if i < |a| then a[i] else b[i - |a|];
    }
  }

  /** A normal coverage is its own merge, so merging it in again changes nothing. */
  lemma NormalIsItsOwnMerge(cov: seq<Span>)
    requires Normal(cov)
    ensures Least(cov, cov)
  {
    forall i | 0 <= i < |cov|
      ensures Within(cov, cov[i])
    {
      assert Holds(cov[i], cov[i]);
    }
  }

  lemma HoldsOnlyItself(cov: seq<Span>, i: nat, k: nat)
    requires Normal(cov) && i < |cov| && k < |cov| && Holds(cov[i], cov[k])
    ensures i == k
  {
  }

  /** In two normal coverages of each other, the spans are the same. */
  lemma SameSpan(a: seq<Span>, b: seq<Span>, k: nat)
    requires Normal(a) && CoversAll(a, b) && CoversAll(b, a) && k < |a|
    ensures a[k] in b
  {
    hide Normal;
    assert Within(b, a[k]);
    var j :| 0 <= j < |b| && Holds(b[j], a[k]);
    assert Within(a, b[j]);
    var i :| 0 <= i < |a| && Holds(a[i], b[j]);
    HoldsOnlyItself(a, i, k);
  }

  lemma LastSpan(cov: seq<Span>, r: Span)
    requires Normal(cov) && r in cov
    ensures cov != [] && r.first <= cov[|cov| - 1].first
    ensures r.first == cov[|cov| - 1].first ==> r == cov[|cov| - 1]
  {
  }

  lemma HasItsLast(cov: seq<Span>)
    requires cov != []
    ensures cov[|cov| - 1] in cov
  {
  }

  lemma BeforeLast(cov: seq<Span>, r: Span)
    requires Normal(cov) && cov != []
    ensures r in cov[..|cov| - 1] <==> r in cov && r.first < cov[|cov| - 1].first
  {
    if r in cov {
      var i :| 0 <= i < |cov| && cov[i] == r;
      assert i < |cov| - 1 ==> cov[..|cov| - 1][i] == r;
    }
  }

  lemma {:induction false} NormalOrderIsUnique(a: seq<Span>, b: seq<Span>)
    requires Normal(a) && Normal(b)
    requires forall r :: r in a <==> r in b
    ensures a == b
    decreases |a|
  {
    if a == [] || b == [] {
      if a != [] {
        HasItsLast(a);
      }
      if b != [] {
        HasItsLast(b);
      }
    } else {
      var x, y := a[|a| - 1], b[|b| - 1];
      LastSpan(b, x);
      LastSpan(a, y);
      var a', b' := a[..|a| - 1], b[..|b| - 1];
      forall r
        ensures r in a' <==> r in b'
      {
        BeforeLast(a, r);
        BeforeLast(b, r);
      }
      NormalOrderIsUnique(a', b');
      assert a == a' + [x] && b == b' + [y];
    }
  }

  /** There is one least coverage, so every order, batching or repetition of the
      same merges ends in the same spans. */
  lemma LeastIsUnique(a: seq<Span>, b: seq<Span>, rs: seq<Span>)
    requires Least(a, rs) && Least(b, rs)
    ensures a == b
  {
    hide Normal, Within;
    assert CoversAll(a, b) && CoversAll(b, a);
    forall r
      ensures r in a <==> r in b
    {
      if r in a {
        var k :| 0 <= k < |a| && a[k] == r;
        SameSpan(a, b, k);
      }
      if r in b {
        var k :| 0 <= k < |b| && b[k] == r;
        SameSpan(b, a, k);
      }
    }
    NormalOrderIsUnique(a, b);
  }
}
