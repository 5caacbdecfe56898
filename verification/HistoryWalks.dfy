/** Walking an account's signature history back, page by page, equals filtering the
    whole ledger once (src/reconstruct.rs). */
module HistoryWalks {
  import opened Bytes
  import opened Wrappers

  const PAGE := 1000

  datatype WriteRef = WriteRef(signature: string, slot: u64, failed: bool)

  datatype Cut = Slot | Transaction(signature: string)

  /** Collect at most `max` writes before the cut, down to a floor. */
  datatype Query = Query(beforeSlot: u64, cut: Cut, floor: Option<u64>, max: nat)

  datatype HistoryWalk = HistoryWalk(mentions: seq<WriteRef>, reachedSlot: bool, reachedEnd: bool)

  datatype WalkError = OverBudget(cap: nat)

  predicate Distinct(es: seq<WriteRef>) {
    forall i, j :: 0 <= i < j < |es| ==> es[i].signature != es[j].signature
  }

  predicate NewestFirst(es: seq<WriteRef>) {
    forall i, j :: 0 <= i < j < |es| ==> es[i].slot >= es[j].slot
  }

  // ---------------------------------------------------------------------------
  // What is asked for

  predicate IsTarget(q: Query, w: WriteRef) { q.cut.Transaction? && w.signature == q.cut.signature }

  predicate Passed(q: Query, es: seq<WriteRef>, i: nat)
    requires i <= |es|
  {
    exists j :: 0 <= j < i && IsTarget(q, es[j])
  }

  predicate AtFloor(q: Query, w: WriteRef) { !IsTarget(q, w) && q.floor.Some? && w.slot <= q.floor.value }

  /** Entry `i` lies before the cut, and above the floor. */
  predicate InRange(q: Query, es: seq<WriteRef>, i: nat)
    requires i < |es|
  {
    && !IsTarget(q, es[i]) && !AtFloor(q, es[i])
    && (es[i].slot < q.beforeSlot || (es[i].slot == q.beforeSlot && q.cut.Transaction? && Passed(q, es, i)))
  }

  predicate Wanted(q: Query, es: seq<WriteRef>, i: nat)
    requires i < |es|
  {
    InRange(q, es, i) && !es[i].failed
  }

  /** The wanted entries among the first `n`, newest first. */
  function Wants(q: Query, es: seq<WriteRef>, n: nat): seq<WriteRef>
    requires n <= |es|
  {
    if n == 0 then []
    else if Wanted(q, es, n - 1) then Wants(q, es, n - 1) + [es[n - 1]]
    else Wants(q, es, n - 1)
  }

  /** Entry `i` ends the walk: the floor, or the last entry there is room for. */
  predicate StopsAt(q: Query, es: seq<WriteRef>, i: nat)
    requires i < |es|
  {
    AtFloor(q, es[i]) || (Wanted(q, es, i) && |Wants(q, es, i + 1)| >= q.max)
  }

  /** The first entry from `i` on that ends the walk, or the ledger's end. */
  function FirstStop(q: Query, es: seq<WriteRef>, i: nat): (r: nat)
    requires i <= |es|
    ensures i <= r <= |es|
    ensures forall j :: i <= j < r ==> !StopsAt(q, es, j)
    ensures r < |es| ==> StopsAt(q, es, r)
    decreases |es| - i
  {
    if i == |es| || StopsAt(q, es, i) then i else FirstStop(q, es, i + 1)
  }

  function Min(a: nat, b: nat): nat { if a < b then a else b }

  function PagesRead(q: Query, es: seq<WriteRef>, maxPages: nat): nat {
    Min(maxPages, FirstStop(q, es, 0) / PAGE + 1)
  }

  /** How many entries the walk looks at. */
  function Seen(q: Query, es: seq<WriteRef>, maxPages: nat): (r: nat)
    ensures r <= |es|
  {
    Min(Min(PagesRead(q, es, maxPages) * PAGE, |es|), FirstStop(q, es, 0) + 1)
  }

  function Reverse(s: seq<WriteRef>): seq<WriteRef> {
    if s == [] then [] else [s[|s| - 1]] + Reverse(s[..|s| - 1])
  }

  predicate AnyInRange(q: Query, es: seq<WriteRef>, n: nat)
    requires n <= |es|
  {
    exists i :: 0 <= i < n && InRange(q, es, i)
  }

  /** The page the walk stops in was read, and was short or held the floor. */
  predicate EndReached(q: Query, es: seq<WriteRef>, maxPages: nat) {
    var stop := FirstStop(q, es, 0);
    && stop / PAGE < maxPages
    && ((stop < |es| && AtFloor(q, es[stop])) || |es| < (stop / PAGE + 1) * PAGE)
  }

  function Walked(q: Query, es: seq<WriteRef>, maxPages: nat): HistoryWalk {
    var seen := Seen(q, es, maxPages);
    HistoryWalk(Reverse(Wants(q, es, seen)),
                EndReached(q, es, maxPages) || AnyInRange(q, es, seen),
                EndReached(q, es, maxPages))
  }

  /** A page takes its first wanted entry before it looks at `max`, and a walk that wants
      none reads one page: it is a walk for one entry over at most one page. */
  function Roomy(q: Query): Query { if q.max == 0 then q.(max := 1) else q }

  function Pages(q: Query, maxPages: nat): nat { if q.max == 0 then Min(maxPages, 1) else maxPages }

  /** Page `p` is where the walk ends. */
  predicate EndsIn(q: Query, es: seq<WriteRef>, maxPages: nat, p: nat, seen: nat, end: bool) {
    PagesRead(q, es, maxPages) == p + 1 && Seen(q, es, maxPages) == seen && EndReached(q, es, maxPages) == end
  }

  /** What the walk carries from page to page. */
  datatype Progress = Progress(out: seq<WriteRef>, before: Option<string>, reachedSlot: bool, reachedEnd: bool,
                               passed: bool)

  /** After `p` full pages without a stop. */
  predicate Reading(q: Query, es: seq<WriteRef>, p: nat, g: Progress) {
    && p * PAGE <= |es| && FirstStop(q, es, 0) >= p * PAGE
    && g.before == (if p == 0 then None else Some(es[p * PAGE - 1].signature))
    && g.out == Wants(q, es, p * PAGE) && |g.out| < q.max
    && g.passed == Passed(q, es, p * PAGE)
    && g.reachedSlot == AnyInRange(q, es, p * PAGE) && !g.reachedEnd
  }

  /** The walk ended on its page `p`. */
  predicate Over(q: Query, es: seq<WriteRef>, maxPages: nat, p: nat, g: Progress) {
    && PagesRead(q, es, maxPages) == p
    && Walked(q, es, maxPages) == HistoryWalk(Reverse(g.out), g.reachedSlot, g.reachedEnd)
  }

  lemma StillReading(q: Query, es: seq<WriteRef>, maxPages: nat, p: nat, g: Progress)
    requires p < maxPages && Reading(q, es, p, g)
    ensures PagesRead(q, es, maxPages) > p
  {
  }

  lemma ShortPage(q: Query, es: seq<WriteRef>, maxPages: nat, p: nat, seen: nat)
    requires p < maxPages && p * PAGE <= |es| < (p + 1) * PAGE && FirstStop(q, es, 0) >= p * PAGE
    requires seen == Min(FirstStop(q, es, 0) + 1, |es|)
    ensures EndsIn(q, es, maxPages, p, seen, true)
  {
  }

  lemma FloorPage(q: Query, es: seq<WriteRef>, maxPages: nat, p: nat)
    requires p < maxPages && p * PAGE <= FirstStop(q, es, 0) < (p + 1) * PAGE
    requires FirstStop(q, es, 0) < |es| && AtFloor(q, es[FirstStop(q, es, 0)])
    ensures EndsIn(q, es, maxPages, p, FirstStop(q, es, 0) + 1, true)
  {
  }

  lemma FullPage(q: Query, es: seq<WriteRef>, maxPages: nat, p: nat)
    requires p < maxPages && p * PAGE <= FirstStop(q, es, 0) < (p + 1) * PAGE <= |es|
    requires !AtFloor(q, es[FirstStop(q, es, 0)])
    ensures EndsIn(q, es, maxPages, p, FirstStop(q, es, 0) + 1, false)
  {
  }

  lemma Concludes(q: Query, es: seq<WriteRef>, maxPages: nat, p: nat, seen: nat, g: Progress)
    requires p > 0 && EndsIn(q, es, maxPages, p - 1, seen, g.reachedEnd)
    requires seen <= |es| && g.out == Wants(q, es, seen)
    requires g.reachedSlot == (g.reachedEnd || AnyInRange(q, es, seen))
    ensures Over(q, es, maxPages, p, g)
  {
  }

  lemma AllPages(q: Query, es: seq<WriteRef>, maxPages: nat, g: Progress)
    requires Reading(q, es, maxPages, g)
    ensures Over(q, es, maxPages, maxPages, g)
  {
  }

  // ---------------------------------------------------------------------------
  // The ledger, charged by the page

  /** Where a page after `before` starts. */
  function After(es: seq<WriteRef>, before: string): (r: nat)
    ensures r <= |es|
  {
    if es == [] then 0 else if es[0].signature == before then 1 else 1 + After(es[1..], before)
  }

  lemma {:induction false} AfterFinds(es: seq<WriteRef>, i: nat)
    requires Distinct(es) && i < |es|
    ensures After(es, es[i].signature) == i + 1
  {
    if i > 0 {
      AfterFinds(es[1..], i - 1);
    }
  }

  class BudgetedLedger {
    const entries: seq<WriteRef>
    const cap: nat
    var calls: nat

    constructor (entries: seq<WriteRef>, cap: nat)
      ensures this.entries == entries && this.cap == cap && calls == 0
    {
      this.entries, this.cap, calls := entries, cap, 0;
    }

    method Charge() returns (r: Result<(), WalkError>)
      modifies this
      ensures calls == old(calls) + 1
      ensures r == if old(calls) < cap then Ok(()) else Err(OverBudget(cap))
    {
      calls := calls + 1;
      r := if calls > cap then Err(OverBudget(cap)) else Ok(());
    }

    method Signatures(before: Option<string>, limit: nat) returns (r: Result<seq<WriteRef>, WalkError>)
      modifies this
      ensures calls == old(calls) + 1
      ensures var at := if before.Some? then After(entries, before.value) else 0;
              r == if old(calls) < cap then Ok(entries[at..Min(at + limit, |entries|)]) else Err(OverBudget(cap))
    {
      var charged := Charge();
      if charged.Err? {
        return Err(charged.error);
      }
      var at := if before.Some? then After(entries, before.value) else 0;
      r := Ok(entries[at..Min(at + limit, |entries|)]);
    }

    /** The page after the first `p`: either the walk goes on, or it is over. */
    method TakePage(q: Query, was: Progress, ghost p: nat, ghost maxPages: nat)
      returns (r: Result<(Progress, bool), WalkError>)
      requires Distinct(entries) && p < Pages(q, maxPages) && Reading(Roomy(q), entries, p, was)
      modifies this
      ensures calls == old(calls) + 1
      ensures if old(calls) >= cap then r == Err(OverBudget(cap))
              else r.Ok? && if r.value.1 then Over(Roomy(q), entries, Pages(q, maxPages), p + 1, r.value.0)
                            else q.max > 0 && Reading(Roomy(q), entries, p + 1, r.value.0)
    {
      hide After, Wants, StopsAt, FirstStop, Passed, AnyInRange, Distinct, InRange, AtFloor, EndsIn, Over, Scanned;
      var es := entries;
      ghost var room, pages := Roomy(q), Pages(q, maxPages);
      ghost var at := p * PAGE;
      if p > 0 {
        AfterFinds(es, at - 1);
      }
      var batch := Signatures(was.before, PAGE);
      if batch.Err? {
        return Err(batch.error);
      }
      var page := batch.value;
      if page == [] {
        ShortPage(room, es, pages, p, at);
        var over := was.(reachedSlot := true, reachedEnd := true);
        Concludes(room, es, pages, p + 1, at, over);
        return Ok((over, true));
      }
      var out, reachedSlot, passed, hitFloor := ScanPage(q, es, at, page, was.out, was.reachedSlot, was.passed);
      var next := Progress(out, Some(page[|page| - 1].signature), reachedSlot, false, passed);
      PageDone(room, es, pages, p, |page|, next, hitFloor);
      if hitFloor {
        return Ok((next.(reachedSlot := true, reachedEnd := true), true));
      }
      if |page| < PAGE {
        return Ok((next.(reachedSlot := true, reachedEnd := true), true));
      }
      if q.max == 0 && out == [] {
        AllPages(room, es, 1, next);
      }
      r := Ok((next, |out| >= q.max));
    }

    /** The walk, and when it runs over budget. */
    method Walk(q: Query, maxPages: nat) returns (r: Result<HistoryWalk, WalkError>)
      requires Distinct(entries)
      modifies this
      ensures var pages := PagesRead(Roomy(q), entries, Pages(q, maxPages));
              if pages == 0 || old(calls) + pages <= cap
              then r == Ok(Walked(Roomy(q), entries, Pages(q, maxPages))) && calls == old(calls) + pages
              else r == Err(OverBudget(cap)) && calls == (if old(calls) > cap then old(calls) else cap) + 1
    {
      hide Reading, PagesRead, Walked, Reverse, Distinct;
      var g := Progress([], None, false, false, false);
      ghost var room, pages := Roomy(q), Pages(q, maxPages);
      NothingSeen(room, entries);
      var p, done := 0, false;
      while p < maxPages && !done
        invariant p <= maxPages && calls == old(calls) + p && (p > 0 ==> calls <= cap)
        invariant done ==> Over(room, entries, pages, p, g)
        invariant !done ==> Reading(room, entries, p, g) && (q.max == 0 ==> p == 0)
        decreases maxPages - p, !done
      {
        StillReading(room, entries, pages, p, g);
        var page := TakePage(q, g, p, maxPages);
        if page.Err? {
          return Err(page.error);
        }
        p := p + 1;
        g, done := page.value.0, page.value.1;
      }
      if !done {
        AllPages(room, entries, pages, g);
      }
      r := Ok(HistoryWalk(Reverse(g.out), g.reachedSlot, g.reachedEnd));
    }
  }

  lemma NothingSeen(q: Query, es: seq<WriteRef>)
    requires q.max > 0
    ensures Reading(q, es, 0, Progress([], None, false, false, false))
  {
  }

  /** `n` entries from `at` on were scanned, or all up to the stop. */
  predicate Scanned(q: Query, es: seq<WriteRef>, at: nat, n: nat, out: seq<WriteRef>, reachedSlot: bool,
                    passed: bool, hitFloor: bool)
    requires at + n <= |es|
  {
    var stop := FirstStop(q, es, 0);
    var seen := Min(stop + 1, at + n);
    && stop >= at
    && out == Wants(q, es, seen) && reachedSlot == AnyInRange(q, es, seen)
    && hitFloor == (stop < at + n && AtFloor(q, es[stop]))
    && (stop >= at + n ==> passed == Passed(q, es, seen) && |out| < q.max)
    && (stop < at + n && !hitFloor ==> |out| >= q.max)
  }

  /** What follows from a page of `n` entries. */
  lemma PageDone(q: Query, es: seq<WriteRef>, maxPages: nat, p: nat, n: nat, g: Progress, hitFloor: bool)
    requires p < maxPages && p * PAGE + n <= |es| && 0 < n <= PAGE && (n < PAGE ==> p * PAGE + n == |es|)
    requires Scanned(q, es, p * PAGE, n, g.out, g.reachedSlot, g.passed, hitFloor)
    requires !g.reachedEnd && g.before == Some(es[p * PAGE + n - 1].signature)
    ensures if hitFloor || n < PAGE then Over(q, es, maxPages, p + 1, g.(reachedSlot := true, reachedEnd := true))
            else if |g.out| >= q.max then Over(q, es, maxPages, p + 1, g)
            else Reading(q, es, p + 1, g)
  {
    hide Wants, FirstStop, StopsAt, Passed, AnyInRange, InRange, AtFloor, EndsIn, Over;
    var stop := FirstStop(q, es, 0);
    if hitFloor {
      FloorPage(q, es, maxPages, p);
      Concludes(q, es, maxPages, p + 1, stop + 1, g.(reachedSlot := true, reachedEnd := true));
    } else if n < PAGE {
      ShortPage(q, es, maxPages, p, Min(stop + 1, |es|));
      Concludes(q, es, maxPages, p + 1, Min(stop + 1, |es|), g.(reachedSlot := true, reachedEnd := true));
    } else if |g.out| >= q.max {
      FullPage(q, es, maxPages, p);
      Concludes(q, es, maxPages, p + 1, stop + 1, g);
    }
  }

  /** One page of the walk: everything up to the stop, or all of it. */
  method ScanPage(q: Query, ghost es: seq<WriteRef>, ghost at: nat, page: seq<WriteRef>,
                  soFar: seq<WriteRef>, reached: bool, before: bool)
    returns (out: seq<WriteRef>, reachedSlot: bool, passed: bool, hitFloor: bool)
    requires at + |page| <= |es| && page == es[at..at + |page|]
    requires FirstStop(Roomy(q), es, 0) >= at && |soFar| < Roomy(q).max
    requires soFar == Wants(Roomy(q), es, at) && before == Passed(Roomy(q), es, at)
          && reached == AnyInRange(Roomy(q), es, at)
    ensures Scanned(Roomy(q), es, at, |page|, out, reachedSlot, passed, hitFloor)
  {
    hide Wants, FirstStop, Passed, AnyInRange;
    ghost var room := Roomy(q);
    out, reachedSlot, passed, hitFloor := soFar, reached, before, false;
    var j := 0;
    while j < |page|
      invariant j <= |page| && !hitFloor
      invariant FirstStop(room, es, 0) >= at + j && |out| < room.max
      invariant out == Wants(room, es, at + j) && passed == Passed(room, es, at + j)
      invariant reachedSlot == AnyInRange(room, es, at + j)
    {
      var w := page[j];
      assert w == es[at + j];
      Next(room, es, at + j);
      if q.cut.Transaction? && w.signature == q.cut.signature {
        passed := true;
      } else {
        if q.floor.Some? && w.slot <= q.floor.value {
          hitFloor := true;
          break;
        }
        var sameSlotOk := q.cut.Transaction? && passed;
        if w.slot < q.beforeSlot || (w.slot == q.beforeSlot && sameSlotOk) {
          reachedSlot := true;
          if !w.failed {
            out := out + [w];
            if |out| >= q.max {
              break;
            }
          }
        }
      }
      j := j + 1;
    }
  }

  lemma Next(q: Query, es: seq<WriteRef>, i: nat)
    requires i < |es|
    ensures Wants(q, es, i + 1) == if Wanted(q, es, i) then Wants(q, es, i) + [es[i]] else Wants(q, es, i)
    ensures Passed(q, es, i + 1) == (Passed(q, es, i) || IsTarget(q, es[i]))
    ensures AnyInRange(q, es, i + 1) == (AnyInRange(q, es, i) || InRange(q, es, i))
    ensures StopsAt(q, es, i) == (AtFloor(q, es[i]) || (Wanted(q, es, i) && |Wants(q, es, i + 1)| >= q.max))
  {
  }
}
