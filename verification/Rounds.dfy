/** Polling rounds: the spans they cover and which of them are held, over any run
    (src/records.rs). */
module Rounds {
  import opened Bytes
  import opened Coverage
  import opened Retention

  /** A round at `slot` extends the last span, opens a new one, or is not newer and
      changes nothing. */
  function NoteSpan(cov: seq<Span>, slot: u64): seq<Span> {
    var n := |cov|;
    if n > 0 && cov[n - 1].last >= slot then cov
    else if n > 0 && slot - cov[n - 1].last <= MAX_COVERAGE_GAP then
      cov[..n - 1] + [Span(cov[n - 1].first, slot)]
    else cov + [Span(slot, slot)]
  }

  /** Noting a newer round is merging in the one-slot span at it. */
  lemma NotingIsMerging(cov: seq<Span>, rs: seq<Span>, slot: u64)
    requires Least(cov, rs) && (cov == [] || cov[|cov| - 1].last < slot)
    ensures Least(NoteSpan(cov, slot), rs + [Span(slot, slot)])
  {
    if cov != [] {
      LastIsProper(cov);
    }
    AbsorbIsLeast(cov, rs, Span(slot, slot));
  }

  /** What a run of rounds leaves of a coverage. */
  function NoteAll(cov: seq<Span>, slots: seq<u64>): seq<Span> {
    if slots == [] then cov else NoteSpan(NoteAll(cov, slots[..|slots| - 1]), slots[|slots| - 1])
  }

  /** The rounds `i` to `j` follow each other by steps of at most a gap. */
  predicate Linked(slots: seq<u64>, i: nat, j: nat)
    requires i <= j < |slots|
  {
    forall k :: i <= k < j ==> slots[k + 1] - slots[k] <= MAX_COVERAGE_GAP
  }

  predicate Between(slots: seq<u64>, i: nat, j: nat, slot: u64)
    requires i <= j < |slots|
  {
    slots[i] <= slot <= slots[j] && Linked(slots, i, j)
  }

  /** `slot` lies between two rounds linked without a hole. */
  predicate Bridged(slots: seq<u64>, slot: u64) {
    exists i, j :: 0 <= i <= j < |slots| && Between(slots, i, j, slot)
  }

  lemma NoteIsNormal(cov: seq<Span>, slot: u64)
    requires Normal(cov) && (cov == [] || cov[|cov| - 1].last < slot)
    ensures Normal(NoteSpan(cov, slot)) && NoteSpan(cov, slot) != []
    ensures NoteSpan(cov, slot)[|NoteSpan(cov, slot)| - 1].last == slot
  {
  }

  lemma {:induction false} NotedSpansAreNormal(slots: seq<u64>)
    requires Sorted(slots)
    ensures Normal(NoteAll([], slots))
    ensures slots != [] ==> NoteAll([], slots) != []
                            && NoteAll([], slots)[|NoteAll([], slots)| - 1].last == slots[|slots| - 1]
  {
    if slots != [] {
      hide Normal, NoteSpan;
      var n := |slots| - 1;
      NotedSpansAreNormal(slots[..n]);
      NoteIsNormal(NoteAll([], slots[..n]), slots[n]);
    }
  }

  /** What one more round adds to the covered slots. */
  lemma NoteAdds(cov: seq<Span>, slot: u64, x: u64)
    requires Normal(cov) && (cov == [] || cov[|cov| - 1].last < slot)
    ensures Contains(NoteSpan(cov, slot), x) <==>
            || Contains(cov, x) || x == slot
            || (cov != [] && cov[|cov| - 1].last < x < slot && slot - cov[|cov| - 1].last <= MAX_COVERAGE_GAP)
  {
    var grown := NoteSpan(cov, slot);
    var p := Span(x, x);
    if Contains(cov, x) {
      var k :| 0 <= k < |cov| && Holds(cov[k], p);
      assert Holds(grown[k], p);
    }
    if x == slot || (cov != [] && cov[|cov| - 1].last < x < slot && slot - cov[|cov| - 1].last <= MAX_COVERAGE_GAP) {
      assert Holds(grown[|grown| - 1], p);
    }
    if Contains(grown, x) {
      var k :| 0 <= k < |grown| && Holds(grown[k], p);
      if k < |cov| && x <= cov[k].last {
        assert Holds(cov[k], p);
      }
    }
  }

  /** `x` falls in the step up to the last round, and the step is no hole. */
  predicate InLastStep(slots: seq<u64>, x: u64)
    requires slots != []
  {
    var n := |slots| - 1;
    n > 0 && slots[n - 1] < x < slots[n] && slots[n] - slots[n - 1] <= MAX_COVERAGE_GAP
  }

  lemma BridgeKept(slots: seq<u64>, x: u64)
    requires slots != []
    requires Bridged(slots[..|slots| - 1], x) || x == slots[|slots| - 1] || InLastStep(slots, x)
    ensures Bridged(slots, x)
  {
    var n := |slots| - 1;
    var pre := slots[..n];
    if Bridged(pre, x) {
      var i, j :| 0 <= i <= j < |pre| && Between(pre, i, j, x);
      BetweenInPrefix(slots, n, i, j, x);
      assert Between(slots, i, j, x);
    } else if x == slots[n] {
      assert Between(slots, n, n, x);
    } else {
      assert Between(slots, n - 1, n, x);
    }
  }

  lemma BridgeSplits(slots: seq<u64>, x: u64)
    requires slots != [] && Bridged(slots, x)
    ensures Bridged(slots[..|slots| - 1], x) || x == slots[|slots| - 1] || InLastStep(slots, x)
  {
    var n := |slots| - 1;
    var pre := slots[..n];
    var i, j :| 0 <= i <= j < |slots| && Between(slots, i, j, x);
    if j < n {
      BetweenInPrefix(slots, n, i, j, x);
      assert Between(pre, i, j, x);
    } else if i < n && x <= slots[n - 1] {
      assert Between(slots, i, n - 1, x);
      BetweenInPrefix(slots, n, i, n - 1, x);
      assert Between(pre, i, n - 1, x);
    } else if i < n {
      LinkedLast(slots, i, n);
    }
  }

  lemma LinkedLast(slots: seq<u64>, i: nat, j: nat)
    requires i < j < |slots| && Linked(slots, i, j)
    ensures slots[j] - slots[j - 1] <= MAX_COVERAGE_GAP
  {
    var k := j - 1;
    assert slots[k + 1] - slots[k] <= MAX_COVERAGE_GAP;
  }

  lemma BetweenInPrefix(slots: seq<u64>, n: nat, i: nat, j: nat, x: u64)
    requires i <= j < n <= |slots|
    ensures Between(slots[..n], i, j, x) <==> Between(slots, i, j, x)
  {
    var pre := slots[..n];
    assert pre[i] == slots[i] && pre[j] == slots[j];
    if Linked(pre, i, j) {
      forall k | i <= k < j
        ensures slots[k + 1] - slots[k] <= MAX_COVERAGE_GAP
      {
        assert pre[k + 1] - pre[k] <= MAX_COVERAGE_GAP;
      }
    }
    if Linked(slots, i, j) {
      forall k | i <= k < j
        ensures pre[k + 1] - pre[k] <= MAX_COVERAGE_GAP
      {
        assert slots[k + 1] - slots[k] <= MAX_COVERAGE_GAP;
      }
    }
  }

  // ---------------------------------------------------------------------------
  // The rounds themselves

  /** The slots at or after `floor`. */
  function AtOrAfter(slots: seq<u64>, floor: u64): (r: seq<u64>)
    ensures forall s :: s in r <==> s in slots && s >= floor
  {
    if slots == [] then []
    else
      var n := |slots| - 1;
      assert slots == slots[..n] + [slots[n]];
      var rest := AtOrAfter(slots[..n], floor);
      if slots[n] >= floor then rest + [slots[n]] else rest
  }

  /** A newer round is kept, and rounds that fell out of the dense window go. */
  function NoteRound(rounds: seq<u64>, slot: u64): seq<u64> {
    if rounds != [] && slot <= rounds[|rounds| - 1] then rounds
    else
      var grown := rounds + [slot];
      if grown[0] < DenseFrom(slot) then AtOrAfter(grown, DenseFrom(slot)) else grown
  }

  lemma {:induction false} AtOrAfterSorted(slots: seq<u64>, floor: u64)
    requires Sorted(slots)
    ensures Sorted(AtOrAfter(slots, floor))
  {
    if slots != [] {
      var n := |slots| - 1;
      AtOrAfterSorted(slots[..n], floor);
      var rest := AtOrAfter(slots[..n], floor);
      forall i | 0 <= i < |rest|
        ensures rest[i] < slots[n]
      {
        assert rest[i] in slots[..n];
      }
    }
  }

  lemma {:induction false} AllAfter(slots: seq<u64>, floor: u64)
    requires Sorted(slots) && (slots == [] || slots[0] >= floor)
    ensures AtOrAfter(slots, floor) == slots
  {
    if slots != [] {
      AllAfter(slots[..|slots| - 1], floor);
      assert slots == slots[..|slots| - 1] + [slots[|slots| - 1]];
    }
  }

  lemma AtOrAfterOneMore(slots: seq<u64>, slot: u64, floor: u64)
    ensures AtOrAfter(slots + [slot], floor)
         == if slot >= floor then AtOrAfter(slots, floor) + [slot] else AtOrAfter(slots, floor)
  {
    assert (slots + [slot])[..|slots|] == slots;
  }

  lemma {:induction false} AtOrAfterTwice(slots: seq<u64>, low: u64, high: u64)
    requires low <= high
    ensures AtOrAfter(AtOrAfter(slots, low), high) == AtOrAfter(slots, high)
  {
    if slots != [] {
      var n := |slots| - 1;
      AtOrAfterTwice(slots[..n], low, high);
      AtOrAfterOneMore(AtOrAfter(slots[..n], low), slots[n], high);
    }
  }

  /** The rounds held after a run of them. */
  function RoundsAfter(held: seq<u64>, slots: seq<u64>): seq<u64> {
    if slots == [] then held else NoteRound(RoundsAfter(held, slots[..|slots| - 1]), slots[|slots| - 1])
  }

  /** After a run of ever newer rounds, exactly those of the newest's dense window are
      held. */
  lemma {:induction false} AscendingHeld(slots: seq<u64>)
    requires Sorted(slots) && slots != []
    ensures RoundsAfter([], slots) == AtOrAfter(slots, DenseFrom(slots[|slots| - 1]))
    ensures Sorted(RoundsAfter([], slots)) && RoundsAfter([], slots) != []
    ensures RoundsAfter([], slots)[|RoundsAfter([], slots)| - 1] == slots[|slots| - 1]
  {
    hide *;
    var pre, slot := slots[..|slots| - 1], slots[|slots| - 1];
    assert slots == pre + [slot];
    var floor := DenseFrom(slot);
    AtOrAfterSorted(slots, floor);
    AscendsTo(slots);
    if pre == [] {
      NothingHeld(floor);
    } else {
      AscendingHeld(pre);
      TiersNest(pre[|pre| - 1], slot);
      AtOrAfterTwice(pre, DenseFrom(pre[|pre| - 1]), floor);
    }
    NoteRoundTrims(RoundsAfter([], pre), slot);
    NotedNext([], [], pre, slot);
    AtOrAfterOneMore(pre, slot, floor);
    DenseFromSelf(slot);
  }

  lemma NothingHeld(floor: u64)
    ensures RoundsAfter([], []) == [] && AtOrAfter([], floor) == [] && Sorted([])
  {
  }

  lemma DenseFromSelf(slot: u64)
    ensures DenseFrom(slot) <= slot
  {
  }

  lemma AscendsTo(slots: seq<u64>)
    requires Sorted(slots) && slots != []
    ensures var pre := slots[..|slots| - 1];
            Sorted(pre) && (pre != [] ==> pre[|pre| - 1] < slots[|slots| - 1])
  {
  }

  lemma NoteRoundTrims(held: seq<u64>, slot: u64)
    requires Sorted(held) && (held == [] || held[|held| - 1] < slot)
    ensures NoteRound(held, slot) == AtOrAfter(held, DenseFrom(slot)) + [slot]
  {
    hide AtOrAfter;
    var grown, floor := held + [slot], DenseFrom(slot);
    AtOrAfterOneMore(held, slot, floor);
    DenseFromSelf(slot);
    if grown[0] >= floor {
      AllAfter(held, floor);
    }
  }

  /** Whether a held round lies in `[from, to]`, by binary search. */
  method RoundIn(rounds: seq<u64>, from: u64, to: u64) returns (r: bool)
    requires Sorted(rounds)
    ensures r <==> exists k :: 0 <= k < |rounds| && from <= rounds[k] <= to
  {
    if to < from {
      return false;
    }
    var lo, hi := 0, |rounds|;
    while lo < hi
      invariant 0 <= lo <= hi <= |rounds|
      invariant forall k :: 0 <= k < lo ==> rounds[k] < from
      invariant forall k :: hi <= k < |rounds| ==> from <= rounds[k]
    {
      var mid := (lo + hi) / 2;
      if rounds[mid] < from {
        lo := mid + 1;
      } else {
        hi := mid;
      }
    }
    r := lo < |rounds| && rounds[lo] <= to;
  }

  // ---------------------------------------------------------------------------
  // Any run of rounds

  /** The rounds newer than every one before them. One round is noted for each chunk of
      accounts, so slots repeat, and a chunk's answer may even be older. */
  function Fresh(slots: seq<u64>): seq<u64> {
    if slots == [] then []
    else
      var before, slot := Fresh(slots[..|slots| - 1]), slots[|slots| - 1];
      if before != [] && slot <= before[|before| - 1] then before else before + [slot]
  }

  lemma {:induction false} FreshAscends(slots: seq<u64>)
    ensures Sorted(Fresh(slots))
    ensures slots != [] ==> Fresh(slots) != []
  {
    if slots != [] {
      FreshAscends(slots[..|slots| - 1]);
    }
  }

  /** The last fresh round is the newest of all. */
  lemma {:induction false} LastFreshIsNewest(slots: seq<u64>)
    requires slots != []
    ensures Fresh(slots) != [] && Fresh(slots)[|Fresh(slots)| - 1] in slots
    ensures forall s <- slots :: s <= Fresh(slots)[|Fresh(slots)| - 1]
  {
    var n := |slots| - 1;
    assert slots == slots[..n] + [slots[n]];
    if n > 0 {
      LastFreshIsNewest(slots[..n]);
    }
  }

  predicate IsFresh(slots: seq<u64>, i: nat)
    requires i < |slots|
  {
    forall j :: 0 <= j < i ==> slots[j] < slots[i]
  }

  lemma FreshInPrefix(slots: seq<u64>, n: nat, i: nat)
    requires i < n <= |slots|
    ensures IsFresh(slots[..n], i) == IsFresh(slots, i)
  {
    assert forall j :: 0 <= j <= i ==> slots[..n][j] == slots[j];
  }

  lemma LastIsFresh(slots: seq<u64>)
    requires slots != []
    ensures var pre := Fresh(slots[..|slots| - 1]);
            IsFresh(slots, |slots| - 1) <==> pre == [] || pre[|pre| - 1] < slots[|slots| - 1]
  {
    var n := |slots| - 1;
    if n > 0 {
      LastFreshIsNewest(slots[..n]);
      assert forall j :: 0 <= j < n ==> slots[j] in slots[..n];
    }
  }

  ghost predicate HasFresh(slots: seq<u64>, x: u64) {
    exists i :: 0 <= i < |slots| && slots[i] == x && IsFresh(slots, i)
  }

  /** The fresh rounds are those newer than every one before them. */
  lemma {:induction false} FreshIff(slots: seq<u64>, x: u64)
    ensures x in Fresh(slots) <==> HasFresh(slots, x)
  {
    if slots != [] {
      hide IsFresh;
      var n := |slots| - 1;
      FreshIff(slots[..n], x);
      LastIsFresh(slots);
      forall i: nat | i < n ensures IsFresh(slots[..n], i) == IsFresh(slots, i) {
        FreshInPrefix(slots, n, i);
      }
    }
  }

  /** Rounds that are not newer change neither coverage nor rounds. */
  lemma {:induction false} OnlyFreshCount(slots: seq<u64>)
    ensures NoteAll([], slots) == NoteAll([], Fresh(slots))
    ensures RoundsAfter([], slots) == RoundsAfter([], Fresh(slots))
  {
    if slots != [] {
      hide *;
      var pre, slot := slots[..|slots| - 1], slots[|slots| - 1];
      assert slots == pre + [slot];
      OnlyFreshCount(pre);
      NotedNext([], [], pre, slot);
      FreshNext(pre, slot);
      if Fresh(slots) == Fresh(pre) {
        StaleChangesNothing(pre, slot);
      } else {
        NotedNext([], [], Fresh(pre), slot);
      }
    } else {
      NothingFresh();
    }
  }

  lemma NothingFresh()
    ensures Fresh([]) == []
  {
  }

  lemma FreshNext(slots: seq<u64>, slot: u64)
    ensures Fresh(slots + [slot])
         == if Fresh(slots) != [] && slot <= Fresh(slots)[|Fresh(slots)| - 1] then Fresh(slots)
               else Fresh(slots) + [slot]
  {
    assert (slots + [slot])[..|slots|] == slots;
  }

  lemma NotedNext(cov: seq<Span>, held: seq<u64>, slots: seq<u64>, slot: u64)
    ensures NoteAll(cov, slots + [slot]) == NoteSpan(NoteAll(cov, slots), slot)
    ensures RoundsAfter(held, slots + [slot]) == NoteRound(RoundsAfter(held, slots), slot)
  {
    hide NoteSpan, NoteRound;
    assert (slots + [slot])[..|slots|] == slots;
  }

  lemma StaleChangesNothing(slots: seq<u64>, slot: u64)
    requires Fresh(slots) != [] && slot <= Fresh(slots)[|Fresh(slots)| - 1]
    ensures NoteSpan(NoteAll([], Fresh(slots)), slot) == NoteAll([], Fresh(slots))
    ensures NoteRound(RoundsAfter([], Fresh(slots)), slot) == RoundsAfter([], Fresh(slots))
  {
    hide NoteAll, RoundsAfter, Fresh, Normal;
    FreshAscends(slots);
    NotedSpansAreNormal(Fresh(slots));
    AscendingHeld(Fresh(slots));
  }

  /** Where a coverage ends, as the round before those to come. */
  function End(cov: seq<Span>): seq<u64> { if cov == [] then [] else [cov[|cov| - 1].last] }

  /** Coverage after a run of rounds ends with the newest of them, or where it ended. */
  lemma {:induction false} NotedEnds(cov: seq<Span>, slots: seq<u64>)
    requires Normal(cov)
    ensures Normal(NoteAll(cov, slots))
    ensures var counted := Fresh(End(cov) + slots);
            End(NoteAll(cov, slots)) == if counted == [] then [] else [counted[|counted| - 1]]
  {
    hide Normal, NoteSpan;
    if slots == [] {
      assert End(cov) + slots == End(cov);
      NothingNoted(cov, []);
      FreshOfOne(End(cov));
    } else {
      var pre, slot := slots[..|slots| - 1], slots[|slots| - 1];
      assert slots == pre + [slot] && End(cov) + slots == (End(cov) + pre) + [slot];
      NotedEnds(cov, pre);
      FreshNext(End(cov) + pre, slot);
      NotedNext(cov, [], pre, slot);
      NotedEnd(NoteAll(cov, pre), slot);
    }
  }

  lemma FreshOfOne(end: seq<u64>)
    requires |end| <= 1
    ensures Fresh(end) == end
  {
    if end != [] {
      assert end[..0] == [];
      assert Fresh([]) == [];
    }
  }

  /** One round more, newer or not. */
  lemma NotedEnd(cov: seq<Span>, slot: u64)
    requires Normal(cov)
    ensures cov != [] && slot <= cov[|cov| - 1].last ==> NoteSpan(cov, slot) == cov
    ensures cov == [] || slot > cov[|cov| - 1].last ==>
              Normal(NoteSpan(cov, slot)) && End(NoteSpan(cov, slot)) == [slot]
  {
    if cov == [] || slot > cov[|cov| - 1].last {
      NoteIsNormal(cov, slot);
    }
  }

  /** After any run of rounds, upon any coverage, a slot is covered exactly when it was
      before, or lies between rounds that count, linked without a hole; the first of them
      may link to where the coverage ended. */
  lemma {:induction false} CoveredIffBridged(cov: seq<Span>, slots: seq<u64>, x: u64)
    requires Normal(cov)
    ensures Contains(NoteAll(cov, slots), x) <==> Contains(cov, x) || Bridged(Fresh(End(cov) + slots), x)
  {
    hide *;
    if slots == [] {
      assert End(cov) + slots == End(cov);
      NothingNoted(cov, []);
      NothingBridged(cov, x);
    } else {
      var pre, slot := slots[..|slots| - 1], slots[|slots| - 1];
      assert slots == pre + [slot] && End(cov) + slots == (End(cov) + pre) + [slot];
      CoveredIffBridged(cov, pre, x);
      FreshNext(End(cov) + pre, slot);
      NotedNext(cov, [], pre, slot);
      NotedEnds(cov, pre);
      CoveredNext(NoteAll(cov, pre), Fresh(End(cov) + pre), slot, x);
    }
  }

  /** One more round covers `x`: it is newer and at `x`, or the step up to it is no hole
      and passes over `x`. */
  predicate Gains(end: seq<u64>, slot: u64, x: u64)
    requires |end| <= 1
  {
    && (end == [] || end[0] < slot)
    && (x == slot || (end != [] && end[0] < x < slot && slot - end[0] <= MAX_COVERAGE_GAP))
  }

  /** What one more round adds to the coverage it adds between the rounds. */
  lemma CoveredNext(cov: seq<Span>, counted: seq<u64>, slot: u64, x: u64)
    requires Normal(cov) && End(cov) == if counted == [] then [] else [counted[|counted| - 1]]
    ensures Contains(NoteSpan(cov, slot), x) <==> Contains(cov, x) || Gains(End(cov), slot, x)
    ensures Bridged(if counted != [] && slot <= counted[|counted| - 1] then counted else counted + [slot], x)
       <==> Bridged(counted, x) || Gains(End(cov), slot, x)
  {
    hide Contains, Bridged, NoteSpan, Normal;
    if counted != [] && slot <= counted[|counted| - 1] {
      NotedEnd(cov, slot);
    } else {
      NoteAdds(cov, slot, x);
      BridgedNext(counted, slot, x);
    }
  }

  lemma NothingBridged(cov: seq<Span>, x: u64)
    requires Normal(cov)
    ensures Contains(cov, x) <==> Contains(cov, x) || Bridged(Fresh(End(cov)), x)
  {
    FreshOfOne(End(cov));
    EndIsCovered(cov, x);
  }

  lemma EndIsCovered(cov: seq<Span>, x: u64)
    requires Normal(cov)
    ensures Bridged(End(cov), x) ==> Contains(cov, x)
  {
    if Bridged(End(cov), x) {
      var i, j :| 0 <= i <= j < |End(cov)| && Between(End(cov), i, j, x);
      assert Holds(cov[|cov| - 1], Span(x, x));
    }
  }

  /** A newer round bridges itself, and the step up to it unless that is a hole. */
  lemma BridgedNext(slots: seq<u64>, slot: u64, x: u64)
    ensures Bridged(slots + [slot], x) <==>
            || Bridged(slots, x) || x == slot
            || (slots != [] && slots[|slots| - 1] < x < slot && slot - slots[|slots| - 1] <= MAX_COVERAGE_GAP)
  {
    var grown, n := slots + [slot], |slots|;
    assert grown[..n] == slots;
    assert InLastStep(grown, x) <==> n > 0 && slots[n - 1] < x < slot && slot - slots[n - 1] <= MAX_COVERAGE_GAP;
    if Bridged(grown, x) {
      BridgeSplits(grown, x);
    } else if Bridged(slots, x) || x == slot || InLastStep(grown, x) {
      BridgeKept(grown, x);
    }
  }

  /** No round held is older than the newest one's dense window, as every store leaves
      them. */
  predicate Trimmed(held: seq<u64>) {
    Sorted(held) && (held != [] ==> held[0] >= DenseFrom(held[|held| - 1]))
  }

  /** After any run of rounds, upon any held before, exactly the ones that count and lie
      in the newest one's dense window are held. */
  lemma RoundsHeld(held: seq<u64>, slots: seq<u64>)
    requires Trimmed(held) && held + slots != []
    ensures var counted := Fresh(held + slots);
            && counted != []
            && RoundsAfter(held, slots) == AtOrAfter(counted, DenseFrom(counted[|counted| - 1]))
            && Trimmed(RoundsAfter(held, slots))
  {
    hide RoundsAfter, NoteAll, NoteRound, AtOrAfter, Fresh;
    var all := held + slots;
    if held == [] {
      NothingHeld(0);
    } else {
      AscendingHeld(held);
      AllAfter(held, DenseFrom(held[|held| - 1]));
    }
    NotedInTwo([], [], held, slots);
    OnlyFreshCount(all);
    FreshAscends(all);
    AscendingHeld(Fresh(all));
    var left := RoundsAfter(held, slots);
    assert left[0] in left;
  }

  /** A round that steps back is not covered, though it lies between rounds. */
  lemma SteppingBackIsNotCovered()
    ensures Bridged([1000, 500], 500) && !Contains(NoteAll([], [1000, 500]), 500)
  {
    var slots: seq<u64> := [1000, 500];
    assert Between(slots, 1, 1, 500);
    assert slots[..1] == [1000] && slots[..1][..0] == [];
    assert NoteAll([], slots[..1]) == [Span(1000, 1000)];
    assert NoteAll([], slots) == [Span(1000, 1000)];
  }

  /** Rounds split in two runs leave what they leave in one. */
  lemma {:induction false} NotedInTwo(cov: seq<Span>, held: seq<u64>, slots: seq<u64>, more: seq<u64>)
    ensures NoteAll(cov, slots + more) == NoteAll(NoteAll(cov, slots), more)
    ensures RoundsAfter(held, slots + more) == RoundsAfter(RoundsAfter(held, slots), more)
  {
    hide *;
    if more == [] {
      assert slots + more == slots;
      NothingNoted(NoteAll(cov, slots), RoundsAfter(held, slots));
    } else {
      var init, last := more[..|more| - 1], more[|more| - 1];
      NotedInTwo(cov, held, slots, init);
      assert more == init + [last] && slots + more == (slots + init) + [last];
      NotedNext(cov, held, slots + init, last);
      NotedNext(NoteAll(cov, slots), RoundsAfter(held, slots), init, last);
    }
  }

  lemma NothingNoted(cov: seq<Span>, held: seq<u64>)
    ensures NoteAll(cov, []) == cov && RoundsAfter(held, []) == held
  {
  }
}
