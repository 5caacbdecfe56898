/** What a paged history walk tells: it is a filter of the whole ledger, cut at `max`,
    and when its end flag can be trusted (src/reconstruct.rs). */
module HistoryLaws {
  import opened HistoryWalks
  import opened Wrappers

  function Take(s: seq<WriteRef>, n: nat): seq<WriteRef> { if |s| <= n then s else s[..n] }

  lemma {:induction false} WantsPrefix(q: Query, es: seq<WriteRef>, i: nat, n: nat)
    requires i <= n <= |es|
    ensures Wants(q, es, i) <= Wants(q, es, n)
  {
    if i < n {
      WantsPrefix(q, es, i, n - 1);
    }
  }

  /** Before the stop there is room for more; at it, room for just that entry. */
  lemma {:induction false} RoomBeforeStop(q: Query, es: seq<WriteRef>, k: nat)
    requires q.max > 0 && k <= FirstStop(q, es, 0)
    ensures |Wants(q, es, k)| < q.max
    ensures k < |es| ==> |Wants(q, es, k + 1)| <= q.max
  {
    if k > 0 {
      RoomBeforeStop(q, es, k - 1);
      assert !StopsAt(q, es, k - 1);
    }
  }

  /** Past a floor, a newest-first ledger holds nothing wanted. */
  lemma {:induction false} NothingPastFloor(q: Query, es: seq<WriteRef>, i: nat, n: nat)
    requires NewestFirst(es) && i < n <= |es| && AtFloor(q, es[i])
    ensures Wants(q, es, n) == Wants(q, es, i)
  {
    if i + 1 < n {
      NothingPastFloor(q, es, i, n - 1);
    }
  }

  lemma WantsUpToSeen(q: Query, es: seq<WriteRef>, n: nat)
    requires NewestFirst(es) && q.max > 0 && n <= |es|
    ensures var stop := FirstStop(q, es, 0);
            Wants(q, es, Min(stop + 1, n)) == Take(Wants(q, es, n), q.max)
  {
    var stop := FirstStop(q, es, 0);
    RoomBeforeStop(q, es, Min(stop, n));
    if stop < n {
      if AtFloor(q, es[stop]) {
        NothingPastFloor(q, es, stop, n);
        NothingPastFloor(q, es, stop, stop + 1);
      } else {
        WantsPrefix(q, es, stop + 1, n);
      }
    } else {
      WantsPrefix(q, es, n, n);
    }
  }

  /** The walk collects the newest `max` wanted entries of the pages it may read, and
      gives them oldest first. */
  lemma WalkIsFilter(q: Query, es: seq<WriteRef>, maxPages: nat)
    requires NewestFirst(es) && q.max > 0
    ensures Walked(q, es, maxPages).mentions
         == Reverse(Take(Wants(q, es, Min(maxPages * PAGE, |es|)), q.max))
  {
    hide Wants, FirstStop, Reverse, Take, NewestFirst;
    WantsUpToSeen(q, es, Min(maxPages * PAGE, |es|));
    SeenIs(q, es, maxPages);
  }

  lemma SeenIs(q: Query, es: seq<WriteRef>, maxPages: nat)
    ensures Seen(q, es, maxPages) == Min(FirstStop(q, es, 0) + 1, Min(maxPages * PAGE, |es|))
  {
    hide FirstStop;
    var stop := FirstStop(q, es, 0);
    if stop / PAGE + 1 <= maxPages {
      assert stop + 1 <= (stop / PAGE + 1) * PAGE <= maxPages * PAGE;
    }
  }

  lemma {:induction false} ReverseLength(s: seq<WriteRef>)
    ensures |Reverse(s)| == |s|
  {
    if s != [] {
      ReverseLength(s[..|s| - 1]);
    }
  }

  /** With room to spare, an end reached means nothing wanted is missing anywhere. */
  lemma NothingMissing(q: Query, es: seq<WriteRef>, maxPages: nat)
    requires NewestFirst(es) && q.max > 0
    requires Walked(q, es, maxPages).reachedEnd && |Walked(q, es, maxPages).mentions| < q.max
    ensures Walked(q, es, maxPages).mentions == Reverse(Wants(q, es, |es|))
  {
    hide Wants, FirstStop, Reverse, NewestFirst;
    var stop := FirstStop(q, es, 0);
    ReverseLength(Wants(q, es, Seen(q, es, maxPages)));
    SeenIs(q, es, maxPages);
    assert stop + 1 <= (stop / PAGE + 1) * PAGE <= maxPages * PAGE;
    if stop < |es| && AtFloor(q, es[stop]) {
      NothingPastFloor(q, es, stop, |es|);
      NothingPastFloor(q, es, stop, stop + 1);
    }
  }

  /** With room to spare, the end is reached exactly when the pages allowed hold a
      floor entry or more than the ledger. */
  lemma EndReachedIff(q: Query, es: seq<WriteRef>, maxPages: nat)
    requires q.max > 0 && |Walked(q, es, maxPages).mentions| < q.max
    ensures Walked(q, es, maxPages).reachedEnd
       <==> |es| < maxPages * PAGE || exists i :: 0 <= i < maxPages * PAGE && AtFloor(q, es[i])
  {
    hide Wants, Reverse;
    var stop := FirstStop(q, es, 0);
    ReverseLength(Wants(q, es, Seen(q, es, maxPages)));
    SeenIs(q, es, maxPages);
    assert stop / PAGE * PAGE <= stop < (stop / PAGE + 1) * PAGE;
    if stop / PAGE < maxPages {
      assert (stop / PAGE + 1) * PAGE <= maxPages * PAGE;
    } else {
      assert maxPages * PAGE <= stop / PAGE * PAGE;
    }
    if |es| >= maxPages * PAGE && exists i :: 0 <= i < maxPages * PAGE && AtFloor(q, es[i]) {
      var i :| 0 <= i < maxPages * PAGE && AtFloor(q, es[i]);
      assert StopsAt(q, es, i);
    }
  }

  // ---------------------------------------------------------------------------
  // A full walk says nothing of what is older

  lemma {:induction false} WantsOfLonger(q: Query, es: seq<WriteRef>, older: WriteRef, n: nat)
    requires n <= |es|
    ensures Wants(q, es + [older], n) == Wants(q, es, n)
  {
    if n > 0 {
      WantsOfLonger(q, es, older, n - 1);
      PassedOfLonger(q, es, older, n - 1);
    }
  }

  lemma PassedOfLonger(q: Query, es: seq<WriteRef>, older: WriteRef, n: nat)
    requires n <= |es|
    ensures Passed(q, es + [older], n) == Passed(q, es, n)
  {
    var longer := es + [older];
    assert forall j :: 0 <= j < n ==> longer[j] == es[j];
  }

  lemma StopOfLonger(q: Query, es: seq<WriteRef>, older: WriteRef)
    requires FirstStop(q, es, 0) < |es|
    ensures FirstStop(q, es + [older], 0) == FirstStop(q, es, 0)
  {
    hide FirstStop, Wants, Passed, AtFloor, IsTarget;
    var stop, longer := FirstStop(q, es, 0), es + [older];
    forall i | 0 <= i <= stop ensures StopsAt(q, longer, i) == StopsAt(q, es, i) {
      WantsOfLonger(q, es, older, i + 1);
      PassedOfLonger(q, es, older, i);
    }
  }

  /** A walk that collected its `max` looks the same over a ledger holding one more,
      older entry, unless that entry fills the last page read: so its end flag does not
      say that entry is not there. */
  lemma FullWalkSaysNothing(q: Query, es: seq<WriteRef>, maxPages: nat, older: WriteRef)
    requires q.max > 0 && |Walked(q, es, maxPages).mentions| == q.max
    ensures Walked(q, es + [older], maxPages) == Walked(q, es, maxPages)
       <==> |es| + 1 != PagesRead(q, es, maxPages) * PAGE
    ensures Walked(q, es + [older], maxPages).mentions == Walked(q, es, maxPages).mentions
  {
    hide FirstStop, Wants, Passed, Reverse, AtFloor, InRange;
    var stop, longer := FirstStop(q, es, 0), es + [older];
    ReverseLength(Wants(q, es, Seen(q, es, maxPages)));
    SeenIs(q, es, maxPages);
    SeenIs(q, longer, maxPages);
    StopIsSeen(q, es, maxPages);
    FullIsNotAtFloor(q, es, maxPages);
    StopOfLonger(q, es, older);
    WantsOfLonger(q, es, older, stop + 1);
    forall i | 0 <= i <= stop ensures InRange(q, longer, i) == InRange(q, es, i) {
      PassedOfLonger(q, es, older, i);
      SameRange(q, es, longer, i);
    }
    InPage(stop, maxPages);
  }

  lemma InPage(stop: nat, maxPages: nat)
    requires stop < maxPages * PAGE
    ensures stop / PAGE < maxPages && stop < (stop / PAGE + 1) * PAGE
  {
    assert stop / PAGE * PAGE <= stop < (stop / PAGE + 1) * PAGE;
  }

  lemma FullIsNotAtFloor(q: Query, es: seq<WriteRef>, maxPages: nat)
    requires q.max > 0 && |Walked(q, es, maxPages).mentions| == q.max
    ensures FirstStop(q, es, 0) < |es| && !AtFloor(q, es[FirstStop(q, es, 0)])
  {
    hide FirstStop, Passed, AtFloor, InRange;
    var stop := FirstStop(q, es, 0);
    ReverseLength(Wants(q, es, Seen(q, es, maxPages)));
    SeenIs(q, es, maxPages);
    StopIsSeen(q, es, maxPages);
    RoomBeforeStop(q, es, stop);
    FloorIsOut(q, es, stop);
  }

  lemma FloorIsOut(q: Query, es: seq<WriteRef>, i: nat)
    requires i < |es|
    ensures AtFloor(q, es[i]) ==> !InRange(q, es, i)
  {
  }

  lemma SameRange(q: Query, es: seq<WriteRef>, longer: seq<WriteRef>, i: nat)
    requires i < |es| && i < |longer| && es[i] == longer[i] && Passed(q, es, i) == Passed(q, longer, i)
    ensures InRange(q, es, i) == InRange(q, longer, i)
  {
    hide Passed;
  }

  lemma StopIsSeen(q: Query, es: seq<WriteRef>, maxPages: nat)
    requires q.max > 0 && |Walked(q, es, maxPages).mentions| == q.max
    ensures FirstStop(q, es, 0) < Min(maxPages * PAGE, |es|)
  {
    hide FirstStop;
    var stop := FirstStop(q, es, 0);
    ReverseLength(Wants(q, es, Seen(q, es, maxPages)));
    SeenIs(q, es, maxPages);
    RoomBeforeStop(q, es, Min(stop, Min(maxPages * PAGE, |es|)));
  }

  /** So the end flag alone does not mean nothing is missing. */
  lemma EndFlagCanMislead()
    ensures var q := Query(10, Slot, None, 1);
            var es := [WriteRef("newer", 9, false), WriteRef("older", 8, false)];
            Walked(q, es, 1).reachedEnd && Walked(q, es, 1).mentions != Reverse(Wants(q, es, |es|))
  {
    var q := Query(10, Slot, None, 1);
    var es := [WriteRef("newer", 9, false), WriteRef("older", 8, false)];
    assert Wants(q, es, 0) == [];
    assert Wants(q, es, 1) == [es[0]];
    assert StopsAt(q, es, 0);
    assert FirstStop(q, es, 0) == 0;
    ReverseLength(Wants(q, es, 1));
    ReverseLength(Wants(q, es, 2));
  }
}
