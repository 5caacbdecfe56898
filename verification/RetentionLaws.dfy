/** What thinning promises: the lookups it leaves alone, and how repeated thinnings
    compose. */
module RetentionLaws {
  import opened Bytes
  import opened Chain
  import opened Retention
  import opened Timeline
  import opened Wrappers

  function Slots(vs: seq<Version>): (r: seq<u64>)
    ensures |r| == |vs| && forall i :: 0 <= i < |vs| ==> r[i] == vs[i].slot
  {
    seq(|vs|, i requires 0 <= i < |vs| => vs[i].slot)
  }

  function Marks(vs: seq<Version>, now: u64): (r: seq<bool>)
    ensures |r| == |vs| && forall i :: 0 <= i < |vs| ==> r[i] == Survives(Slots(vs), now, i)
  {
    seq(|vs|, i requires 0 <= i < |vs| => Survives(Slots(vs), now, i))
  }

  predicate AllSurvive(vs: seq<Version>, now: u64) {
    forall i :: 0 <= i < |vs| ==> Marks(vs, now)[i]
  }

  /** A log with nothing to drop is left as it is; any other is re-encoded. */
  function Thinned(vs: seq<Version>, now: u64): seq<Version> {
    if AllSurvive(vs, now) then vs else Rewrite(vs, Marks(vs, now))
  }

  lemma ThinAscends(vs: seq<Version>, now: u64)
    requires Ascending(vs)
    ensures Ascending(Thinned(vs, now))
  {
    RewriteAscends(vs, Marks(vs, now));
  }

  /** The same slot and state; the balance mark may differ. */
  predicate SameReading(a: Version, b: Version) { a.slot == b.slot && a.state == b.state }

  predicate SameAnswer(a: Option<Version>, b: Option<Version>) {
    (a.None? && b.None?) || (a.Some? && b.Some? && SameReading(a.value, b.value))
  }

  lemma ThinFrom(vs: seq<Version>, now: u64, v: Version) returns (i: nat)
    requires v in Thinned(vs, now)
    ensures i < |vs| && Marks(vs, now)[i] && SameReading(v, vs[i]) && vs[i] in vs
  {
    hide Survives;
    if AllSurvive(vs, now) {
      i :| 0 <= i < |vs| && vs[i] == v;
    } else {
      RewriteMembers(vs, Marks(vs, now), v);
      i :| 0 <= i < |vs| && Marks(vs, now)[i] && v == Settled(vs[i]);
    }
  }

  lemma ThinHas(vs: seq<Version>, now: u64, i: nat) returns (v: Version)
    requires i < |vs| && Survives(Slots(vs), now, i)
    ensures v in Thinned(vs, now) && SameReading(v, vs[i])
  {
    hide Survives;
    if AllSurvive(vs, now) {
      v := vs[i];
    } else {
      v := Settled(vs[i]);
      assert Marks(vs, now)[i] && v == Settled(vs[i]);
      RewriteMembers(vs, Marks(vs, now), v);
    }
  }

  // ---------------------------------------------------------------------------
  // Lookups

  /** The version a lookup at `slot` returns outlives the thinning. */
  predicate AnswerSurvives(vs: seq<Version>, now: u64, slot: u64) {
    forall i :: 0 <= i < |vs| && Lookup(vs, slot) == Some(vs[i]) ==> Survives(Slots(vs), now, i)
  }

  lemma AnswerPosition(vs: seq<Version>, slot: u64) returns (i: nat)
    requires Ascending(vs) && Lookup(vs, slot).Some?
    ensures i < |vs| && Lookup(vs, slot) == Some(vs[i])
    ensures vs[i].slot <= slot && forall k :: i < k < |vs| ==> slot < vs[k].slot
  {
    LookupAnswers(vs, slot);
    i :| 0 <= i < |vs| && vs[i] == Lookup(vs, slot).value;
    forall k | i < k < |vs|
      ensures slot < vs[k].slot
    {
      assert vs[k] in vs;
    }
  }

  /** A lookup reads the same after thinning exactly when its answer survives. */
  lemma ThinnedLookup(vs: seq<Version>, now: u64, slot: u64)
    requires Ascending(vs)
    ensures SameAnswer(Lookup(Thinned(vs, now), slot), Lookup(vs, slot)) <==> AnswerSurvives(vs, now, slot)
  {
    hide Survives, Thinned;
    ThinAscends(vs, now);
    LookupAnswers(vs, slot);
    LookupAnswers(Thinned(vs, now), slot);
    if Lookup(vs, slot).None? {
      if Lookup(Thinned(vs, now), slot).Some? {
        var i := ThinFrom(vs, now, Lookup(Thinned(vs, now), slot).value);
      }
    } else {
      var i := AnswerPosition(vs, slot);
      if Survives(Slots(vs), now, i) {
        KeptAnswerStands(vs, now, slot, i);
      } else {
        DroppedAnswerIsLost(vs, now, slot, i);
      }
    }
  }

  lemma KeptAnswerStands(vs: seq<Version>, now: u64, slot: u64, i: nat)
    requires Ascending(vs) && i < |vs| && Lookup(vs, slot) == Some(vs[i])
    requires Survives(Slots(vs), now, i)
    ensures SameAnswer(Lookup(Thinned(vs, now), slot), Lookup(vs, slot))
    ensures AnswerSurvives(vs, now, slot)
  {
    hide Survives, Thinned;
    LookupAnswers(vs, slot);
    ThinAscends(vs, now);
    var v := ThinHas(vs, now, i);
    forall w | w in Thinned(vs, now) && w.slot <= slot
      ensures w.slot <= v.slot
    {
      var k := ThinFrom(vs, now, w);
    }
    AnswerIsLookup(Thinned(vs, now), slot, Some(v));
    forall k | 0 <= k < |vs| && Lookup(vs, slot) == Some(vs[k])
      ensures k == i
    {
    }
  }

  lemma SlotPosition(vs: seq<Version>, i: nat, k: nat)
    requires Ascending(vs) && i < |vs| && k < |vs| && vs[i].slot == vs[k].slot
    ensures i == k
  {
  }

  lemma DroppedAnswerIsLost(vs: seq<Version>, now: u64, slot: u64, i: nat)
    requires Ascending(vs) && i < |vs| && Lookup(vs, slot) == Some(vs[i])
    requires !Survives(Slots(vs), now, i)
    ensures !SameAnswer(Lookup(Thinned(vs, now), slot), Lookup(vs, slot))
    ensures !AnswerSurvives(vs, now, slot)
  {
    hide Survives, Thinned;
    ThinAscends(vs, now);
    LookupAnswers(Thinned(vs, now), slot);
    var r := Lookup(Thinned(vs, now), slot);
    if r.Some? && SameReading(r.value, vs[i]) {
      var k := ThinFrom(vs, now, r.value);
      SlotPosition(vs, k, i);
    }
  }

  /** Thinning never changes a lookup in the dense tier. */
  lemma DenseLookupsUnchanged(vs: seq<Version>, now: u64, slot: u64)
    requires Ascending(vs) && slot >= DenseFrom(now)
    ensures SameAnswer(Lookup(Thinned(vs, now), slot), Lookup(vs, slot))
  {
    ThinnedLookup(vs, now, slot);
    forall i | 0 <= i < |vs| && Lookup(vs, slot) == Some(vs[i])
      ensures Survives(Slots(vs), now, i)
    {
      var k := AnswerPosition(vs, slot);
      assert k == i;
    }
  }

  /** Nor at the last slot of any bucket inside retention, whatever the account
      recorded or how long ago. */
  lemma BucketEndLookupsUnchanged(vs: seq<Version>, now: u64, slot: u64)
    requires Ascending(vs) && slot >= KeepFrom(now) && slot % SPARSE_BUCKET == SPARSE_BUCKET - 1
    ensures SameAnswer(Lookup(Thinned(vs, now), slot), Lookup(vs, slot))
  {
    ThinnedLookup(vs, now, slot);
    forall i | 0 <= i < |vs| && Lookup(vs, slot) == Some(vs[i])
      ensures Survives(Slots(vs), now, i)
    {
      var k := AnswerPosition(vs, slot);
      assert k == i;
      forall j | i < j < |vs|
        ensures Bucket(vs[j].slot) != Bucket(vs[i].slot) && vs[j].slot >= KeepFrom(now)
      {
        BucketEnds(vs[i].slot, slot, vs[j].slot);
      }
    }
  }

  lemma BucketEnds(at: u64, end: u64, later: u64)
    requires at <= end < later && end % SPARSE_BUCKET == SPARSE_BUCKET - 1
    ensures Bucket(at) < Bucket(later)
  {
  }

  // ---------------------------------------------------------------------------
  // Repeated thinning

  /** Surviving, said of slots rather than positions. */
  predicate KeepsSlot(vs: seq<Version>, now: u64, slot: u64) {
    if slot >= DenseFrom(now) then true
    else if slot >= KeepFrom(now) then
      forall w :: w in vs && w.slot > slot && Sparse(w.slot, now) ==> Bucket(w.slot) != Bucket(slot)
    else
      forall w :: w in vs && w.slot > slot ==> w.slot >= KeepFrom(now)
  }

  lemma SurvivesBySlot(vs: seq<Version>, now: u64, i: nat)
    requires Ascending(vs) && i < |vs|
    ensures Survives(Slots(vs), now, i) <==> KeepsSlot(vs, now, vs[i].slot)
  {
    var slots := Slots(vs);
    if Survives(slots, now, i) {
      forall w | w in vs && w.slot > vs[i].slot
        ensures exists j :: i < j < |vs| && slots[j] == w.slot
      {
        var j :| 0 <= j < |vs| && vs[j] == w;
        assert i < j && slots[j] == w.slot;
      }
    } else {
      if slots[i] >= KeepFrom(now) {
        var j :| i < j < |slots| && Sparse(slots[j], now) && Bucket(slots[j]) == Bucket(slots[i]);
        assert vs[j] in vs;
      } else {
        var j :| i < j < |slots| && slots[j] < KeepFrom(now);
        assert vs[j] in vs;
      }
    }
  }

  /** The slots a thinned log has are the ones the whole log keeps. */
  lemma ThinnedSlots(vs: seq<Version>, now: u64, slot: u64)
    requires Ascending(vs)
    ensures HasSlot(Thinned(vs, now), slot) <==> HasSlot(vs, slot) && KeepsSlot(vs, now, slot)
  {
    hide Survives, KeepsSlot, Thinned;
    if HasSlot(Thinned(vs, now), slot) {
      var k :| 0 <= k < |Thinned(vs, now)| && Thinned(vs, now)[k].slot == slot;
      var i := ThinFrom(vs, now, Thinned(vs, now)[k]);
      SurvivesBySlot(vs, now, i);
    }
    if HasSlot(vs, slot) && KeepsSlot(vs, now, slot) {
      var i :| 0 <= i < |vs| && vs[i].slot == slot;
      SurvivesBySlot(vs, now, i);
      var v := ThinHas(vs, now, i);
      var k :| 0 <= k < |Thinned(vs, now)| && Thinned(vs, now)[k] == v;
    }
  }

  /** Thinning again at the same slot drops nothing. */
  lemma ThinIsIdempotent(vs: seq<Version>, now: u64)
    requires Ascending(vs)
    ensures Thinned(Thinned(vs, now), now) == Thinned(vs, now)
  {
    hide Survives, Thinned;
    ThinAscends(vs, now);
    var t := Thinned(vs, now);
    forall i | 0 <= i < |t|
      ensures Marks(t, now)[i]
    {
      assert HasSlot(t, t[i].slot);
      ThinnedSlots(vs, now, t[i].slot);
      FewerSupersede(vs, now, t[i].slot);
      SurvivesBySlot(t, now, i);
    }
    NothingToDrop(t, now);
  }

  lemma NothingToDrop(vs: seq<Version>, now: u64)
    requires AllSurvive(vs, now)
    ensures Thinned(vs, now) == vs
  {
  }

  lemma FewerSupersede(vs: seq<Version>, now: u64, slot: u64)
    requires Ascending(vs) && KeepsSlot(vs, now, slot)
    ensures KeepsSlot(Thinned(vs, now), now, slot)
  {
    hide Survives, Thinned;
    forall w | w in Thinned(vs, now)
      ensures exists v :: v in vs && v.slot == w.slot
    {
      var i := ThinFrom(vs, now, w);
    }
  }

  /** The newest version always survives. */
  lemma NewestSurvives(vs: seq<Version>, now: u64)
    requires Ascending(vs) && vs != []
    ensures Survives(Slots(vs), now, |vs| - 1)
    ensures SameAnswer(Lookup(Thinned(vs, now), U64_MAX), Some(vs[|vs| - 1]))
  {
    NoneSupersedesTheNewest(Slots(vs), now);
    LookupByPosition(vs, U64_MAX, |vs| - 1);
    KeptAnswerStands(vs, now, U64_MAX, |vs| - 1);
  }

  /** Whatever supersedes a version at `n2` still does after a thinning at an
      earlier `n1`. */
  lemma {:induction false} StillSuperseded(vs: seq<Version>, n1: u64, n2: u64, slot: u64, w: Version)
    requires Ascending(vs) && n1 <= n2 && w in vs
    requires KeepFrom(n2) <= slot < w.slot && Sparse(w.slot, n2) && Bucket(w.slot) == Bucket(slot)
    ensures !KeepsSlot(Thinned(vs, n1), n2, slot)
    decreases DenseFrom(n2) - w.slot
  {
    hide Thinned;
    if KeepsSlot(vs, n1, w.slot) {
      var i :| 0 <= i < |vs| && vs[i] == w;
      assert HasSlot(vs, w.slot);
      ThinnedSlots(vs, n1, w.slot);
      var k :| 0 <= k < |Thinned(vs, n1)| && Thinned(vs, n1)[k].slot == w.slot;
      assert Thinned(vs, n1)[k] in Thinned(vs, n1);
    } else {
      TiersNest(n1, n2);
      var x :| x in vs && x.slot > w.slot && Sparse(x.slot, n1) && Bucket(x.slot) == Bucket(w.slot);
      StillSuperseded(vs, n1, n2, slot, x);
    }
  }

  /** An earlier thinning decides nothing a later one would decide otherwise,
      from the later cutoff onward. */
  lemma LaterThinningDecides(vs: seq<Version>, n1: u64, n2: u64, slot: u64)
    requires Ascending(vs) && n1 <= n2 && slot >= KeepFrom(n2)
    ensures HasSlot(Thinned(Thinned(vs, n1), n2), slot) <==> HasSlot(Thinned(vs, n2), slot)
  {
    hide Thinned;
    TiersNest(n1, n2);
    ThinAscends(vs, n1);
    ThinnedSlots(vs, n1, slot);
    ThinnedSlots(vs, n2, slot);
    ThinnedSlots(Thinned(vs, n1), n2, slot);
    if KeepsSlot(vs, n2, slot) {
      KeptLaterKeptEarlier(vs, n1, n2, slot);
    } else {
      var w :| w in vs && w.slot > slot && Sparse(w.slot, n2) && Bucket(w.slot) == Bucket(slot);
      StillSuperseded(vs, n1, n2, slot, w);
    }
  }

  lemma KeptLaterKeptEarlier(vs: seq<Version>, n1: u64, n2: u64, slot: u64)
    requires Ascending(vs) && n1 <= n2 && slot >= KeepFrom(n2) && KeepsSlot(vs, n2, slot)
    ensures KeepsSlot(vs, n1, slot) && KeepsSlot(Thinned(vs, n1), n2, slot)
  {
    hide Survives, Thinned;
    TiersNest(n1, n2);
    forall w | w in Thinned(vs, n1)
      ensures exists v :: v in vs && v.slot == w.slot
    {
      var i := ThinFrom(vs, n1, w);
    }
  }

  /** The versions from `slot` on, re-encoded. */
  function RecentFrom(vs: seq<Version>, slot: u64): seq<Version> {
    Rewrite(vs, seq(|vs|, i requires 0 <= i < |vs| => vs[i].slot >= slot))
  }

  /** Thinning at `n1` and later at `n2` keeps, from the cutoff of `n2` onward,
      exactly the versions that thinning at `n2` alone keeps. */
  lemma ThinThenThin(vs: seq<Version>, n1: u64, n2: u64)
    requires Ascending(vs) && n1 <= n2
    ensures RecentFrom(Thinned(Thinned(vs, n1), n2), KeepFrom(n2)) == RecentFrom(Thinned(vs, n2), KeepFrom(n2))
  {
    hide Thinned, RecentFrom;
    var twice, once := Thinned(Thinned(vs, n1), n2), Thinned(vs, n2);
    ThinAscends(vs, n1);
    ThinAscends(vs, n2);
    ThinAscends(Thinned(vs, n1), n2);
    RecentAscends(twice, KeepFrom(n2));
    RecentAscends(once, KeepFrom(n2));
    forall v
      ensures v in RecentFrom(twice, KeepFrom(n2)) <==> v in RecentFrom(once, KeepFrom(n2))
    {
      RecentOfVersions(vs, twice, KeepFrom(n2), v) by { ReadingsKept(vs, n1, n2); }
      RecentOfVersions(vs, once, KeepFrom(n2), v) by { ReadingsKeptOnce(vs, n2); }
      if v.slot >= KeepFrom(n2) {
        LaterThinningDecides(vs, n1, n2, v.slot);
      }
    }
    MembersDetermine(RecentFrom(twice, KeepFrom(n2)), RecentFrom(once, KeepFrom(n2)));
  }

  /** Every version of `ts` is one of `vs`, up to its balance mark. */
  ghost predicate ReadsAs(vs: seq<Version>, ts: seq<Version>) {
    forall t :: t in ts ==> exists v :: v in vs && SameReading(t, v)
  }

  lemma ReadingsKeptOnce(vs: seq<Version>, now: u64)
    ensures ReadsAs(vs, Thinned(vs, now))
  {
    hide Thinned;
    forall t | t in Thinned(vs, now)
      ensures exists v :: v in vs && SameReading(t, v)
    {
      var i := ThinFrom(vs, now, t);
    }
  }

  lemma ReadingsKept(vs: seq<Version>, n1: u64, n2: u64)
    ensures ReadsAs(vs, Thinned(Thinned(vs, n1), n2))
  {
    hide Thinned;
    ReadingsKeptOnce(vs, n1);
    ReadingsKeptOnce(Thinned(vs, n1), n2);
    forall t | t in Thinned(Thinned(vs, n1), n2)
      ensures exists v :: v in vs && SameReading(t, v)
    {
      var u :| u in Thinned(vs, n1) && SameReading(t, u);
      var v :| v in vs && SameReading(u, v);
    }
  }

  lemma RecentAscends(vs: seq<Version>, slot: u64)
    requires Ascending(vs)
    ensures Ascending(RecentFrom(vs, slot))
  {
    RewriteAscends(vs, seq(|vs|, i requires 0 <= i < |vs| => vs[i].slot >= slot));
  }

  lemma RecentOfVersions(vs: seq<Version>, ts: seq<Version>, slot: u64, v: Version)
    requires Ascending(vs) && Ascending(ts) && ReadsAs(vs, ts)
    ensures v in RecentFrom(ts, slot) <==>
            v.slot >= slot && HasSlot(ts, v.slot) && v.known && exists w :: w in vs && SameReading(v, w)
  {
    var keep := seq(|ts|, i requires 0 <= i < |ts| => ts[i].slot >= slot);
    RewriteMembers(ts, keep, v);
    if v in RecentFrom(ts, slot) {
      var i :| 0 <= i < |ts| && keep[i] && v == Settled(ts[i]);
      assert ts[i] in ts;
      var w :| w in vs && SameReading(ts[i], w);
      assert SameReading(v, w);
    }
    if v.slot >= slot && HasSlot(ts, v.slot) && v.known && exists w :: w in vs && SameReading(v, w) {
      var i :| 0 <= i < |ts| && ts[i].slot == v.slot;
      assert ts[i] in ts;
      var w :| w in vs && SameReading(ts[i], w);
      var u :| u in vs && SameReading(v, u);
      SlotDetermines(vs, w, u);
      assert v == Settled(ts[i]);
      assert keep[i];
    }
  }
}
