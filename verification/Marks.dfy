/** The marks of inferred balances. A version whose balance was inferred must never read
    back as observed, but whatever re-encodes a version drops the mark: thinning, an
    import that merges, and an export. When each keeps every mark (src/records.rs). */
module Marks {
  import opened Bytes
  import opened Chain
  import opened Retention
  import opened RetentionLaws
  import opened StateCodec
  import opened StoreSpec
  import opened Timeline
  import opened Wrappers

  // ---------------------------------------------------------------------------
  // Thinning

  /** Every version a thinning leaves reads back just as it was recorded. */
  ghost predicate ThinKeepsMarks(vs: seq<Version>, now: u64) {
    forall v :: v in Thinned(vs, now) ==> v in vs
  }

  /** A thinning does so exactly when it drops nothing or no version it keeps was
      inferred. */
  lemma ThinKeepsMarksIff(vs: seq<Version>, now: u64)
    requires Ascending(vs)
    ensures ThinKeepsMarks(vs, now) <==>
            AllSurvive(vs, now) || forall i :: 0 <= i < |vs| && Marks(vs, now)[i] ==> vs[i].known
  {
    hide Survives;
    if !AllSurvive(vs, now) {
      var keep := Marks(vs, now);
      if ThinKeepsMarks(vs, now) {
        forall i | 0 <= i < |vs| && keep[i]
          ensures vs[i].known
        {
          RewriteMembers(vs, keep, Settled(vs[i]));
          SlotDetermines(vs, Settled(vs[i]), vs[i]);
        }
      }
      if forall i :: 0 <= i < |vs| && keep[i] ==> vs[i].known {
        forall v | v in Thinned(vs, now)
          ensures v in vs
        {
          RewriteMembers(vs, keep, v);
          var i :| 0 <= i < |vs| && keep[i] && v == Settled(vs[i]);
          assert v == vs[i];
        }
      }
    }
  }

  // ---------------------------------------------------------------------------
  // Importing

  /** Every version an import leaves reads back as it was recorded here or there. */
  ghost predicate ImportKeepsMarks(vs: seq<Version>, ws: seq<Version>) {
    forall v :: v in Import(vs, ws) ==> v in vs || v in ws
  }

  /** Nothing re-encoded here was inferred, unless the other side observed the same. */
  ghost predicate HereObserved(vs: seq<Version>, ws: seq<Version>) {
    forall v <- vs :: v.known || Settled(v) in ws
  }

  /** Nothing taken in was inferred. */
  ghost predicate ThereObserved(vs: seq<Version>, ws: seq<Version>) {
    forall w <- ws :: w.known || HasSlot(vs, w.slot)
  }

  lemma MergedMarks(vs: seq<Version>, ws: seq<Version>)
    requires Ascending(vs) && Ascending(ws)
    ensures (forall v :: v in Merge(vs, ws) ==> v in vs || v in ws) <==> HereObserved(vs, ws) && ThereObserved(vs, ws)
  {
    hide Merge, Ascending, Settle;
    var m := Merge(vs, ws);
    if forall v :: v in m ==> v in vs || v in ws {
      forall v <- vs ensures v.known || Settled(v) in ws {
        MergeIsUnion(vs, ws, Settled(v));
        InSettle(vs, v);
        if Settled(v) in vs {
          SlotDetermines(vs, v, Settled(v));
        }
      }
      forall w <- ws ensures w.known || HasSlot(vs, w.slot) {
        MergeIsUnion(vs, ws, Settled(w));
        InSettle(ws, w);
        if !HasSlot(vs, w.slot) {
          NotThere(vs, Settled(w));
          SlotDetermines(ws, w, Settled(w));
        }
      }
    }
    if HereObserved(vs, ws) && ThereObserved(vs, ws) {
      forall v | v in m ensures v in vs || v in ws {
        MergeIsUnion(vs, ws, v);
        if v in Settle(vs) {
          var w := FromSettle(vs, v);
        } else {
          var w := FromSettle(ws, v);
        }
      }
    }
  }

  lemma NotThere(vs: seq<Version>, v: Version)
    requires !HasSlot(vs, v.slot)
    ensures v !in vs
  {
  }

  /** An import keeps every mark exactly when it appends, or nothing it re-encodes was
      inferred. */
  lemma ImportKeepsMarksIff(vs: seq<Version>, ws: seq<Version>)
    requires Ascending(vs) && Ascending(ws)
    ensures ImportKeepsMarks(vs, ws) <==> Appends(vs, ws) || (HereObserved(vs, ws) && ThereObserved(vs, ws))
  {
    hide Merge, HereObserved, ThereObserved, Ascending;
    MergedMarks(vs, ws);
  }

  // ---------------------------------------------------------------------------
  // Exporting

  /** Every version exported reads back as it was recorded. */
  ghost predicate ExportKeepsMarks(vs: seq<Version>, since: u64) {
    forall v :: v in Newer(vs, since) ==> v in vs
  }

  /** An export keeps every mark exactly when nothing exported was inferred. */
  lemma ExportKeepsMarksIff(vs: seq<Version>, since: u64)
    requires Ascending(vs)
    ensures ExportKeepsMarks(vs, since) <==> forall v <- vs :: v.slot > since ==> v.known
  {
    var keep := seq(|vs|, i requires 0 <= i < |vs| => vs[i].slot > since);
    if ExportKeepsMarks(vs, since) {
      forall v <- vs | v.slot > since ensures v.known {
        var i :| 0 <= i < |vs| && vs[i] == v;
        RewriteMembers(vs, keep, Settled(v));
        assert keep[i] && Settled(v) == Settled(vs[i]);
        SlotDetermines(vs, Settled(v), v);
      }
    }
    if forall v <- vs :: v.slot > since ==> v.known {
      forall v | v in Newer(vs, since) ensures v in vs {
        RewriteMembers(vs, keep, v);
        var i :| 0 <= i < |vs| && keep[i] && v == Settled(vs[i]);
        assert vs[i] in vs && v == vs[i];
      }
    }
  }

  // ---------------------------------------------------------------------------
  // Marks lost

  /** Two absences long before the window, and then an inferred balance inside it. */
  function Inferred(s: AccountState): seq<Version> {
    [Version(1, None, true), Version(2, None, true), Version(7_000_000, Some(s), false)]
  }

  /** Thinning drops the first absence, and the inferred balance, which it keeps, reads
      back as observed. */
  lemma ThinningForgets(s: AccountState)
    ensures Lookup(Inferred(s), 7_000_000) == Some(Version(7_000_000, Some(s), false))
    ensures Lookup(Thinned(Inferred(s), 7_000_000), 7_000_000) == Some(Version(7_000_000, Some(s), true))
  {
    var vs, now := Inferred(s), 7_000_000;
    var slots := Slots(vs);
    assert slots[0] == 1 && slots[1] == 2 && slots[2] == 7_000_000;
    assert OlderThanAnchor(slots, now, 0);
    assert !Marks(vs, now)[0] && Marks(vs, now)[2];
    assert vs[..2] + [vs[2]] == vs;
    var before := Rewrite(vs[..2], Marks(vs, now)[..2]);
    assert Thinned(vs, now) == before + [Settled(vs[2])];
  }

  /** Merging in one older absence does the same. */
  lemma MergingForgets(s: AccountState)
    ensures var vs, ws := [Version(2, Some(s), false)], [Version(1, None, true)];
            && Lookup(Import(vs, ws), 2) == Some(Version(2, Some(s), true))
            && Lookup(vs, 2) == Some(Version(2, Some(s), false))
  {
    var vs, ws := [Version(2, Some(s), false)], [Version(1, None, true)];
    assert ws[1..] == [];
    assert Merge(vs, []) == Settle(vs);
    assert Import(vs, ws) == [Settled(ws[0])] + Settle(vs);
  }
}
