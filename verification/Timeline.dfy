/** The simple thing a log stands for: a slot-ordered list of versions, what a
    lookup answers on it, and the rewrites that thinning and merging perform. */
module Timeline {
  import opened Bytes
  import opened Chain
  import opened Wrappers

  lemma BeforeLast(vs: seq<Version>, v: Version)
    requires Ascending(vs) && vs != []
    ensures v in vs[..|vs| - 1] <==> v in vs && v.slot < vs[|vs| - 1].slot
  {
    if v in vs {
      var i :| 0 <= i < |vs| && vs[i] == v;
      assert i < |vs| - 1 ==> vs[..|vs| - 1][i] == v;
    }
  }

  lemma NoneAfterLast(vs: seq<Version>, v: Version)
    requires Ascending(vs) && v in vs
    ensures vs != [] && v.slot <= vs[|vs| - 1].slot
    ensures v.slot == vs[|vs| - 1].slot ==> v == vs[|vs| - 1]
  {
  }

  lemma HasItsLast(vs: seq<Version>)
    requires vs != []
    ensures vs[|vs| - 1] in vs
  {
  }

  /** A set of versions has one ascending order. */
  lemma {:induction false} MembersDetermine(a: seq<Version>, b: seq<Version>)
    requires Ascending(a) && Ascending(b)
    requires forall v :: v in a <==> v in b
    ensures a == b
    decreases |a|
  {
    if a == [] || b == [] {
      if a != [] {
        HasItsLast(a);
      }
      if b != [] {
        HasItsLast(b);
      }
    } else {
      var x, y := a[|a| - 1], b[|b| - 1];
      NoneAfterLast(b, x);
      NoneAfterLast(a, y);
      var a', b' := a[..|a| - 1], b[..|b| - 1];
      forall v
        ensures v in a' <==> v in b'
      {
        BeforeLast(a, v);
        BeforeLast(b, v);
      }
      MembersDetermine(a', b');
      assert a == a' + [x] && b == b' + [y];
    }
  }

  // ---------------------------------------------------------------------------
  // Lookups

  /** The newest version at or before `slot`. */
  function Lookup(vs: seq<Version>, slot: u64): Option<Version> {
    if vs == [] then None
    else if vs[|vs| - 1].slot <= slot then Some(vs[|vs| - 1])
    else Lookup(vs[..|vs| - 1], slot)
  }

  /** What makes an answer right, said of the members alone. */
  ghost predicate Answers(vs: seq<Version>, slot: u64, r: Option<Version>) {
    match r
    case None => forall v :: v in vs ==> slot < v.slot
    case Some(n) => n in vs && n.slot <= slot && forall v :: v in vs && v.slot <= slot ==> v.slot <= n.slot
  }

  lemma {:induction false} LookupAnswers(vs: seq<Version>, slot: u64)
    requires Ascending(vs)
    ensures Answers(vs, slot, Lookup(vs, slot))
  {
    if vs != [] {
      var last, rest := vs[|vs| - 1], vs[..|vs| - 1];
      assert vs == rest + [last];
      if last.slot > slot {
        LookupAnswers(rest, slot);
      }
    }
  }

  /** Two versions of one list at one slot are one version. */
  lemma SlotDetermines(vs: seq<Version>, v: Version, w: Version)
    requires Ascending(vs) && v in vs && w in vs && v.slot == w.slot
    ensures v == w
  {
  }

  lemma AnswerIsLookup(vs: seq<Version>, slot: u64, r: Option<Version>)
    requires Ascending(vs) && Answers(vs, slot, r)
    ensures Lookup(vs, slot) == r
  {
    LookupAnswers(vs, slot);
    var l := Lookup(vs, slot);
    if l.Some? && r.Some? {
      SlotDetermines(vs, l.value, r.value);
    }
  }

  lemma LookupByPosition(vs: seq<Version>, slot: u64, i: nat)
    requires Ascending(vs) && i < |vs| && vs[i].slot <= slot
    requires i + 1 < |vs| ==> slot < vs[i + 1].slot
    ensures Lookup(vs, slot) == Some(vs[i])
  {
    forall v | v in vs && v.slot <= slot
      ensures v.slot <= vs[i].slot
    {
      var k :| 0 <= k < |vs| && vs[k] == v;
    }
    AnswerIsLookup(vs, slot, Some(vs[i]));
  }

  // ---------------------------------------------------------------------------
  // Rewriting a log

  /** Re-encoding a version loses the mark that its balance was inferred. */
  function Settled(v: Version): Version { v.(known := true) }

  function Settle(vs: seq<Version>): (r: seq<Version>)
    ensures |r| == |vs|
    ensures forall i :: 0 <= i < |vs| ==> r[i] == Settled(vs[i])
  {
    seq(|vs|, i requires 0 <= i < |vs| => Settled(vs[i]))
  }

  /** The versions marked in `keep`, re-encoded. */
  function Rewrite(vs: seq<Version>, keep: seq<bool>): seq<Version>
    requires |vs| == |keep|
  {
    if vs == [] then []
    else
      var n := |vs| - 1;
      Rewrite(vs[..n], keep[..n]) + if keep[n] then [Settled(vs[n])] else []
  }

  predicate KeptFrom(vs: seq<Version>, keep: seq<bool>, v: Version)
    requires |vs| == |keep|
  {
    exists i :: 0 <= i < |vs| && keep[i] && v == Settled(vs[i])
  }

  lemma {:induction false} RewriteMembers(vs: seq<Version>, keep: seq<bool>, v: Version)
    requires |vs| == |keep|
    ensures v in Rewrite(vs, keep) <==> KeptFrom(vs, keep, v)
  {
    if vs != [] {
      var n := |vs| - 1;
      RewriteMembers(vs[..n], keep[..n], v);
      KeptFromSplits(vs, keep, v);
    }
  }

  lemma KeptFromSplits(vs: seq<Version>, keep: seq<bool>, v: Version)
    requires |vs| == |keep| > 0
    ensures var n := |vs| - 1;
            KeptFrom(vs, keep, v) <==> KeptFrom(vs[..n], keep[..n], v) || (keep[n] && v == Settled(vs[n]))
  {
    var n := |vs| - 1;
    if KeptFrom(vs[..n], keep[..n], v) {
      var i :| 0 <= i < n && keep[..n][i] && v == Settled(vs[..n][i]);
      assert keep[i] && v == Settled(vs[i]);
    }
    if KeptFrom(vs, keep, v) {
      var i :| 0 <= i < |vs| && keep[i] && v == Settled(vs[i]);
      assert i < n ==> keep[..n][i] && v == Settled(vs[..n][i]);
    }
  }

  lemma {:induction false} RewriteAscends(vs: seq<Version>, keep: seq<bool>)
    requires |vs| == |keep| && Ascending(vs)
    ensures Ascending(Rewrite(vs, keep))
    ensures Rewrite(vs, keep) != [] ==>
              Rewrite(vs, keep)[|Rewrite(vs, keep)| - 1].slot <= vs[|vs| - 1].slot
  {
    if vs != [] {
      var n := |vs| - 1;
      RewriteAscends(vs[..n], keep[..n]);
    }
  }

  function CountKept(keep: seq<bool>): (n: nat)
    ensures n <= |keep|
  {
    if keep == [] then 0
    else CountKept(keep[..|keep| - 1]) + if keep[|keep| - 1] then 1 else 0
  }

  lemma {:induction false} RewriteLength(vs: seq<Version>, keep: seq<bool>)
    requires |vs| == |keep|
    ensures |Rewrite(vs, keep)| == CountKept(keep)
  {
    if vs != [] {
      RewriteLength(vs[..|vs| - 1], keep[..|keep| - 1]);
    }
  }

  // ---------------------------------------------------------------------------
  // Merging two logs

  /** Both lists in slot order, `here` winning a tie. */
  function Merge(here: seq<Version>, there: seq<Version>): seq<Version>
    decreases |here| + |there|
  {
    if here == [] then Settle(there)
    else if there == [] then Settle(here)
    else if here[0].slot <= there[0].slot then
      [Settled(here[0])] + Merge(here[1..], if here[0].slot == there[0].slot then there[1..] else there)
    else
      [Settled(there[0])] + Merge(here, there[1..])
  }

  predicate HasSlot(vs: seq<Version>, slot: u64) {
    exists i :: 0 <= i < |vs| && vs[i].slot == slot
  }

  /** A slot-keyed union: everything here, and what there has at other slots. */
  ghost predicate InUnion(here: seq<Version>, there: seq<Version>, v: Version) {
    || v in Settle(here)
    || (v in Settle(there) && !HasSlot(here, v.slot))
  }

  lemma InSettle(vs: seq<Version>, v: Version)
    requires v in vs
    ensures Settled(v) in Settle(vs)
  {
    var i :| 0 <= i < |vs| && vs[i] == v;
    assert Settle(vs)[i] == Settled(v);
  }

  lemma FromSettle(vs: seq<Version>, v: Version) returns (w: Version)
    requires v in Settle(vs)
    ensures w in vs && v == Settled(w)
  {
    var i :| 0 <= i < |vs| && Settle(vs)[i] == v;
    w := vs[i];
  }

  lemma SettleMembers(vs: seq<Version>, v: Version)
    ensures v in Settle(vs) <==> exists i :: 0 <= i < |vs| && v == Settled(vs[i])
  {
    if v in Settle(vs) {
      var i :| 0 <= i < |Settle(vs)| && Settle(vs)[i] == v;
      assert v == Settled(vs[i]);
    }
    if exists i :: 0 <= i < |vs| && v == Settled(vs[i]) {
      var i :| 0 <= i < |vs| && v == Settled(vs[i]);
      assert Settle(vs)[i] == v;
    }
  }

  lemma SettleFront(vs: seq<Version>, v: Version)
    requires vs != []
    ensures v in Settle(vs) <==> v == Settled(vs[0]) || v in Settle(vs[1..])
  {
    assert Settle(vs) == [Settled(vs[0])] + Settle(vs[1..]);
  }

  lemma HasSlotFront(vs: seq<Version>, slot: u64)
    requires vs != []
    ensures HasSlot(vs, slot) <==> vs[0].slot == slot || HasSlot(vs[1..], slot)
  {
    if HasSlot(vs[1..], slot) {
      var i :| 0 <= i < |vs[1..]| && vs[1..][i].slot == slot;
      assert vs[i + 1].slot == slot;
    }
    if HasSlot(vs, slot) && vs[0].slot != slot {
      var i :| 0 <= i < |vs| && vs[i].slot == slot;
      assert vs[1..][i - 1].slot == slot;
    }
  }

  /** Slots below an ascending list's first are in neither it nor its re-encoding. */
  lemma BelowFirst(vs: seq<Version>, slot: u64)
    requires Ascending(vs) && (vs == [] || slot < vs[0].slot)
    ensures !HasSlot(vs, slot)
    ensures forall v :: v in Settle(vs) ==> v.slot != slot
  {
  }

  lemma {:induction false} MergeIsUnion(here: seq<Version>, there: seq<Version>, v: Version)
    requires Ascending(here) && Ascending(there)
    ensures v in Merge(here, there) <==> InUnion(here, there, v)
    decreases |here| + |there|
  {
    if here != [] && there != [] {
      SettleFront(here, v);
      SettleFront(there, v);
      HasSlotFront(here, v.slot);
      var a, b := here[0].slot, there[0].slot;
      if a < b {
        BelowFirst(there, a);
        MergeIsUnion(here[1..], there, v);
      } else if a == b {
        BelowFirst(there[1..], a);
        MergeIsUnion(here[1..], there[1..], v);
      } else {
        BelowFirst(here, b);
        MergeIsUnion(here, there[1..], v);
      }
    }
  }

  lemma {:induction false} MergeAscends(here: seq<Version>, there: seq<Version>)
    requires Ascending(here) && Ascending(there)
    ensures Ascending(Merge(here, there))
    ensures forall i :: 0 <= i < |Merge(here, there)| ==>
              var s := Merge(here, there)[i].slot;
              (here != [] && here[0].slot <= s) || (there != [] && there[0].slot <= s)
    ensures |here| <= |Merge(here, there)|
    decreases |here| + |there|
  {
    if here != [] && there != [] {
      if here[0].slot <= there[0].slot {
        MergeAscends(here[1..], if here[0].slot == there[0].slot then there[1..] else there);
      } else {
        MergeAscends(here, there[1..]);
      }
    }
  }

  lemma AscendingTail(vs: seq<Version>)
    requires Ascending(vs) && vs != []
    ensures Ascending(vs[1..])
    ensures |vs| > 1 ==> vs[1..][|vs| - 2] == vs[|vs| - 1]
  {
  }

  /** When everything there is newer, merging is appending. */
  lemma {:induction false} MergeOfNewer(here: seq<Version>, there: seq<Version>)
    requires Ascending(here) && Ascending(there)
    requires here == [] || there == [] || here[|here| - 1].slot < there[0].slot
    ensures Merge(here, there) == Settle(here + there)
    decreases |here|
  {
    if here == [] {
      assert here + there == there;
    } else if there == [] {
      assert here + there == here;
    } else {
      assert here[0].slot < there[0].slot;
      AscendingTail(here);
      hide Ascending;
      MergeOfNewer(here[1..], there);
      assert here + there == [here[0]] + (here[1..] + there);
      SettleCons(here[0], here[1..] + there);
    }
  }

  lemma SettleCons(v: Version, vs: seq<Version>)
    ensures Settle([v] + vs) == [Settled(v)] + Settle(vs)
  {
  }

  lemma {:induction false} MergeSettled(here: seq<Version>, there: seq<Version>)
    ensures Settle(Merge(here, there)) == Merge(here, there)
    decreases |here| + |there|
  {
    if here != [] && there != [] {
      if here[0].slot <= there[0].slot {
        MergeSettled(here[1..], if here[0].slot == there[0].slot then there[1..] else there);
      } else {
        MergeSettled(here, there[1..]);
      }
    }
  }

}
