/** A frame's compute split over its functions by their own instructions
    (src/profile.rs). */
module FrameSplit {
  import opened Bytes
  import opened ComputeShares
  import opened Profile
  import opened ProfileLaws

  /** Each function's part of the frame's compute, by its own instructions. */
  function Parts(cu: nat, insns: nat, selfs: seq<nat>): seq<nat>
    requires insns > 0
  {
    if selfs == [] then []
    else Parts(cu, insns, selfs[..|selfs| - 1]) + [Part(cu, selfs[|selfs| - 1], insns)]
  }

  method SplitFrame(cu: u64, instructions: nat, selfs: seq<nat>) returns (parts: seq<nat>)
    ensures parts == Parts(cu, if instructions > 1 then instructions else 1, selfs)
  {
    hide Part;
    var insns := if instructions > 1 then instructions else 1;
    parts := [];
    for i := 0 to |selfs|
      invariant parts == Parts(cu, insns, selfs[..i])
    {
      assert selfs[..i + 1][..i] == selfs[..i];
      parts := parts + [Part(cu, selfs[i], insns)];
    }
    assert selfs[..|selfs|] == selfs;
  }

  lemma {:induction false} PartsAreFair(cu: nat, insns: nat, selfs: seq<nat>)
    requires insns > 0
    ensures Fair(Sum(Parts(cu, insns, selfs)), cu, Sum(selfs), insns, |selfs|)
  {
    if selfs == [] {
      NothingGiven(cu, insns);
    } else {
      hide Fair, Part;
      var init, last := selfs[..|selfs| - 1], selfs[|selfs| - 1];
      PartsAreFair(cu, insns, init);
      RoundsDown(cu, last, insns, Sum(Parts(cu, insns, init)), Sum(init), |init|);
      SumNext(Parts(cu, insns, init), Part(cu, last, insns));
    }
  }

  /** The functions' parts never exceed the frame's compute, and together fall short by
      less than one unit each. */
  lemma SplitLosesLittle(cu: nat, insns: nat, selfs: seq<nat>)
    requires insns > 0 && Sum(selfs) == insns
    ensures Sum(Parts(cu, insns, selfs)) <= cu < Sum(Parts(cu, insns, selfs)) + |selfs|
  {
    hide Parts;
    PartsAreFair(cu, insns, selfs);
    var given, k := Sum(Parts(cu, insns, selfs)), |selfs|;
    NeverOver(given, insns, cu, insns, k);
    assert k > 0;
    ShortByLess(given, cu, insns, k);
  }

  lemma ShortByLess(given: nat, r: nat, total: nat, k: nat)
    requires total > 0 && k > 0 && Fair(given, r, total, total, k)
    ensures r < given + k
  {
    assert (r - given) * total <= k * (total - 1) < k * total;
  }

  // ---------------------------------------------------------------------------
  // Of a profiled frame

  /** The functions of a table, each once, in whatever order they are shown. */
  ghost predicate Lists(order: seq<nat>, self: map<nat, nat>) {
    && (forall i, j :: 0 <= i < j < |order| ==> order[i] != order[j])
    && forall f :: f in order <==> f in self
  }

  function Selfs(order: seq<nat>, self: map<nat, nat>): seq<nat>
    requires forall f <- order :: f in self
  {
    seq(|order|, i requires 0 <= i < |order| => self[order[i]])
  }

  /** Added up in any order, the functions' own instructions are the map's sum. */
  lemma {:induction false} SelfsAddUp(order: seq<nat>, self: map<nat, nat>)
    requires Lists(order, self)
    ensures Sum(Selfs(order, self)) == SumBy(self, One())
  {
    if order == [] {
      assert self == map[];
    } else {
      hide *;
      var init, f := order[..|order| - 1], order[|order| - 1];
      WithoutLast(order, self);
      SelfsAddUp(init, self - {f});
      SumWithout(self, One(), f);
      SumNext(Selfs(init, self - {f}), self[f]);
      OneIsOne(f);
    }
  }

  lemma WithoutLast(order: seq<nat>, self: map<nat, nat>)
    requires Lists(order, self) && order != []
    ensures var init, f := order[..|order| - 1], order[|order| - 1];
            && f in self && Lists(init, self - {f})
            && Selfs(order, self) == Selfs(init, self - {f}) + [self[f]]
  {
    var n := |order| - 1;
    assert order == order[..n] + [order[n]];
  }

  lemma OneIsOne(f: nat)
    ensures One()(f) == 1
  {
  }

  /** The parts of a profiled frame never exceed its compute, and together fall short by
      less than one unit a function: its own instructions add up to the trace. */
  lemma ProfiledSplitLosesLittle(code: Code, trace: seq<nat>, order: seq<nat>, cu: nat)
    requires trace != [] && InText(code, trace) && Lists(order, After(code, trace, |trace|).counts.self)
    ensures var parts := Parts(cu, |trace|, Selfs(order, After(code, trace, |trace|).counts.self));
            Sum(parts) <= cu < Sum(parts) + |order|
  {
    hide After, InText, SumBy, Parts;
    var self := After(code, trace, |trace|).counts.self;
    CountedOnce(code, trace, |trace|);
    SelfsAddUp(order, self);
    SplitLosesLittle(cu, |trace|, Selfs(order, self));
  }
}
