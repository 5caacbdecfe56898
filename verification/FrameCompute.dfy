/** Compute units that are a span's own (src/profile.rs). */
module FrameCompute {
  import opened Wrappers

  /** A program's run in the logs, in the order it began: how deep, and what it consumed. */
  datatype Span = Span(program: string, depth: nat, cu: Option<nat>)

  function Minus(a: nat, b: nat): nat { if a < b then 0 else a - b }

  // ---------------------------------------------------------------------------
  // Who called whom

  /** The span that called number `i`: the last one before it that is less deep. */
  function Parent(spans: seq<Span>, i: nat): (r: Option<nat>)
    requires i < |spans|
    ensures r.Some? ==> r.value < i && spans[r.value].depth < spans[i].depth
                        && forall k :: r.value < k < i ==> spans[k].depth >= spans[i].depth
    ensures r.None? ==> forall k :: 0 <= k < i ==> spans[k].depth >= spans[i].depth
  {
    Shallower(spans, i, spans[i].depth)
  }

  /** The last span before `i` less deep than `d`. */
  function Shallower(spans: seq<Span>, i: nat, d: nat): (r: Option<nat>)
    requires i <= |spans|
    ensures r.Some? ==> r.value < i && spans[r.value].depth < d && forall k :: r.value < k < i ==> spans[k].depth >= d
    ensures r.None? ==> forall k :: 0 <= k < i ==> spans[k].depth >= d
  {
    if i == 0 then None else if spans[i - 1].depth < d then Some(i - 1) else Shallower(spans, i - 1, d)
  }

  function Used(s: Span): nat { if s.cu.Some? then s.cu.value else 0 }

  /** What the direct children of `p` among the first `n` spans consumed. */
  function ChildSum(spans: seq<Span>, p: nat, n: nat): nat
    requires n <= |spans|
  {
    if n == 0 then 0
    else ChildSum(spans, p, n - 1) + if Parent(spans, n - 1) == Some(p) then Used(spans[n - 1]) else 0
  }

  /** A span's own consumption, its direct children's among the first `n` taken off. */
  function Own(spans: seq<Span>, p: nat, n: nat): Option<nat>
    requires p < |spans| && n <= |spans|
  {
    if spans[p].cu.None? then None else Some(Minus(spans[p].cu.value, ChildSum(spans, p, n)))
  }

  // ---------------------------------------------------------------------------
  // The stack pass

  /** The stack holds the spans that can still call: each is the last one less deep
      than the next, and the top is the last span. */
  ghost predicate Chain(spans: seq<Span>, stack: seq<nat>, i: nat)
    requires i <= |spans|
  {
    && (forall k :: 0 <= k < |stack| ==> stack[k] < i)
    && (stack != [] ==> Parent(spans, stack[0]) == None)
    && (forall j, k :: 0 <= j < k < |stack| && k == j + 1 ==> Parent(spans, stack[k]) == Some(stack[j]))
    && (if i == 0 then stack == [] else stack != [] && stack[|stack| - 1] == i - 1)
  }

  /** Skipping spans no less deep does not change the last one that is. */
  lemma {:induction false} SkipDeeper(spans: seq<Span>, j: nat, i: nat, d: nat)
    requires j <= i <= |spans| && forall k :: j <= k < i ==> spans[k].depth >= d
    ensures Shallower(spans, i, d) == Shallower(spans, j, d)
  {
    if j < i {
      SkipDeeper(spans, j, i - 1, d);
    }
  }

  /** The next candidate for parent, the top being too deep. */
  lemma NextCandidate(spans: seq<Span>, top: nat, d: nat, below: Option<nat>)
    requires top < |spans| && spans[top].depth >= d
    requires Shallower(spans, top, spans[top].depth) == below
    ensures Shallower(spans, top + 1, d) == if below.None? then None else Shallower(spans, below.value + 1, d)
  {
    var low := if below.None? then 0 else below.value + 1;
    assert forall k :: low <= k <= top ==> spans[k].depth >= d;
    SkipDeeper(spans, low, top + 1, d);
  }

  /** Exclusive compute by one pass with a stack of open spans. */
  method Exclusive(spans: seq<Span>) returns (exclusive: seq<Option<nat>>)
    ensures |exclusive| == |spans|
    ensures forall p :: 0 <= p < |spans| ==> exclusive[p] == Own(spans, p, |spans|)
  {
    hide Own, Parent;
    exclusive := seq(|spans|, i requires 0 <= i < |spans| => spans[i].cu);
    NoChildrenYet(spans);
    var stack: seq<nat> := [];
    for i := 0 to |spans|
      invariant |exclusive| == |spans| && Chain(spans, stack, i)
      invariant forall p :: 0 <= p < |spans| ==> exclusive[p] == Own(spans, p, i)
    {
      stack := PopDeep(spans, stack, i);
      OwnNext(spans, i);
      if stack != [] && spans[i].cu.Some? {
        var parent := stack[|stack| - 1];
        if exclusive[parent].Some? {
          exclusive := exclusive[parent := Some(Minus(exclusive[parent].value, spans[i].cu.value))];
        }
      }
      stack := stack + [i];
    }
  }

  /** The stack down to the span that called number `i`. */
  method PopDeep(spans: seq<Span>, stack: seq<nat>, i: nat) returns (r: seq<nat>)
    requires i < |spans| && Chain(spans, stack, i)
    ensures r <= stack
    ensures Parent(spans, i) == if r == [] then None else Some(r[|r| - 1])
    ensures Chain(spans, r + [i], i + 1)
  {
    hide Shallower;
    var d := spans[i].depth;
    r := stack;
    assert Parent(spans, i) == Shallower(spans, i, d);
    if i > 0 {
      Same(spans, i, stack[|stack| - 1] + 1, d);
    } else {
      Bottom(spans, d);
    }
    while r != [] && spans[r[|r| - 1]].depth >= d
      invariant r <= stack
      invariant Shallower(spans, i, d) == if r == [] then None else Shallower(spans, r[|r| - 1] + 1, d)
    {
      var n := |r| - 1;
      assert r[n] == stack[n];
      NextCandidate(spans, stack[n], d, if n == 0 then None else Some(stack[n - 1]));
      r := r[..n];
    }
    if r != [] {
      TopCalls(spans, r[|r| - 1], d);
    }
    ChainNext(spans, stack, r, i);
  }

  lemma ChainNext(spans: seq<Span>, stack: seq<nat>, r: seq<nat>, i: nat)
    requires i < |spans| && Chain(spans, stack, i) && r <= stack
    requires Shallower(spans, i, spans[i].depth) == if r == [] then None else Some(r[|r| - 1])
    ensures Chain(spans, r + [i], i + 1)
  {
    hide Shallower;
    var s := r + [i];
    assert forall k :: 0 <= k < |r| ==> s[k] == stack[k];
  }

  lemma Same(spans: seq<Span>, i: nat, j: nat, d: nat)
    requires i == j <= |spans|
    ensures Shallower(spans, i, d) == Shallower(spans, j, d)
  {
  }

  lemma Bottom(spans: seq<Span>, d: nat)
    ensures Shallower(spans, 0, d) == None
  {
  }

  lemma TopCalls(spans: seq<Span>, top: nat, d: nat)
    requires top < |spans| && spans[top].depth < d
    ensures Shallower(spans, top + 1, d) == Some(top)
  {
  }

  lemma NoChildrenYet(spans: seq<Span>)
    ensures forall p :: 0 <= p < |spans| ==> Own(spans, p, 0) == spans[p].cu
  {
  }

  /** One more span: only its parent's own consumption changes. */
  lemma OwnNext(spans: seq<Span>, i: nat)
    requires i < |spans|
    ensures forall p :: 0 <= p < |spans| ==>
              Own(spans, p, i + 1)
              == if Parent(spans, i) == Some(p) && spans[i].cu.Some? && Own(spans, p, i).Some?
                 then Some(Minus(Own(spans, p, i).value, spans[i].cu.value)) else Own(spans, p, i)
  {
    hide Parent;
  }

  // ---------------------------------------------------------------------------
  // Telescoping

  /** No span that reports its consumption called span `i`. */
  predicate IsTop(spans: seq<Span>, i: nat)
    requires i < |spans|
  {
    Parent(spans, i).None? || spans[Parent(spans, i).value].cu.None?
  }

  /** What the top spans among the first `n` consumed. */
  function TopLevel(spans: seq<Span>, n: nat): nat
    requires n <= |spans|
  {
    if n == 0 then 0 else TopLevel(spans, n - 1) + if IsTop(spans, n - 1) then Used(spans[n - 1]) else 0
  }

  /** The own consumptions of the first `m` spans, the children among the first `n`
      taken off, as the pass has them. */
  function OwnSum(spans: seq<Span>, m: nat, n: nat): nat
    requires m <= |spans| && n <= |spans|
  {
    if m == 0 then 0
    else OwnSum(spans, m - 1, n) + if spans[m - 1].cu.Some? then Own(spans, m - 1, n).value else 0
  }

  /** What span `p` reports, its children do not exceed. */
  predicate Nested(spans: seq<Span>, p: nat)
    requires p < |spans|
  {
    spans[p].cu.Some? ==> ChildSum(spans, p, |spans|) <= spans[p].cu.value
  }

  /** What the children of the first `m` spans consumed, of those that report. */
  function AllChildren(spans: seq<Span>, m: nat, n: nat): nat
    requires m <= |spans| && n <= |spans|
  {
    if m == 0 then 0
    else AllChildren(spans, m - 1, n) + if spans[m - 1].cu.Some? then ChildSum(spans, m - 1, n) else 0
  }

  function AllUsed(spans: seq<Span>, n: nat): nat
    requires n <= |spans|
  {
    if n == 0 then 0 else AllUsed(spans, n - 1) + Used(spans[n - 1])
  }

  lemma {:induction false} NoChildren(spans: seq<Span>, m: nat)
    requires m <= |spans|
    ensures AllChildren(spans, m, 0) == 0
  {
    if m > 0 {
      NoChildren(spans, m - 1);
    }
  }

  /** One more span adds what it used to the children of just one span, or of none. */
  lemma {:induction false} OneChildMore(spans: seq<Span>, m: nat, n: nat)
    requires m <= |spans| && n < |spans|
    ensures AllChildren(spans, m, n + 1)
         == AllChildren(spans, m, n)
            + if !IsTop(spans, n) && Parent(spans, n).value < m then Used(spans[n]) else 0
  {
    if m > 0 {
      hide Parent;
      OneChildMore(spans, m - 1, n);
    }
  }

  /** Everything used is either a top span's or the child's of one that reports. */
  lemma {:induction false} UsedSplits(spans: seq<Span>, n: nat)
    requires n <= |spans|
    ensures AllUsed(spans, n) == TopLevel(spans, n) + AllChildren(spans, |spans|, n)
  {
    if n == 0 {
      NoChildren(spans, |spans|);
    } else {
      UsedSplits(spans, n - 1);
      OneChildMore(spans, |spans|, n - 1);
    }
  }

  lemma {:induction false} OwnsAndChildren(spans: seq<Span>, m: nat)
    requires m <= |spans|
    ensures OwnSum(spans, m, |spans|) + AllChildren(spans, m, |spans|) >= AllUsed(spans, m)
    ensures OwnSum(spans, m, |spans|) + AllChildren(spans, m, |spans|) == AllUsed(spans, m)
       <==> forall p :: 0 <= p < m ==> Nested(spans, p)
  {
    if m > 0 {
      hide ChildSum, AllChildren, OwnSum, AllUsed;
      OwnsAndChildren(spans, m - 1);
      LastOwn(spans, m - 1);
      assert (forall p :: 0 <= p < m ==> Nested(spans, p))
         <==> (forall p :: 0 <= p < m - 1 ==> Nested(spans, p)) && Nested(spans, m - 1);
    } else {
      NothingOwned(spans);
    }
  }

  lemma LastOwn(spans: seq<Span>, p: nat)
    requires p < |spans|
    ensures var n := |spans|;
            var own := OwnSum(spans, p + 1, n) - OwnSum(spans, p, n);
            var kids := AllChildren(spans, p + 1, n) - AllChildren(spans, p, n);
            && own + kids >= AllUsed(spans, p + 1) - AllUsed(spans, p)
            && (own + kids == AllUsed(spans, p + 1) - AllUsed(spans, p) <==> Nested(spans, p))
  {
    hide ChildSum;
  }

  lemma NothingOwned(spans: seq<Span>)
    ensures OwnSum(spans, 0, |spans|) == 0 && AllChildren(spans, 0, |spans|) == 0 && AllUsed(spans, 0) == 0
  {
  }

  /** The own consumptions sum to the totals of the top spans exactly when no reporting
      span's children exceed it, and to more otherwise. */
  lemma ExclusiveTelescopes(spans: seq<Span>)
    ensures OwnSum(spans, |spans|, |spans|) >= TopLevel(spans, |spans|)
    ensures OwnSum(spans, |spans|, |spans|) == TopLevel(spans, |spans|)
       <==> forall p :: 0 <= p < |spans| ==> Nested(spans, p)
  {
    UsedSplits(spans, |spans|);
    OwnsAndChildren(spans, |spans|);
  }

  /** A child logged at more than its caller: the subtraction stops at nothing left, and
      seven units are told of a transaction that used five. */
  lemma ChildrenCanExceed()
    ensures var spans := [Span("caller", 1, Some(5)), Span("callee", 2, Some(7))];
            TopLevel(spans, 2) == 5 && OwnSum(spans, 2, 2) == 7
  {
    var spans := [Span("caller", 1, Some(5)), Span("callee", 2, Some(7))];
    assert Parent(spans, 0) == None;
    assert Parent(spans, 1) == Some(0);
    assert ChildSum(spans, 0, 1) == 0 && ChildSum(spans, 0, 2) == 7;
    assert ChildSum(spans, 1, 1) == 0 && ChildSum(spans, 1, 2) == 0;
    assert OwnSum(spans, 1, 2) == 0;
    assert TopLevel(spans, 1) == 5;
  }
}
