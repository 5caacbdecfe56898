/** Sharing a remainder by weight, rounded down, the last share taking what is left
    (src/compute.rs). */
module ComputeShares {
  import opened Bytes

  function Sum(s: seq<nat>): nat { if s == [] then 0 else Sum(s[..|s| - 1]) + s[|s| - 1] }

  lemma SumNext(s: seq<nat>, x: nat)
    ensures Sum(s + [x]) == Sum(s) + x
  {
    assert (s + [x])[..|s|] == s;
  }

  lemma {:induction false} SumPrefix(s: seq<nat>, k: nat)
    requires k <= |s|
    ensures Sum(s[..k]) <= Sum(s)
  {
    if k == |s| {
      assert s[..k] == s;
    } else {
      SumPrefix(s[..|s| - 1], k);
      assert s[..|s| - 1][..k] == s[..k];
    }
  }

  /** `k` shares given for the weights `before`: never over, and short by less than one
      unit each. */
  predicate Fair(given: nat, r: nat, before: nat, total: nat, k: nat)
    requires total > 0
  {
    given * total <= r * before <= given * total + k * (total - 1)
  }

  /** A weight's part of `r`, rounded down. */
  function Part(r: nat, weight: nat, total: nat): nat
    requires total > 0
  {
    r * weight / total
  }

  /** Rounding down never hands out more than the weights' part, and less than one
      unit short of it each time. */
  lemma RoundsDown(r: nat, weight: nat, total: nat, given: nat, before: nat, k: nat)
    requires total > 0
    requires Fair(given, r, before, total, k)
    ensures Fair(given + Part(r, weight, total), r, before + weight, total, k + 1)
  {
    var share := Part(r, weight, total);
    assert share * total <= r * weight <= share * total + (total - 1);
    assert (given + share) * total == given * total + share * total;
    assert r * (before + weight) == r * before + r * weight;
    assert (k + 1) * (total - 1) == k * (total - 1) + (total - 1);
  }

  lemma NeverOver(given: nat, total: nat, r: nat, before: nat, k: nat)
    requires total > 0 && Fair(given, r, before, total, k) && before <= total
    ensures given <= r
  {
    assert r * before <= r * total;
    assert (given - r) * total == given * total - r * total;
  }

  /** The weights' shares of a remainder: rounded down, the last taking what is left. */
  ghost predicate Shares(shares: seq<nat>, r: nat, weights: seq<nat>) {
    && |shares| == |weights| > 0 && Sum(shares) == r
    && var total := if Sum(weights) > 1 then Sum(weights) else 1;
       var n := |weights| - 1;
       && (forall i :: 0 <= i < n ==> shares[i] == Part(r, weights[i], total))
       && (Sum(weights) > 0 ==> r * weights[n] <= shares[n] * total <= r * weights[n] + n * (total - 1))
  }

  method Share(r: nat, weights: seq<nat>) returns (shares: seq<nat>)
    requires weights != []
    requires forall i :: 0 <= i < |weights| ==> r * weights[i] < U64_LIMIT
    ensures Shares(shares, r, weights)
  {
    hide Sum, Fair, Part;
    var sum := SumOf(weights);
    var total := if sum > 1 then sum else 1;
    var given: nat := 0;
    shares := [];
    SumNone(weights);
    NothingGiven(r, total);
    for i := 0 to |weights| - 1
      invariant |shares| == i && Sum(shares) == given
      invariant forall j :: 0 <= j < i ==> shares[j] == Part(r, weights[j], total)
      invariant Fair(given, r, Sum(weights[..i]), total, i)
    {
      var share := Part(r, weights[i], total);
      RoundsDown(r, weights[i], total, given, Sum(weights[..i]), i);
      SumNext(shares, share);
      SumStep(weights, i);
      shares, given := shares + [share], given + share;
    }
    var n := |weights| - 1;
    SumPrefix(weights, n);
    SumStep(weights, n);
    assert weights[..n + 1] == weights;
    NeverOver(given, total, r, Sum(weights[..n]), n);
    SumNext(shares, r - given);
    if sum > 0 {
      LastShare(r, given, total, Sum(weights[..n]), weights[n], n);
    }
    shares := shares + [r - given];
  }

  lemma LastShare(r: nat, given: nat, total: nat, before: nat, weight: nat, n: nat)
    requires total == before + weight && given <= r
    requires total > 0 && Fair(given, r, before, total, n)
    ensures r * weight <= (r - given) * total <= r * weight + n * (total - 1)
  {
    assert (r - given) * total == r * total - given * total;
    assert r * total == r * before + r * weight;
  }

  lemma NothingGiven(r: nat, total: nat)
    requires total > 0
    ensures Fair(0, r, 0, total, 0)
  {
  }

  lemma SumNone(weights: seq<nat>)
    ensures Sum([]) == 0 && Sum(weights[..0]) == 0
  {
  }

  lemma SumStep(weights: seq<nat>, i: nat)
    requires i < |weights|
    ensures Sum(weights[..i + 1]) == Sum(weights[..i]) + weights[i]
  {
    assert weights[..i + 1] == weights[..i] + [weights[i]];
    SumNext(weights[..i], weights[i]);
  }

  method SumOf(s: seq<nat>) returns (n: nat)
    ensures n == Sum(s)
  {
    hide Sum;
    n := 0;
    SumNone(s);
    for i := 0 to |s|
      invariant n == Sum(s[..i])
    {
      SumStep(s, i);
      n := n + s[i];
    }
    assert s[..|s|] == s;
  }
}
