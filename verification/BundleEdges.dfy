/** Which step carried what to which later step (src/bundle.rs). */
module BundleEdges {
  import opened BundleSteps

  datatype Role = Writable | Readonly

  datatype Edge = Edge(fromStep: nat, toStep: nat, account: Address, role: Role)

  function EdgeTo(step: Step, from: nat, a: Address): Edge {
    Edge(from, step.index, a, if a in step.writes then Writable else Readonly)
  }

  /** The edges of one change, to the steps before number `j`. */
  function EdgesOfChange(steps: seq<Step>, from: nat, a: Address, j: nat): seq<Edge>
    requires j <= |steps|
  {
    if j <= from + 1 then []
    else
      var before := EdgesOfChange(steps, from, a, j - 1);
      if a in steps[j - 1].keys then before + [EdgeTo(steps[j - 1], from, a)] else before
  }

  function EdgesOfReport(steps: seq<Step>, r: StepReport, n: nat): seq<Edge>
    requires n <= |r.diff|
  {
    if n == 0 then [] else EdgesOfReport(steps, r, n - 1) + EdgesOfChange(steps, r.index, r.diff[n - 1], |steps|)
  }

  function EdgesOf(steps: seq<Step>, reports: seq<StepReport>, n: nat): seq<Edge>
    requires n <= |reports|
  {
    if n == 0 then [] else EdgesOf(steps, reports, n - 1) + EdgesOfReport(steps, reports[n - 1], |reports[n - 1].diff|)
  }

  method FindEdges(steps: seq<Step>, reports: seq<StepReport>) returns (edges: seq<Edge>)
    requires forall i :: 0 <= i < |reports| ==> reports[i].index < |steps|
    ensures edges == EdgesOf(steps, reports, |reports|)
  {
    edges := [];
    for n := 0 to |reports|
      invariant edges == EdgesOf(steps, reports, n)
    {
      var r := reports[n];
      ghost var e0 := edges;
      for m := 0 to |r.diff|
        invariant edges == e0 + EdgesOfReport(steps, r, m)
      {
        ghost var e1 := edges;
        for j := r.index + 1 to |steps|
          invariant edges == e1 + EdgesOfChange(steps, r.index, r.diff[m], j)
        {
          if r.diff[m] in steps[j].keys {
            edges := edges + [EdgeTo(steps[j], r.index, r.diff[m])];
          }
        }
      }
    }
  }

  /** A change a step made to an account a later step names. */
  predicate Carries(steps: seq<Step>, reports: seq<StepReport>, e: Edge) {
    && e.fromStep < e.toStep < |steps| && e.fromStep < |reports|
    && e.account in reports[e.fromStep].diff
    && e.account in steps[e.toStep].keys
    && (e.role.Writable? <==> e.account in steps[e.toStep].writes)
  }

  lemma {:induction false} EdgesOfChangeIff(s: Setup, from: nat, a: Address, j: nat, e: Edge)
    requires Numbered(s) && j <= |s.steps|
    ensures e in EdgesOfChange(s.steps, from, a, j)
       <==> from < e.toStep < j && e == EdgeTo(s.steps[e.toStep], from, a) && a in s.steps[e.toStep].keys
  {
    if j > from + 1 {
      EdgesOfChangeIff(s, from, a, j - 1, e);
    }
  }

  lemma {:induction false} EdgesOfReportIff(s: Setup, r: StepReport, n: nat, e: Edge)
    requires Numbered(s) && n <= |r.diff|
    ensures e in EdgesOfReport(s.steps, r, n)
       <==> e.fromStep == r.index && e.account in r.diff[..n] && r.index < e.toStep < |s.steps|
            && e == EdgeTo(s.steps[e.toStep], r.index, e.account) && e.account in s.steps[e.toStep].keys
  {
    if n > 0 {
      EdgesOfReportIff(s, r, n - 1, e);
      EdgesOfChangeIff(s, r.index, r.diff[n - 1], |s.steps|, e);
      assert r.diff[..n] == r.diff[..n - 1] + [r.diff[n - 1]];
    }
  }

  /** The edges are exactly the changes later steps name, and point forward. */
  lemma {:induction false} EdgesIff(s: Setup, reports: seq<StepReport>, n: nat, e: Edge)
    requires Numbered(s) && n <= |reports| <= |s.steps|
    requires forall i :: 0 <= i < |reports| ==> reports[i].index == i
    ensures e in EdgesOf(s.steps, reports, n) <==> Carries(s.steps, reports, e) && e.fromStep < n
  {
    if n > 0 {
      EdgesIff(s, reports, n - 1, e);
      var r := reports[n - 1];
      EdgesOfReportIff(s, r, |r.diff|, e);
      assert r.diff[..|r.diff|] == r.diff;
    }
  }
}
