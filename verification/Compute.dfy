/** How many compute units the logs say each program consumed (src/compute.rs). */
module Compute {
  import opened Bytes
  import opened Wrappers

  type Program = string

  /** A log line as the runtime means it: an invocation, a consumption, or neither. */
  datatype Line = Line(program: Program, invoked: bool, consumed: Option<u64>)

  datatype CuUsage = CuUsage(program: Program, cu: nat)

  const SYSTEM: Program := "11111111111111111111111111111111"
  const COMPUTE_BUDGET: Program := "ComputeBudget111111111111111111111111111111"

  function FixedCu(p: Program): Option<u64> {
    if p == SYSTEM || p == COMPUTE_BUDGET then Some(150) else None
  }

  function Saturated(n: nat): u64 { if n > U64_MAX then U64_MAX else n }

  // ---------------------------------------------------------------------------
  // Reading the logs

  datatype Tally = Tally(order: seq<Program>, sbf: map<Program, u64>, invokes: map<Program, nat>)

  function Push(order: seq<Program>, p: Program): seq<Program> { if p in order then order else order + [p] }

  function Get(m: map<Program, nat>, p: Program, default: nat): nat { if p in m then m[p] else default }

  function TallyNext(t: Tally, line: Line): Tally {
    var p := line.program;
    var seen := if !line.invoked then t
                else t.(order := Push(t.order, p), invokes := t.invokes[p := Get(t.invokes, p, 0) + 1]);
    if line.consumed.None? then seen
    else seen.(order := Push(seen.order, p), sbf := seen.sbf[p := Saturated(Get(seen.sbf, p, 0) + line.consumed.value)])
  }

  function TallyOf(lines: seq<Line>): Tally {
    if lines == [] then Tally([], map[], map[]) else TallyNext(TallyOf(lines[..|lines| - 1]), lines[|lines| - 1])
  }

  method TallyLines(lines: seq<Line>) returns (order: seq<Program>, sbf: map<Program, u64>, invokes: map<Program, nat>)
    ensures Tally(order, sbf, invokes) == TallyOf(lines)
  {
    order, sbf, invokes := [], map[], map[];
    for i := 0 to |lines|
      invariant Tally(order, sbf, invokes) == TallyOf(lines[..i])
    {
      assert lines[..i + 1][..i] == lines[..i];
      var p := lines[i].program;
      if lines[i].invoked {
        order := Push(order, p);
        invokes := invokes[p := Get(invokes, p, 0) + 1];
      }
      if lines[i].consumed.Some? {
        order := Push(order, p);
        sbf := sbf[p := Saturated(Get(sbf, p, 0) + lines[i].consumed.value)];
      }
    }
    assert lines[..|lines|] == lines;
  }

  /** How often a program was invoked, and all it logged. */
  function Invocations(lines: seq<Line>, p: Program): nat {
    if lines == [] then 0
    else
      var last := lines[|lines| - 1];
      Invocations(lines[..|lines| - 1], p) + if last.program == p && last.invoked then 1 else 0
  }

  function Logged(lines: seq<Line>, p: Program): nat {
    if lines == [] then 0
    else
      var last := lines[|lines| - 1];
      Logged(lines[..|lines| - 1], p) + if last.program == p && last.consumed.Some? then last.consumed.value else 0
  }

  ghost predicate Distinct(s: seq<Program>) { forall i, j :: 0 <= i < j < |s| ==> s[i] != s[j] }

  lemma {:induction false} OrderIsSeen(lines: seq<Line>)
    ensures var t := TallyOf(lines);
            Distinct(t.order) && forall p :: p in t.order <==> p in t.sbf || p in t.invokes
  {
    if lines != [] {
      hide Get, Saturated;
      OrderIsSeen(lines[..|lines| - 1]);
    }
  }

  lemma {:induction false} InvokesCount(lines: seq<Line>, p: Program)
    ensures Get(TallyOf(lines).invokes, p, 0) == Invocations(lines, p)
    ensures p in TallyOf(lines).invokes <==> Invocations(lines, p) > 0
  {
    if lines != [] {
      hide Saturated, Push;
      InvokesCount(lines[..|lines| - 1], p);
    }
  }

  lemma {:induction false} SbfSums(lines: seq<Line>, p: Program)
    ensures Get(TallyOf(lines).sbf, p, 0) == Saturated(Logged(lines, p))
    ensures p in TallyOf(lines).sbf
       <==> exists i :: 0 <= i < |lines| && lines[i].program == p && lines[i].consumed.Some?
  {
    if lines != [] {
      hide Push;
      var n := |lines| - 1;
      SbfSums(lines[..n], p);
      assert forall i :: 0 <= i < n ==> lines[..n][i] == lines[i];
    }
  }

  // ---------------------------------------------------------------------------
  // Prices

  /** What a program is known to have used. */
  function Price(t: Tally, p: Program): Option<u64> {
    if p in t.sbf then Some(t.sbf[p])
    else
      var each :- FixedCu(p);
      Some(Saturated(each * Get(t.invokes, p, 1)))
  }

  function Priced(t: Tally, order: seq<Program>): nat {
    if order == [] then 0
    else
      var n := |order| - 1;
      Priced(t, order[..n]) + if Price(t, order[n]).Some? then Price(t, order[n]).value else 0
  }

  /** The programs whose cost only the metadata total can tell. */
  function Natives(t: Tally, order: seq<Program>): (r: seq<Program>)
    ensures forall p :: p in r <==> p in order && Price(t, p).None?
  {
    if order == [] then []
    else
      var n := |order| - 1;
      if Price(t, order[n]).None? then Natives(t, order[..n]) + [order[n]] else Natives(t, order[..n])
  }
}
