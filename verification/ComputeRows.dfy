/** Compute units per program: what the logs price, and the rest of the metadata total
    shared among the programs they do not (src/compute.rs). */
module ComputeRows {
  import opened Bytes
  import opened Compute
  import opened ComputeShares
  import opened Wrappers

  function Weights(t: Tally, ps: seq<Program>): (r: seq<nat>)
    ensures |r| == |ps|
    ensures forall i :: 0 <= i < |ps| ==> r[i] == Get(t.invokes, ps[i], 1)
  {
    seq(|ps|, i requires 0 <= i < |ps| => Get(t.invokes, ps[i], 1))
  }

  /** What the programs of a list came to. */
  function Total(cu: map<Program, nat>, ps: seq<Program>): nat {
    if ps == [] then 0 else Total(cu, ps[..|ps| - 1]) + Get(cu, ps[|ps| - 1], 0)
  }

  function SumRows(rows: seq<CuUsage>): nat {
    if rows == [] then 0 else SumRows(rows[..|rows| - 1]) + rows[|rows| - 1].cu
  }

  /** Insertion into rows already in descending order, after its equals. */
  function Insert(rows: seq<CuUsage>, row: CuUsage): seq<CuUsage> {
    if rows == [] || rows[|rows| - 1].cu >= row.cu then rows + [row]
    else Insert(rows[..|rows| - 1], row) + [rows[|rows| - 1]]
  }

  function SortDown(rows: seq<CuUsage>): seq<CuUsage> {
    if rows == [] then [] else Insert(SortDown(rows[..|rows| - 1]), rows[|rows| - 1])
  }

  predicate Descending(rows: seq<CuUsage>) { forall i, j :: 0 <= i < j < |rows| ==> rows[i].cu >= rows[j].cu }

  lemma {:induction false} InsertKeeps(rows: seq<CuUsage>, row: CuUsage)
    ensures multiset(Insert(rows, row)) == multiset(rows) + multiset{row}
  {
    if rows != [] && rows[|rows| - 1].cu < row.cu {
      var init, last := rows[..|rows| - 1], rows[|rows| - 1];
      InsertKeeps(init, row);
      assert rows == init + [last];
    }
  }

  lemma SumRowsNext(rows: seq<CuUsage>, row: CuUsage)
    ensures SumRows(rows + [row]) == SumRows(rows) + row.cu
  {
    assert (rows + [row])[..|rows|] == rows;
  }

  lemma {:induction false} InsertSums(rows: seq<CuUsage>, row: CuUsage)
    ensures SumRows(Insert(rows, row)) == SumRows(rows) + row.cu
  {
    hide SumRows;
    if rows != [] && rows[|rows| - 1].cu < row.cu {
      var init, last := rows[..|rows| - 1], rows[|rows| - 1];
      InsertSums(init, row);
      SumRowsNext(Insert(init, row), last);
      SumRowsNext(init, last);
      assert rows == init + [last];
    } else {
      SumRowsNext(rows, row);
    }
  }

  predicate AtLeast(rows: seq<CuUsage>, n: nat) { forall i :: 0 <= i < |rows| ==> rows[i].cu >= n }

  lemma {:induction false} InsertDescends(rows: seq<CuUsage>, row: CuUsage, n: nat)
    requires Descending(rows) && AtLeast(rows, n) && row.cu >= n
    ensures Descending(Insert(rows, row)) && AtLeast(Insert(rows, row), n)
  {
    if rows != [] && rows[|rows| - 1].cu < row.cu {
      InsertDescends(rows[..|rows| - 1], row, rows[|rows| - 1].cu);
    }
  }

  lemma {:induction false} SortKeeps(rows: seq<CuUsage>)
    ensures multiset(SortDown(rows)) == multiset(rows)
  {
    if rows != [] {
      hide Insert;
      var init, last := rows[..|rows| - 1], rows[|rows| - 1];
      SortKeeps(init);
      InsertKeeps(SortDown(init), last);
      assert rows == init + [last];
    }
  }

  lemma {:induction false} SortSums(rows: seq<CuUsage>)
    ensures SumRows(SortDown(rows)) == SumRows(rows)
  {
    if rows != [] {
      hide Insert;
      SortSums(rows[..|rows| - 1]);
      InsertSums(SortDown(rows[..|rows| - 1]), rows[|rows| - 1]);
    }
  }

  lemma {:induction false} SortDescends(rows: seq<CuUsage>)
    ensures Descending(SortDown(rows))
  {
    if rows != [] {
      hide Insert;
      SortDescends(rows[..|rows| - 1]);
      InsertDescends(SortDown(rows[..|rows| - 1]), rows[|rows| - 1], 0);
    }
  }

  /** What is left of the metadata total. */
  function Remainder(t: Tally, total: Option<u64>): nat {
    if total.None? || total.value <= Priced(t, t.order) then 0 else total.value - Priced(t, t.order)
  }

  /** The metadata total bears every product the sharing makes. */
  ghost predicate ProductsFit(t: Tally, total: Option<u64>) {
    forall p <- Natives(t, t.order) :: Remainder(t, total) * Get(t.invokes, p, 1) < U64_LIMIT
  }

  lemma {:induction false} NativesDistinct(t: Tally, order: seq<Program>)
    requires Distinct(order)
    ensures Distinct(Natives(t, order))
  {
    if order != [] {
      hide Price;
      NativesDistinct(t, order[..|order| - 1]);
    }
  }

  method Prices(t: Tally) returns (cu: map<Program, nat>, attributed: u64, unattributed: seq<Program>)
    requires Distinct(t.order)
    ensures attributed == Saturated(Priced(t, t.order)) && unattributed == Natives(t, t.order)
    ensures forall p :: p in cu <==> p in t.order && Price(t, p).Some?
    ensures forall p <- cu :: Price(t, p) == Some(cu[p])
  {
    hide Price;
    cu, attributed, unattributed := map[], 0, [];
    for i := 0 to |t.order|
      invariant attributed == Saturated(Priced(t, t.order[..i])) && unattributed == Natives(t, t.order[..i])
      invariant forall p :: p in cu <==> p in t.order[..i] && Price(t, p).Some?
      invariant forall p <- cu :: Price(t, p) == Some(cu[p])
    {
      assert t.order[..i + 1][..i] == t.order[..i];
      var p := t.order[i];
      if Price(t, p).Some? {
        cu := cu[p := Price(t, p).value];
        attributed := Saturated(attributed + Price(t, p).value);
      } else {
        unattributed := unattributed + [p];
      }
    }
    assert t.order[..|t.order|] == t.order;
  }

  /** The natives' shares, written beside the prices. */
  method Spread(cu: map<Program, nat>, ps: seq<Program>, shares: seq<nat>) returns (r: map<Program, nat>)
    requires |ps| == |shares| && Distinct(ps)
    ensures forall p :: p !in ps ==> Get(r, p, 0) == Get(cu, p, 0)
    ensures forall i :: 0 <= i < |ps| ==> Get(r, ps[i], 0) == shares[i]
  {
    r := cu;
    for i := 0 to |ps|
      invariant forall p :: p !in ps[..i] ==> Get(r, p, 0) == Get(cu, p, 0)
      invariant forall j :: 0 <= j < i ==> Get(r, ps[j], 0) == shares[j]
    {
      r := r[ps[i] := shares[i]];
      assert ps[..i + 1] == ps[..i] + [ps[i]];
    }
    assert ps[..|ps|] == ps;
  }

  lemma {:induction false} TotalIsSum(cu: map<Program, nat>, ps: seq<Program>, shares: seq<nat>)
    requires |ps| == |shares| && forall i :: 0 <= i < |ps| ==> Get(cu, ps[i], 0) == shares[i]
    ensures Total(cu, ps) == Sum(shares)
  {
    if ps != [] {
      TotalIsSum(cu, ps[..|ps| - 1], shares[..|ps| - 1]);
    }
  }

  /** The priced and the natives make the whole. */
  lemma {:induction false} TotalSplits(t: Tally, cu: map<Program, nat>, order: seq<Program>)
    requires forall p :: p in order && Price(t, p).Some? ==> Get(cu, p, 0) == Price(t, p).value
    ensures Total(cu, order) == Priced(t, order) + Total(cu, Natives(t, order))
  {
    if order != [] {
      hide Price;
      var n := |order| - 1;
      TotalSplits(t, cu, order[..n]);
      var natives := Natives(t, order[..n]);
      assert (natives + [order[n]])[..|natives|] == natives;
    }
  }

  lemma {:induction false} NothingShared(cu: map<Program, nat>, ps: seq<Program>)
    requires forall p <- ps :: Get(cu, p, 0) == 0
    ensures Total(cu, ps) == 0
  {
    if ps != [] {
      NothingShared(cu, ps[..|ps| - 1]);
    }
  }

  /** One row for each program that used anything, in the order first seen. */
  function RowsOf(cu: map<Program, nat>, order: seq<Program>): seq<CuUsage> {
    if order == [] then []
    else
      var n := |order| - 1;
      var before, used := RowsOf(cu, order[..n]), Get(cu, order[n], 0);
      if used > 0 then before + [CuUsage(order[n], used)] else before
  }

  lemma {:induction false} RowsSum(cu: map<Program, nat>, order: seq<Program>)
    ensures SumRows(RowsOf(cu, order)) == Total(cu, order)
  {
    if order != [] {
      hide SumRows;
      var n := |order| - 1;
      RowsSum(cu, order[..n]);
      SumRowsNext(RowsOf(cu, order[..n]), CuUsage(order[n], Get(cu, order[n], 0)));
    } else {
      SumRowsNone();
    }
  }

  lemma SumRowsNone()
    ensures SumRows([]) == 0
  {
  }

  /** Once for each program that used anything, and not for the others. */
  function CountOf(cu: map<Program, nat>, order: seq<Program>, row: CuUsage): nat {
    if row.program in order && row.cu > 0 && row.cu == Get(cu, row.program, 0) then 1 else 0
  }

  lemma {:induction false} RowsCount(cu: map<Program, nat>, order: seq<Program>, row: CuUsage)
    requires Distinct(order)
    ensures multiset(RowsOf(cu, order))[row] == CountOf(cu, order, row)
  {
    if order != [] {
      var n := |order| - 1;
      RowsCount(cu, order[..n], row);
      assert order == order[..n] + [order[n]];
    }
  }

  method MakeRows(cu: map<Program, nat>, order: seq<Program>) returns (rows: seq<CuUsage>)
    ensures rows == SortDown(RowsOf(cu, order))
  {
    rows := [];
    for i := 0 to |order|
      invariant rows == RowsOf(cu, order[..i])
    {
      assert order[..i + 1][..i] == order[..i];
      var v := Get(cu, order[i], 0);
      if v > 0 {
        rows := rows + [CuUsage(order[i], v)];
      }
    }
    assert order[..|order|] == order;
    rows := SortDown(rows);
  }

  /** What each program came to: priced, or sharing the remainder. */
  ghost predicate Attribution(t: Tally, total: Option<u64>, cu: map<Program, nat>) {
    var natives := Natives(t, t.order);
    && (forall p :: p in t.order && Price(t, p).Some? ==> Get(cu, p, 0) == Price(t, p).value)
    && (if Remainder(t, total) > 0 && natives != [] then
          Shares(SharesOf(cu, natives), Remainder(t, total), Weights(t, natives))
        else forall p <- natives :: Get(cu, p, 0) == 0)
  }

  function SharesOf(cu: map<Program, nat>, ps: seq<Program>): (r: seq<nat>)
    ensures |r| == |ps| && forall i :: 0 <= i < |ps| ==> r[i] == Get(cu, ps[i], 0)
  {
    seq(|ps|, i requires 0 <= i < |ps| => Get(cu, ps[i], 0))
  }

  /** Compute units per program: every one attributed, and rows that sum to the
      metadata total whenever some program's cost only the total can tell. */
  method CuPerProgram(lines: seq<Line>, total: Option<u64>) returns (rows: seq<CuUsage>, cu: map<Program, nat>)
    requires ProductsFit(TallyOf(lines), total)
    ensures Attribution(TallyOf(lines), total, cu)
    ensures Descending(rows)
    ensures forall row :: multiset(rows)[row] == CountOf(cu, TallyOf(lines).order, row)
    ensures var t := TallyOf(lines);
            SumRows(rows) == if total.Some? && Natives(t, t.order) != [] && total.value > Priced(t, t.order)
                             then total.value else Priced(t, t.order)
  {
    hide Price, SumRows, RowsOf, SortDown, TallyOf, Priced, Natives, Total, Sum, Shares, Descending, Distinct, CountOf;
    var order, sbf, invokes := TallyLines(lines);
    var t := Tally(order, sbf, invokes);
    OrderIsSeen(lines);
    var attributed, unattributed;
    cu, attributed, unattributed := Prices(t);
    if total.Some? {
      var remainder := if total.value > attributed then total.value - attributed else 0;
      if remainder > 0 && unattributed != [] {
        NativesDistinct(t, order);
        var shares := Share(remainder, Weights(t, unattributed));
        SharesSum(shares, remainder, Weights(t, unattributed));
        cu := Spread(cu, unattributed, shares);
        TotalIsSum(cu, unattributed, shares);
        assert SharesOf(cu, unattributed) == shares;
      } else {
        NothingShared(cu, unattributed);
      }
    } else {
      NothingShared(cu, unattributed);
    }
    rows := MakeRows(cu, order);
    TotalSplits(t, cu, order);
    RowsSum(cu, order);
    SortSums(RowsOf(cu, order));
    SortDescends(RowsOf(cu, order));
    SortKeeps(RowsOf(cu, order));
    forall row ensures multiset(rows)[row] == CountOf(cu, order, row) {
      RowsCount(cu, order, row);
    }
  }

  lemma SharesSum(shares: seq<nat>, r: nat, weights: seq<nat>)
    requires Shares(shares, r, weights)
    ensures Sum(shares) == r && |shares| == |weights|
  {
  }
}
