/** The calls a widening search makes: which windows, asked for which accounts, in which
    chunks (src/history.rs). */
module WindowPlan {
  import opened Bytes
  import opened WindowSearch

  /** How many accounts one call asks for. */
  const BATCH := 60

  function Smaller(a: nat, b: nat): nat { if a < b then a else b }

  function Larger(a: nat, b: nat): nat { if a > b then a else b }

  function Minus(a: nat, b: nat): nat { if a < b then 0 else a - b }

  /** The oldest slot a search from `slot` goes back to. */
  function FloorOf(slot: u64, max: u64): (r: u64)
    ensures 1 <= r && (slot > 0 ==> r <= slot)
  {
    Larger(Minus(slot, max), 1)
  }

  /** One call: the accounts asked for and the range of slots. */
  datatype Ask = Ask(accounts: seq<Address>, start: u64, stop: u64)

  /** A range asked for chunk by chunk. */
  function Chunks(accounts: seq<Address>, start: u64, stop: u64): seq<Ask> {
    if accounts == [] then []
    else
      var k := Smaller(BATCH, |accounts|);
      [Ask(accounts[..k], start, stop)] + Chunks(accounts[k..], start, stop)
  }

  /** The calls a range takes; an empty one takes none. */
  function RangeAsks(accounts: seq<Address>, start: u64, stop: u64): seq<Ask> {
    if stop == 0 || start >= stop then [] else Chunks(accounts, start, stop)
  }

  /** The chunks together ask for every account once, in order, and none for more than a
      batch. */
  function Joined(asks: seq<Ask>): seq<Address> {
    if asks == [] then [] else asks[0].accounts + Joined(asks[1..])
  }

  lemma {:induction false} ChunksAskForAll(accounts: seq<Address>, start: u64, stop: u64)
    ensures Joined(Chunks(accounts, start, stop)) == accounts
    ensures forall a <- Chunks(accounts, start, stop) :: 0 < |a.accounts| <= BATCH && a.start == start && a.stop == stop
  {
    if accounts != [] {
      var k := Smaller(BATCH, |accounts|);
      ChunksAskForAll(accounts[k..], start, stop);
      assert accounts == accounts[..k] + accounts[k..];
      var first, rest := Ask(accounts[..k], start, stop), Chunks(accounts[k..], start, stop);
      assert ([first] + rest)[1..] == rest;
    }
  }

  // ---------------------------------------------------------------------------
  // The windows

  /** A window of slots, and the accounts still missing when it is searched. */
  datatype Window = Window(missing: seq<Address>, start: u64, end: u64)

  /** The accounts with no change in a range. */
  function Still(cs: seq<Change>, accounts: seq<Address>, lo: u64, hi: u64): seq<Address> {
    if accounts == [] then []
    else
      var rest := Still(cs, accounts[1..], lo, hi);
      if Latest(cs, accounts[0], lo, hi).Some? then rest else [accounts[0]] + rest
  }

  type Width = w: int | 1 <= w < U64_LIMIT witness 1

  function Widened(width: Width): Width { Smaller(width * 5, U64_MAX) }

  /** The windows of a search in which no call fails. */
  function Plan(cs: seq<Change>, missing: seq<Address>, end: u64, width: Width, floor: u64): seq<Window>
    decreases end
  {
    if missing == [] || end <= floor then []
    else
      var start: u64 := Larger(Minus(end, width), floor);
      [Window(missing, start, end)] + Plan(cs, Still(cs, missing, start, end), start, Widened(width), floor)
  }

  function AllAsks(windows: seq<Window>): seq<Ask> {
    if windows == [] then []
    else
      var n := |windows| - 1;
      AllAsks(windows[..n]) + RangeAsks(windows[n].missing, windows[n].start, windows[n].end)
  }

  lemma AllAsksNext(windows: seq<Window>, w: Window)
    ensures AllAsks(windows + [w]) == AllAsks(windows) + RangeAsks(w.missing, w.start, w.end)
  {
    assert (windows + [w])[..|windows|] == windows;
  }

  lemma {:induction false} AllAsksPrefix(windows: seq<Window>, n: nat)
    requires n <= |windows|
    ensures AllAsks(windows[..n]) <= AllAsks(windows)
  {
    if n == |windows| {
      assert windows[..n] == windows;
    } else {
      var m := |windows| - 1;
      AllAsksPrefix(windows[..m], n);
      assert windows[..m][..n] == windows[..n];
    }
  }

  /** Where the windows leave off. */
  function Reached(windows: seq<Window>, from: u64): u64 {
    if windows == [] then from else windows[|windows| - 1].start
  }

  // ---------------------------------------------------------------------------
  // What the plan promises

  /** How wide window `i` may be: five times wider each time. */
  function Wide(first: nat, i: nat): nat { if i == 0 then first else 5 * Wide(first, i - 1) }

  lemma {:induction false} WideFrom(first: nat, i: nat)
    ensures Wide(5 * first, i) == Wide(first, i + 1)
  {
    if i > 0 {
      WideFrom(first, i - 1);
    }
  }

  lemma {:induction false} WideGrows(a: nat, b: nat, i: nat)
    requires a <= b
    ensures Wide(a, i) <= Wide(b, i)
  {
    if i > 0 {
      WideGrows(a, b, i - 1);
    }
  }

  /** Window `i` starts below its end and not below the floor, ends where the one before
      started, and is no wider than its turn allows. */
  predicate InPlace(windows: seq<Window>, i: nat, end: u64, width: nat, floor: u64)
    requires i < |windows|
  {
    var w := windows[i];
    && floor <= w.start < w.end
    && w.end == (if i == 0 then end else windows[i - 1].start)
    && w.end - w.start <= Wide(width, i)
  }

  /** The windows are contiguous and disjoint, each end below the last, and widen at most
      fivefold. */
  lemma {:induction false} PlanIsContiguous(cs: seq<Change>, missing: seq<Address>, end: u64, width: Width,
                                            floor: u64, i: nat)
    requires i < |Plan(cs, missing, end, width, floor)|
    ensures InPlace(Plan(cs, missing, end, width, floor), i, end, width, floor)
    decreases end
  {
    if i > 0 {
      hide Still;
      var start: u64 := Larger(Minus(end, width), floor);
      var rest := Plan(cs, Still(cs, missing, start, end), start, Widened(width), floor);
      PlanIsContiguous(cs, Still(cs, missing, start, end), start, Widened(width), floor, i - 1);
      WideGrows(Widened(width), 5 * width, i - 1);
      WideFrom(width, i - 1);
      assert rest[i - 1] == Plan(cs, missing, end, width, floor)[i];
    }
  }

  lemma {:induction false} StillTwice(cs: seq<Change>, accounts: seq<Address>, lo: u64, mid: u64, hi: u64)
    requires lo <= mid <= hi
    ensures Still(cs, Still(cs, accounts, mid, hi), lo, mid) == Still(cs, accounts, lo, hi)
  {
    if accounts != [] {
      hide Latest;
      StillTwice(cs, accounts[1..], lo, mid, hi);
      LatestSplits(cs, accounts[0], lo, mid, hi);
    }
  }

  lemma {:induction false} AsksForMissing(cs: seq<Change>, accounts: seq<Address>, slot: u64, missing: seq<Address>,
                                          end: u64, width: Width, floor: u64, i: nat)
    requires end <= slot && missing == Still(cs, accounts, end, slot)
    requires i < |Plan(cs, missing, end, width, floor)|
    ensures var w := Plan(cs, missing, end, width, floor)[i];
            w.end <= slot && w.missing == Still(cs, accounts, w.end, slot)
    decreases end
  {
    if i > 0 {
      hide Still;
      var start: u64 := Larger(Minus(end, width), floor);
      StillTwice(cs, accounts, start, end, slot);
      AsksForMissing(cs, accounts, slot, Still(cs, missing, start, end), start, Widened(width), floor, i - 1);
    }
  }

  /** Each window of a search asks exactly for the accounts with no change in the windows
      before it. */
  lemma PlanAsksForMissing(cs: seq<Change>, accounts: seq<Address>, slot: u64, width: Width, floor: u64, i: nat)
    requires i < |Plan(cs, accounts, slot, width, floor)|
    ensures var w := Plan(cs, accounts, slot, width, floor)[i];
            w.end <= slot && w.missing == Still(cs, accounts, w.end, slot)
  {
    NoneYet(cs, accounts, slot);
    AsksForMissing(cs, accounts, slot, accounts, slot, width, floor, i);
  }

  lemma {:induction false} NoneYet(cs: seq<Change>, accounts: seq<Address>, slot: u64)
    ensures Still(cs, accounts, slot, slot) == accounts
  {
    if accounts != [] {
      NoneYet(cs, accounts[1..], slot);
      EmptyRange(cs, accounts[0], slot, slot);
    }
  }

  lemma {:induction false} EmptyRange(cs: seq<Change>, a: Address, lo: u64, hi: u64)
    requires hi <= lo
    ensures Latest(cs, a, lo, hi).None?
  {
    if cs != [] {
      EmptyRange(cs[..|cs| - 1], a, lo, hi);
    }
  }

  /** The plan goes on to the floor, unless nothing is missing before it. */
  lemma {:induction false} PlanGoesOn(cs: seq<Change>, missing: seq<Address>, end: u64, width: Width, floor: u64)
    ensures var windows := Plan(cs, missing, end, width, floor);
            var down := Reached(windows, end);
            down <= end && (down <= floor || Still(cs, missing, down, end) == [])
    decreases end
  {
    if missing != [] && end > floor {
      hide Still;
      var start: u64 := Larger(Minus(end, width), floor);
      var next := Still(cs, missing, start, end);
      var rest := Plan(cs, next, start, Widened(width), floor);
      PlanGoesOn(cs, next, start, Widened(width), floor);
      StillTwice(cs, missing, Reached(rest, start), start, end);
    } else if missing == [] {
      assert Still(cs, [], end, end) == [];
    }
  }
}
