/** The account-changes stream, asked in chunks and in widening windows; any call may
    fail (src/history.rs). */
module HistoryStreams {
  import opened Bytes
  import opened WindowPlan
  import opened WindowSearch
  import opened Wrappers

  const LARGE_ACCOUNT_BYTES := 65536
  const LARGE_FIRST_WINDOW: u64 := 16

  function Among(accounts: seq<Address>): set<Address> { set a <- accounts }

  lemma FindsJoin(cs: seq<Change>, x: Found, asked: set<Address>, y: Found, more: set<Address>, lo: u64, hi: u64)
    requires Finds(cs, x, asked, lo, hi) && Finds(cs, y, more, lo, hi)
    ensures Finds(cs, x + y, asked + more, lo, hi)
  {
  }

  lemma FindsNothing(cs: seq<Change>, asked: set<Address>, lo: u64, hi: u64)
    requires asked == {} || hi <= lo
    ensures Finds(cs, map[], asked, lo, hi)
  {
    forall a ensures hi <= lo ==> Latest(cs, a, lo, hi).None? {
      if hi <= lo {
        EmptyRange(cs, a, lo, hi);
      }
    }
  }

  /** The older window adds just what the newer ones missed. */
  lemma FindsOlder(cs: seq<Change>, found: Found, asked: set<Address>, got: Found, missing: set<Address>,
                   lo: u64, mid: u64, hi: u64)
    requires lo <= mid <= hi
    requires Finds(cs, found, asked, mid, hi) && missing == asked - found.Keys && Finds(cs, got, missing, lo, mid)
    ensures Finds(cs, found + got, asked, lo, hi)
  {
    forall a ensures Latest(cs, a, lo, hi) == if Latest(cs, a, mid, hi).Some? then Latest(cs, a, mid, hi)
          else Latest(cs, a, lo, mid) {
      LatestSplits(cs, a, lo, mid, hi);
    }
  }

  /** What a newer range found is as true of the whole. */
  lemma StillTrue(cs: seq<Change>, found: Found, lo: u64, mid: u64, hi: u64)
    requires lo <= mid <= hi && Truthful(cs, found, mid, hi)
    ensures Truthful(cs, found, lo, hi)
  {
    forall a <- found ensures Latest(cs, a, lo, hi) == Some(found[a]) {
      LatestSplits(cs, a, lo, mid, hi);
    }
  }

  /** Nothing is missing once every asked account was found. */
  lemma AllFound(cs: seq<Change>, found: Found, asked: set<Address>, lo: u64, mid: u64, hi: u64)
    requires lo <= mid <= hi && Finds(cs, found, asked, mid, hi) && asked <= found.Keys
    ensures Finds(cs, found, asked, lo, hi)
  {
    StillTrue(cs, found, lo, mid, hi);
  }

  lemma ServedFinds(bs: seq<Block>, got: Found, asked: set<Address>, start: u64, stop: u64)
    requires Holds(got, Flat(Served(bs, asked, start, stop)), stop)
    ensures Finds(Flat(bs), got, asked, start, stop)
  {
    hide Flat, Served, Latest;
    forall a ensures (if a in got then Some(got[a]) else None)
                  == if a in asked then Latest(Flat(bs), a, start, stop) else None {
      ServedLatest(bs, asked, a, start, stop);
    }
  }

  /** Every call from one number to another was answered. */
  ghost predicate AllUp(up: nat -> bool, from: nat, to: nat) { forall n :: from <= n < to ==> up(n) }

  class HistoryStream {
    /** The chain's account changes, and which calls the remote answers. */
    const blocks: seq<Block>
    const up: nat -> bool
    const lookback: u64
    const deepLookback: u64
    var calls: nat
    /** Every call made so far. */
    ghost var log: seq<Ask>

    constructor (blocks: seq<Block>, up: nat -> bool, lookback: u64, deepLookback: u64)
      ensures this.blocks == blocks && this.up == up && calls == 0 && log == []
      ensures this.lookback == lookback && this.deepLookback == deepLookback
    {
      this.blocks, this.up, this.lookback, this.deepLookback, calls := blocks, up, lookback, deepLookback, 0;
      log := [];
    }

    method Stream(chunk: seq<Address>, start: u64, stop: u64) returns (r: Result<seq<Block>, StreamError>)
      modifies this
      ensures calls == old(calls) + 1 && log == old(log) + [Ask(chunk, start, stop)]
      ensures r == if up(old(calls)) then Ok(Served(blocks, Among(chunk), start, stop))
            else Err(Unavailable(old(calls)))
    {
      r := if up(calls) then Ok(Served(blocks, Among(chunk), start, stop)) else Err(Unavailable(calls));
      calls, log := calls + 1, log + [Ask(chunk, start, stop)];
    }

    /** The last change of each account in a range: all of them, or an error, by the calls
        of the range in order, up to the first that fails. */
    method LatestIn(accounts: seq<Address>, start: u64, slot: u64) returns (r: Result<Found, StreamError>)
      modifies this
      ensures calls >= old(calls)
      ensures r.Ok? <==> AllUp(up, old(calls), calls)
      ensures r.Ok? ==> Finds(Flat(blocks), r.value, Among(accounts), start, slot)
      ensures old(log) <= log <= old(log) + RangeAsks(accounts, start, slot)
      ensures if r.Ok? then log == old(log) + RangeAsks(accounts, start, slot) else |log| > |old(log)|
    {
      hide Finds, Flat, Served, Holds, Among;
      if accounts == [] || slot == 0 || start >= slot {
        NoneAmong(accounts);
        FindsNothing(Flat(blocks), Among(accounts), start, slot);
        NoCalls(log, accounts, start, slot);
        r := Ok(map[]);
      } else {
        r := LatestByChunk(accounts, start, slot);
      }
    }

    method LatestByChunk(accounts: seq<Address>, start: u64, slot: u64) returns (r: Result<Found, StreamError>)
      modifies this
      ensures calls >= old(calls)
      ensures r.Ok? <==> AllUp(up, old(calls), calls)
      ensures r.Ok? ==> Finds(Flat(blocks), r.value, Among(accounts), start, slot)
      ensures old(log) <= log <= old(log) + Chunks(accounts, start, slot)
      ensures if r.Ok? then log == old(log) + Chunks(accounts, start, slot) else |log| > |old(log)|
    {
      hide Finds, Flat, Served, Holds, Among, Chunks;
      var out: Found := map[];
      var i := 0;
      ghost var all := old(log) + Chunks(accounts, start, slot);
      assert accounts[0..] == accounts;
      NoneAmong(accounts[..0]);
      FindsNothing(Flat(blocks), Among(accounts[..0]), start, slot);
      r := Ok(out);
      while i < |accounts| && r.Ok?
        invariant i <= |accounts| && calls >= old(calls) && (r.Ok? <==> AllUp(up, old(calls), calls))
        invariant r.Ok? ==> r == Ok(out) && Finds(Flat(blocks), out, Among(accounts[..i]), start, slot)
        invariant old(log) <= log && (r.Err? ==> |log| > |old(log)| && log <= all)
        invariant r.Ok? ==> log + Chunks(accounts[i..], start, slot) == all
        decreases |accounts| - i, r.Ok?
      {
        var next := Smaller(i + BATCH, |accounts|);
        var chunk := accounts[i..next];
        ChunksFrom(log, accounts, i, next, start, slot);
        var blocks := Stream(chunk, start, slot);
        if blocks.Err? {
          r := Err(blocks.error);
        } else {
          var got := CollectVersions(blocks.value, slot);
          ServedFinds(this.blocks, got, Among(chunk), start, slot);
          FindsJoin(Flat(this.blocks), out, Among(accounts[..i]), got, Among(chunk), start, slot);
          AmongJoins(accounts, i, next);
          out, i := out + got, next;
          r := Ok(out);
        }
      }
      if r.Ok? {
        assert accounts[..i] == accounts;
        NoChunks(log, accounts, start, slot);
      }
    }

    /** Widening windows back from `slot`. The calls made are those of the planned windows,
        in order, up to the first that fails. What comes back is exactly what one search
        down to the last window's start would find; with no failed call, down to the
        floor. */
    method LatestBeforeWindows(accounts: seq<Address>, slot: u64, first: u64, max: u64)
      returns (r: Result<Found, StreamError>, ghost windows: seq<Window>)
      modifies this
      ensures calls >= old(calls)
      ensures var plan := Plan(Flat(blocks), accounts, slot, Larger(first, 1), FloorOf(slot, max));
              && windows <= plan
              && old(log) + AllAsks(windows) <= log <= old(log) + AllAsks(plan)
              && (AllUp(up, old(calls), calls) ==> windows == plan && log == old(log) + AllAsks(plan))
              && (!AllUp(up, old(calls), calls) ==>
                    |windows| < |plan| && log <= old(log) + AllAsks(plan[..|windows| + 1]))
      ensures r.Err? ==> !AllUp(up, old(calls), calls)
      ensures r.Ok? ==> Reached(windows, slot) <= slot
                        && Finds(Flat(blocks), r.value, Among(accounts), Reached(windows, slot), slot)
      ensures r.Ok? && slot > 0 ==> Truthful(Flat(blocks), r.value, FloorOf(slot, max), slot)
      ensures AllUp(up, old(calls), calls) ==>
                r.Ok? && Finds(Flat(blocks), r.value, Among(accounts), FloorOf(slot, max), slot)
    {
      hide Finds, Truthful, Flat, AllUp, Among, Plan, AllAsks, RangeAsks, Reached, Still;
      ghost var cs, asked := Flat(blocks), Among(accounts);
      var found: Found := map[];
      var missing := accounts;
      var end: u64, floor := slot, FloorOf(slot, max);
      var width: Width := Larger(first, 1);
      ghost var plan := Plan(cs, accounts, slot, width, floor);
      windows, r := [], Ok(found);
      Starting(cs, asked, slot, up, calls, log);
      ghost var failed := false;
      while missing != [] && end > floor && r.Ok?
        invariant calls >= old(calls) && end <= slot && (slot > 0 ==> floor <= end)
        invariant end == Reached(windows, slot) && Finds(cs, found, asked, end, slot)
        invariant Among(missing) == asked - found.Keys
        invariant !failed ==> r.Ok? && AllUp(up, old(calls), calls) && log == old(log) + AllAsks(windows)
        invariant !failed ==> windows + Plan(cs, missing, end, width, floor) == plan
        invariant failed ==> !AllUp(up, old(calls), calls) && Cut(old(log), log, windows, plan)
        invariant failed ==> missing == [] || r.Err?
        decreases end, r.Ok?, missing != []
      {
        var start: u64 := Larger(Minus(end, width), floor);
        ghost var before, sofar := calls, log;
        var got := LatestIn(missing, start, end);
        SomeUp(up, old(calls), before, calls);
        ghost var w := Window(missing, start, end);
        PlanNext(cs, missing, end, width, floor, windows, plan);
        AllAsksNext(windows, w);
        if got.Err? {
          CutHere(old(log), sofar, log, windows, w, plan);
          failed := true;
          if found == map[] {
            r := Err(got.error);
          } else {
            break;
          }
        } else {
          FindsOlder(cs, found, asked, got.value, Among(missing), start, end, slot);
          StillMissing(missing, got.value);
          RetainedAreStill(cs, missing, got.value, start, end);
          missing := Retained(missing, got.value);
          ReachedNext(windows, w, slot);
          windows := windows + [w];
          found, end := found + got.value, start;
          width := Widened(width);
        }
      }
      if r.Ok? {
        r := Ok(found);
        if slot > 0 {
          FoundIsTrue(cs, found, asked, floor, end, slot);
        }
        if !failed {
          Finished(cs, found, asked, missing, floor, end, slot);
          PlanDone(cs, missing, end, width, floor, windows);
        }
      }
    }

    /** The same for accounts of known size, large ones starting with a narrow window.
        An error in one group does not lose what the other found. */
    method LatestBeforeSized(accounts: seq<(Address, nat)>, slot: u64) returns (r: Result<Found, StreamError>)
      modifies this
      ensures calls >= old(calls)
      ensures r.Err? ==> !AllUp(up, old(calls), calls)
      ensures r.Ok? && slot > 0 ==> Truthful(Flat(blocks), r.value, FloorOf(slot, deepLookback), slot)
      ensures AllUp(up, old(calls), calls) ==>
                r.Ok? && Finds(Flat(blocks), r.value, Among(Names(accounts)), FloorOf(slot, deepLookback), slot)
      ensures AllUp(up, old(calls), calls) ==>
                log == old(log) + SearchAsks(Flat(blocks), OfSize(accounts, false), slot, lookback, deepLookback)
                                + SearchAsks(Flat(blocks), OfSize(accounts, true), slot, LARGE_FIRST_WINDOW,
                                      deepLookback)
    {
      hide Finds, Truthful, Flat, AllUp, Among, SearchAsks;
      ghost var cs, floor := Flat(blocks), FloorOf(slot, deepLookback);
      var large, small := BySize(accounts);
      var found: Found := map[];
      var failure: Option<StreamError> := None;
      ghost var asked: set<Address> := {};
      FindsNothing(cs, {}, floor, slot);
      SomeUp(up, calls, calls, calls);
      NoneUp(up, calls);
      ghost var asks := log;
      NoSearch(cs, slot, lookback, deepLookback);
      NoSearch(cs, slot, LARGE_FIRST_WINDOW, deepLookback);
      var n := 0;
      while n < 2
        invariant 0 <= n <= 2 && calls >= old(calls)
        invariant asked == if n == 0 then {} else if n == 1 then Among(small) else Among(small) + Among(large)
        invariant slot > 0 ==> Truthful(cs, found, floor, slot)
        invariant AllUp(up, old(calls), calls) ==> failure.None? && Finds(cs, found, asked, floor, slot)
        invariant failure.Some? ==> !AllUp(up, old(calls), calls)
        invariant asks == if n == 0 then old(log)
                          else if n == 1 then old(log) + SearchAsks(cs, small, slot, lookback, deepLookback)
                          else old(log) + SearchAsks(cs, small, slot, lookback, deepLookback)
                                        + SearchAsks(cs, large, slot, LARGE_FIRST_WINDOW, deepLookback)
        invariant AllUp(up, old(calls), calls) ==> log == asks
      {
        var group, first := if n == 0 then small else large, if n == 0 then lookback else LARGE_FIRST_WINDOW;
        NoneAmong(group);
        if group != [] {
          ghost var before := calls;
          var got, windows := LatestBeforeWindows(group, slot, first, deepLookback);
          SomeUp(up, old(calls), before, calls);
          SearchAsked(cs, group, slot, first, deepLookback);
          if got.Ok? {
            if slot > 0 {
              TruthfulJoin(cs, found, got.value, floor, slot);
            }
            if AllUp(up, old(calls), calls) {
              FindsJoin(cs, found, asked, got.value, Among(group), floor, slot);
            }
            found := found + got.value;
          } else if failure.None? {
            failure := Some(got.error);
          }
        }
        assert group == [] ==> asked + Among(group) == asked;
        asked := asked + Among(group);
        asks := asks + SearchAsks(cs, group, slot, first, deepLookback);
        n := n + 1;
      }
      r := if failure.Some? && found == map[] then Err(failure.value) else Ok(found);
    }
  }

  function Names(accounts: seq<(Address, nat)>): seq<Address> {
    seq(|accounts|, i requires 0 <= i < |accounts| => accounts[i].0)
  }

  /** The accounts on one side of the size limit, in order. */
  function OfSize(accounts: seq<(Address, nat)>, large: bool): seq<Address> {
    if accounts == [] then []
    else
      var n := |accounts| - 1;
      var before := OfSize(accounts[..n], large);
      if (accounts[n].1 >= LARGE_ACCOUNT_BYTES) == large then before + [accounts[n].0] else before
  }

  method BySize(accounts: seq<(Address, nat)>) returns (large: seq<Address>, small: seq<Address>)
    ensures large == OfSize(accounts, true) && small == OfSize(accounts, false)
    ensures Among(small) + Among(large) == Among(Names(accounts))
  {
    hide Among;
    large, small := [], [];
    NoneAmong(small);
    NoneAmong(Names(accounts)[..0]);
    for i := 0 to |accounts|
      invariant large == OfSize(accounts[..i], true) && small == OfSize(accounts[..i], false)
      invariant Among(small) + Among(large) == Among(Names(accounts)[..i])
    {
      assert accounts[..i + 1][..i] == accounts[..i];
      assert Names(accounts)[..i + 1] == Names(accounts)[..i] + [accounts[i].0];
      AmongNext(Names(accounts)[..i], accounts[i].0);
      if accounts[i].1 >= LARGE_ACCOUNT_BYTES {
        AmongNext(large, accounts[i].0);
        large := large + [accounts[i].0];
      } else {
        AmongNext(small, accounts[i].0);
        small := small + [accounts[i].0];
      }
    }
    assert accounts[..|accounts|] == accounts;
    assert Names(accounts)[..|accounts|] == Names(accounts);
  }

  /** The calls of one whole widening search. */
  function SearchAsks(cs: seq<Change>, accounts: seq<Address>, slot: u64, first: u64, max: u64): seq<Ask> {
    AllAsks(Plan(cs, accounts, slot, Larger(first, 1), FloorOf(slot, max)))
  }

  lemma SearchAsked(cs: seq<Change>, accounts: seq<Address>, slot: u64, first: u64, max: u64)
    ensures SearchAsks(cs, accounts, slot, first, max)
         == AllAsks(Plan(cs, accounts, slot, Larger(first, 1), FloorOf(slot, max)))
  {
  }

  lemma NoSearch(cs: seq<Change>, slot: u64, first: u64, max: u64)
    ensures SearchAsks(cs, [], slot, first, max) == []
  {
  }

  lemma AmongNext(accounts: seq<Address>, a: Address)
    ensures Among(accounts + [a]) == Among(accounts) + {a}
  {
  }

  lemma NoneUp(up: nat -> bool, n: nat)
    ensures AllUp(up, n, n) && Truthful([], map[], 0, 0)
  {
  }

  lemma TruthfulJoin(cs: seq<Change>, x: Found, y: Found, lo: u64, hi: u64)
    requires Truthful(cs, x, lo, hi) && Truthful(cs, y, lo, hi)
    ensures Truthful(cs, x + y, lo, hi)
  {
  }

  function Retained(accounts: seq<Address>, got: Found): seq<Address> {
    if accounts == [] then []
    else
      var rest := Retained(accounts[1..], got);
      if accounts[0] in got then rest else [accounts[0]] + rest
  }

  lemma {:induction false} StillMissing(accounts: seq<Address>, got: Found)
    ensures Among(Retained(accounts, got)) == Among(accounts) - got.Keys
  {
    if accounts != [] {
      var rest := accounts[1..];
      StillMissing(rest, got);
      assert accounts == [accounts[0]] + rest;
      assert Among(accounts) == {accounts[0]} + Among(rest);
      assert Among([accounts[0]] + Retained(rest, got)) == {accounts[0]} + Among(Retained(rest, got));
    }
  }

  lemma NoneAmong(accounts: seq<Address>)
    ensures accounts == [] <==> Among(accounts) == {}
  {
    if accounts != [] {
      assert accounts[0] in Among(accounts);
    }
  }

  lemma AmongJoins(accounts: seq<Address>, i: nat, n: nat)
    requires i <= n <= |accounts|
    ensures Among(accounts[..i]) + Among(accounts[i..n]) == Among(accounts[..n])
  {
    assert accounts[..n] == accounts[..i] + accounts[i..n];
  }

  lemma SomeUp(up: nat -> bool, from: nat, mid: nat, to: nat)
    requires from <= mid <= to
    ensures AllUp(up, from, to) <==> AllUp(up, from, mid) && AllUp(up, mid, to)
  {
  }

  lemma Starting(cs: seq<Change>, asked: set<Address>, slot: u64, up: nat -> bool, calls: nat, log: seq<Ask>)
    ensures AllUp(up, calls, calls) && Finds(cs, map[], asked, slot, slot)
    ensures Reached([], slot) == slot && log == log + AllAsks([])
  {
    FindsNothing(cs, asked, slot, slot);
  }

  /** The log of a search cut short in the window after `windows`. */
  predicate Cut(before: seq<Ask>, log: seq<Ask>, windows: seq<Window>, plan: seq<Window>) {
    && windows <= plan && |windows| < |plan|
    && before + AllAsks(windows) <= log <= before + AllAsks(plan[..|windows| + 1])
    && log <= before + AllAsks(plan)
  }

  lemma CutHere(before: seq<Ask>, sofar: seq<Ask>, log: seq<Ask>, windows: seq<Window>, w: Window, plan: seq<Window>)
    requires sofar == before + AllAsks(windows) && windows + [w] <= plan
    requires sofar <= log <= sofar + RangeAsks(w.missing, w.start, w.end)
    requires AllAsks(windows + [w]) == AllAsks(windows) + RangeAsks(w.missing, w.start, w.end)
    ensures Cut(before, log, windows, plan)
  {
    hide AllAsks, RangeAsks;
    var n := |windows| + 1;
    assert plan[..n] == windows + [w];
    AllAsksPrefix(plan, n);
    assert before + (AllAsks(windows) + RangeAsks(w.missing, w.start, w.end))
        == sofar + RangeAsks(w.missing, w.start, w.end);
  }

  lemma PlanNext(cs: seq<Change>, missing: seq<Address>, end: u64, width: Width, floor: u64,
                 windows: seq<Window>, plan: seq<Window>)
    requires missing != [] && end > floor && windows + Plan(cs, missing, end, width, floor) == plan
    ensures var start: u64 := Larger(Minus(end, width), floor);
            var w := Window(missing, start, end);
            && windows + [w] <= plan
            && windows + [w] + Plan(cs, Still(cs, missing, start, end), start, Widened(width), floor) == plan
  {
    var start: u64 := Larger(Minus(end, width), floor);
    var w, rest := Window(missing, start, end), Plan(cs, Still(cs, missing, start, end), start, Widened(width), floor);
    assert Plan(cs, missing, end, width, floor) == [w] + rest;
    MovedOver(windows, w, rest);
  }

  lemma MovedOver(windows: seq<Window>, w: Window, rest: seq<Window>)
    ensures windows + [w] + rest == windows + ([w] + rest) && windows + [w] <= windows + ([w] + rest)
  {
  }

  lemma PlanDone(cs: seq<Change>, missing: seq<Address>, end: u64, width: Width, floor: u64, windows: seq<Window>)
    requires missing == [] || end <= floor
    ensures windows + Plan(cs, missing, end, width, floor) == windows
  {
  }

  lemma ReachedNext(windows: seq<Window>, w: Window, slot: u64)
    ensures Reached(windows + [w], slot) == w.start
  {
  }

  lemma {:induction false} RetainedAreStill(cs: seq<Change>, accounts: seq<Address>, got: Found, lo: u64, hi: u64)
    requires Finds(cs, got, Among(accounts), lo, hi)
    ensures Retained(accounts, got) == Still(cs, accounts, lo, hi)
  {
    RetainedSome(cs, accounts, got, Among(accounts), lo, hi);
  }

  lemma {:induction false} RetainedSome(cs: seq<Change>, accounts: seq<Address>, got: Found, asked: set<Address>,
                                        lo: u64, hi: u64)
    requires Finds(cs, got, asked, lo, hi) && Among(accounts) <= asked
    ensures Retained(accounts, got) == Still(cs, accounts, lo, hi)
  {
    if accounts != [] {
      assert accounts[0] in Among(accounts);
      assert Among(accounts[1..]) <= Among(accounts);
      RetainedSome(cs, accounts[1..], got, asked, lo, hi);
    }
  }

  lemma NoCalls(log: seq<Ask>, accounts: seq<Address>, start: u64, slot: u64)
    requires accounts == [] || slot == 0 || start >= slot
    ensures log == log + RangeAsks(accounts, start, slot)
  {
  }

  lemma NoChunks(log: seq<Ask>, accounts: seq<Address>, start: u64, slot: u64)
    ensures log + Chunks(accounts[|accounts|..], start, slot) == log
  {
  }

  /** The calls from account `i` on: one chunk, and then the rest. */
  lemma ChunksFrom(log: seq<Ask>, accounts: seq<Address>, i: nat, next: nat, start: u64, slot: u64)
    requires i < |accounts| && next == Smaller(i + BATCH, |accounts|)
    ensures log + [Ask(accounts[i..next], start, slot)] + Chunks(accounts[next..], start, slot)
         == log + Chunks(accounts[i..], start, slot)
  {
    var rest, k := accounts[i..], next - i;
    assert rest[..k] == accounts[i..next] && rest[k..] == accounts[next..];
  }

  lemma FoundIsTrue(cs: seq<Change>, found: Found, asked: set<Address>, floor: u64, end: u64, slot: u64)
    requires Finds(cs, found, asked, end, slot) && floor <= end <= slot
    ensures Truthful(cs, found, floor, slot)
  {
    StillTrue(cs, found, floor, end, slot);
  }

  lemma Finished(cs: seq<Change>, found: Found, asked: set<Address>, missing: seq<Address>, floor: u64, end: u64,
                 slot: u64)
    requires Finds(cs, found, asked, end, slot) && Among(missing) == asked - found.Keys
    requires end <= slot && (slot > 0 ==> floor <= end) && floor >= 1
    requires missing == [] || end <= floor
    ensures Finds(cs, found, asked, floor, slot)
  {
    NoneAmong(missing);
    if slot == 0 {
      FindsNothing(cs, asked, floor, slot);
      FindsNothing(cs, asked, end, slot);
    } else if missing == [] {
      forall a <- asked ensures a in found.Keys {
        assert a !in asked - found.Keys;
      }
      AllFound(cs, found, asked, floor, end, slot);
    }
  }
}
