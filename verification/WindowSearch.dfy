/** Searching account changes backwards in widening windows finds what one search of
    the whole range would (src/history.rs). */
module WindowSearch {
  import opened Bytes
  import opened Wrappers

  type Address = string

  /** A streamed change: new bytes, or a deletion. */
  datatype Change = Change(address: Address, slot: u64, state: Option<seq<byte>>)

  datatype Block = Block(slot: u64, accounts: Accounts)

  datatype Version = Version(slot: u64, state: Option<seq<byte>>)

  type Found = map<Address, Version>

  datatype StreamError = Unavailable(call: nat)

  // ---------------------------------------------------------------------------
  // The truth

  type Accounts = seq<(Address, Option<seq<byte>>)>

  /** The changes of a block, in order, and of many. */
  function Spread(slot: u64, accounts: Accounts): seq<Change> {
    if accounts == [] then []
    else
      var n := |accounts| - 1;
      Spread(slot, accounts[..n]) + [Change(accounts[n].0, slot, accounts[n].1)]
  }

  function Flat(bs: seq<Block>): seq<Change> {
    if bs == [] then []
    else
      var n := |bs| - 1;
      Flat(bs[..n]) + Spread(bs[n].slot, bs[n].accounts)
  }

  predicate Matches(c: Change, a: Address, lo: u64, hi: u64) { c.address == a && lo <= c.slot < hi }

  /** The last change of an account in a range of slots; of two in one slot, the later. */
  function Latest(cs: seq<Change>, a: Address, lo: u64, hi: u64): Option<Version> {
    if cs == [] then None
    else
      var c, before := cs[|cs| - 1], Latest(cs[..|cs| - 1], a, lo, hi);
      if Matches(c, a, lo, hi) && (before.None? || c.slot >= before.value.slot) then Some(Version(c.slot, c.state))
      else before
  }

  /** The change numbered `i` is the account's last in the range. */
  predicate IsLast(cs: seq<Change>, a: Address, lo: u64, hi: u64, i: nat) {
    && i < |cs| && Matches(cs[i], a, lo, hi)
    && (forall j :: 0 <= j < |cs| && Matches(cs[j], a, lo, hi) ==> cs[j].slot <= cs[i].slot)
    && (forall j :: i < j < |cs| && Matches(cs[j], a, lo, hi) ==> cs[j].slot < cs[i].slot)
  }

  predicate NoneIn(cs: seq<Change>, a: Address, lo: u64, hi: u64) {
    forall i :: 0 <= i < |cs| ==> !Matches(cs[i], a, lo, hi)
  }

  /** The last change there is, or none when there is none. */
  predicate IsLatest(cs: seq<Change>, a: Address, lo: u64, hi: u64, r: Option<Version>) {
    match r
    case None => NoneIn(cs, a, lo, hi)
    case Some(v) => exists i :: 0 <= i < |cs| && IsLast(cs, a, lo, hi, i) && v == Version(cs[i].slot, cs[i].state)
  }

  lemma {:induction false} LatestIsLast(cs: seq<Change>, a: Address, lo: u64, hi: u64)
    ensures IsLatest(cs, a, lo, hi, Latest(cs, a, lo, hi))
  {
    if cs != [] {
      hide IsLatest, Matches;
      var init, c := cs[..|cs| - 1], cs[|cs| - 1];
      assert cs == init + [c];
      LatestIsLast(init, a, lo, hi);
      LatestNext(init, c, a, lo, hi);
      LastOfOneMore(init, c, a, lo, hi, Latest(init, a, lo, hi));
    }
  }

  /** One more change is the last when it matches and is no older than the last so far. */
  lemma LastOfOneMore(cs: seq<Change>, c: Change, a: Address, lo: u64, hi: u64, r: Option<Version>)
    requires IsLatest(cs, a, lo, hi, r)
    ensures IsLatest(cs + [c], a, lo, hi,
                     if Matches(c, a, lo, hi) && (r.None? || c.slot >= r.value.slot)
                           then Some(Version(c.slot, c.state)) else r)
  {
    var all, n := cs + [c], |cs|;
    if r.Some? {
      var i :| 0 <= i < n && IsLast(cs, a, lo, hi, i) && r.value == Version(cs[i].slot, cs[i].state);
      if Matches(c, a, lo, hi) && c.slot >= cs[i].slot {
        NewIsLast(cs, c, a, lo, hi);
      } else {
        StaysLast(cs, c, a, lo, hi, i);
      }
    } else if Matches(c, a, lo, hi) {
      NewIsLast(cs, c, a, lo, hi);
    }
  }

  lemma NewIsLast(cs: seq<Change>, c: Change, a: Address, lo: u64, hi: u64)
    requires Matches(c, a, lo, hi)
    requires forall j :: 0 <= j < |cs| && Matches(cs[j], a, lo, hi) ==> cs[j].slot <= c.slot
    ensures IsLast(cs + [c], a, lo, hi, |cs|)
  {
    hide Matches;
  }

  lemma StaysLast(cs: seq<Change>, c: Change, a: Address, lo: u64, hi: u64, i: nat)
    requires IsLast(cs, a, lo, hi, i) && (Matches(c, a, lo, hi) ==> c.slot < cs[i].slot)
    ensures IsLast(cs + [c], a, lo, hi, i)
  {
    hide Matches;
  }

  /** A range searched in two parts, the newer first. */
  lemma {:induction false} LatestSplits(cs: seq<Change>, a: Address, lo: u64, mid: u64, hi: u64)
    requires lo <= mid <= hi
    ensures Latest(cs, a, lo, hi) == if Latest(cs, a, mid, hi).Some? then Latest(cs, a, mid, hi)
          else Latest(cs, a, lo, mid)
    ensures Latest(cs, a, mid, hi).Some? ==> Latest(cs, a, mid, hi).value.slot >= mid
    ensures Latest(cs, a, lo, mid).Some? ==> Latest(cs, a, lo, mid).value.slot < mid
  {
    if cs != [] {
      LatestSplits(cs[..|cs| - 1], a, lo, mid, hi);
    }
  }

  /** Exactly the asked accounts that changed in the range, each with its last change. */
  ghost predicate Finds(cs: seq<Change>, found: Found, asked: set<Address>, lo: u64, hi: u64) {
    && (forall a :: a in found <==> a in asked && Latest(cs, a, lo, hi).Some?)
    && Truthful(cs, found, lo, hi)
  }

  predicate Truthful(cs: seq<Change>, found: Found, lo: u64, hi: u64) {
    forall a <- found :: Latest(cs, a, lo, hi) == Some(found[a])
  }

  // ---------------------------------------------------------------------------
  // Collecting streamed blocks

  lemma LatestNext(cs: seq<Change>, c: Change, a: Address, lo: u64, hi: u64)
    ensures Latest(cs + [c], a, lo, hi)
         == var before := Latest(cs, a, lo, hi);
            if Matches(c, a, lo, hi) && (before.None? || c.slot >= before.value.slot)
                  then Some(Version(c.slot, c.state))
            else before
  {
    assert (cs + [c])[..|cs|] == cs;
  }

  ghost predicate Holds(found: Found, cs: seq<Change>, slot: u64) {
    forall a :: (if a in found then Some(found[a]) else None) == Latest(cs, a, 0, slot)
  }

  lemma {:induction false} NoneFrom(cs: seq<Change>, at: u64, accounts: Accounts, slot: u64, found: Found)
    requires at >= slot && Holds(found, cs, slot)
    ensures Holds(found, cs + Spread(at, accounts), slot)
  {
    if accounts == [] {
      assert cs + Spread(at, accounts) == cs;
    } else {
      var n := |accounts| - 1;
      NoneFrom(cs, at, accounts[..n], slot, found);
      var c, before := Change(accounts[n].0, at, accounts[n].1), cs + Spread(at, accounts[..n]);
      assert cs + Spread(at, accounts) == before + [c];
      forall a ensures Latest(before + [c], a, 0, slot) == Latest(before, a, 0, slot) {
        LatestNext(before, c, a, 0, slot);
      }
    }
  }

  lemma HoldsNext(found: Found, cs: seq<Change>, c: Change, slot: u64)
    requires Holds(found, cs, slot) && c.slot < slot
    ensures Holds(if c.address !in found || c.slot >= found[c.address].slot
                  then found[c.address := Version(c.slot, c.state)] else found, cs + [c], slot)
  {
    forall a ensures Latest(cs + [c], a, 0, slot)
                  == var before := Latest(cs, a, 0, slot);
                     if Matches(c, a, 0, slot) && (before.None? || c.slot >= before.value.slot)
                     then Some(Version(c.slot, c.state)) else before {
      LatestNext(cs, c, a, 0, slot);
    }
  }

  /** The last version of each account among streamed blocks, before `slot`. */
  method CollectVersions(blocks: seq<Block>, slot: u64) returns (out: Found)
    ensures Holds(out, Flat(blocks), slot)
  {
    hide Holds, Latest, Flat, Spread;
    out := map[];
    NothingHeld(slot);
    assert blocks[..0] == [];
    for n := 0 to |blocks|
      invariant Holds(out, Flat(blocks[..n]), slot)
    {
      var at, accounts := blocks[n].slot, blocks[n].accounts;
      FlatNext(blocks, n);
      ghost var was := Flat(blocks[..n]);
      if at >= slot {
        NoneFrom(was, at, accounts, slot, out);
      } else {
        SpreadNone(was, at, accounts);
        for i := 0 to |accounts|
          invariant Holds(out, was + Spread(at, accounts[..i]), slot)
        {
          var address := accounts[i].0;
          SpreadNext(was, at, accounts, i);
          HoldsNext(out, was + Spread(at, accounts[..i]), Change(address, at, accounts[i].1), slot);
          if address !in out || at >= out[address].slot {
            out := out[address := Version(at, accounts[i].1)];
          }
        }
        assert accounts[..|accounts|] == accounts;
      }
    }
    assert blocks[..|blocks|] == blocks;
  }

  lemma NothingHeld(slot: u64)
    ensures Holds(map[], Flat([]), slot)
  {
  }

  lemma FlatNext(bs: seq<Block>, n: nat)
    requires n < |bs|
    ensures Flat(bs[..n + 1]) == Flat(bs[..n]) + Spread(bs[n].slot, bs[n].accounts)
  {
    assert bs[..n + 1][..n] == bs[..n];
  }

  lemma SpreadNone(was: seq<Change>, at: u64, accounts: Accounts)
    ensures was + Spread(at, accounts[..0]) == was
  {
  }

  lemma SpreadNext(was: seq<Change>, at: u64, accounts: Accounts, i: nat)
    requires i < |accounts|
    ensures was + Spread(at, accounts[..i + 1])
         == was + Spread(at, accounts[..i]) + [Change(accounts[i].0, at, accounts[i].1)]
  {
    assert accounts[..i + 1][..i] == accounts[..i];
  }

  // ---------------------------------------------------------------------------
  // What the remote stream serves

  function Kept(accounts: Accounts, asked: set<Address>): Accounts {
    if accounts == [] then []
    else
      var n := |accounts| - 1;
      if accounts[n].0 in asked then Kept(accounts[..n], asked) + [accounts[n]] else Kept(accounts[..n], asked)
  }

  /** The blocks of a range of slots, with the asked accounts' changes only. */
  function Served(bs: seq<Block>, asked: set<Address>, start: u64, stop: u64): seq<Block> {
    if bs == [] then []
    else
      var n := |bs| - 1;
      var before := Served(bs[..n], asked, start, stop);
      if start <= bs[n].slot < stop then before + [Block(bs[n].slot, Kept(bs[n].accounts, asked))] else before
  }

  function Newer(x: Option<Version>, y: Option<Version>): Option<Version> {
    if y.Some? && (x.None? || y.value.slot >= x.value.slot) then y else x
  }

  lemma {:induction false} LatestJoins(cs: seq<Change>, ds: seq<Change>, a: Address, lo: u64, hi: u64)
    ensures Latest(cs + ds, a, lo, hi) == Newer(Latest(cs, a, lo, hi), Latest(ds, a, lo, hi))
  {
    if ds == [] {
      assert cs + ds == cs;
    } else {
      var n := |ds| - 1;
      LatestJoins(cs, ds[..n], a, lo, hi);
      assert (cs + ds)[..|cs + ds| - 1] == cs + ds[..n];
    }
  }

  lemma {:induction false} KeptLatest(at: u64, accounts: Accounts, asked: set<Address>, a: Address, lo: u64, hi: u64)
    requires lo <= at < hi
    ensures Latest(Spread(at, Kept(accounts, asked)), a, 0, hi)
         == if a in asked then Latest(Spread(at, accounts), a, lo, hi) else None
  {
    if accounts != [] {
      var n := |accounts| - 1;
      KeptLatest(at, accounts[..n], asked, a, lo, hi);
      var c := Change(accounts[n].0, at, accounts[n].1);
      LatestNext(Spread(at, accounts[..n]), c, a, lo, hi);
      var kept := Kept(accounts[..n], asked);
      assert (kept + [accounts[n]])[..|kept|] == kept;
      LatestNext(Spread(at, kept), c, a, 0, hi);
    }
  }

  lemma {:induction false} NoneOutside(at: u64, accounts: Accounts, a: Address, lo: u64, hi: u64)
    requires !(lo <= at < hi)
    ensures Latest(Spread(at, accounts), a, lo, hi) == None
  {
    if accounts != [] {
      NoneOutside(at, accounts[..|accounts| - 1], a, lo, hi);
    }
  }

  /** What is served tells each asked account's last change in the range. */
  lemma {:induction false} ServedLatest(bs: seq<Block>, asked: set<Address>, a: Address, start: u64, stop: u64)
    ensures Latest(Flat(Served(bs, asked, start, stop)), a, 0, stop)
         == if a in asked then Latest(Flat(bs), a, start, stop) else None
  {
    if bs != [] {
      hide Latest, Spread, Kept;
      var n := |bs| - 1;
      var at, accounts := bs[n].slot, bs[n].accounts;
      var before := Served(bs[..n], asked, start, stop);
      ServedLatest(bs[..n], asked, a, start, stop);
      LatestJoins(Flat(bs[..n]), Spread(at, accounts), a, start, stop);
      if start <= at < stop {
        var kept := Kept(accounts, asked);
        KeptLatest(at, accounts, asked, a, start, stop);
        assert (before + [Block(at, kept)])[..|before|] == before;
        LatestJoins(Flat(before), Spread(at, kept), a, 0, stop);
      } else {
        NoneOutside(at, accounts, a, start, stop);
      }
    } else {
      NothingLatest(a, start, stop);
    }
  }

  lemma NothingLatest(a: Address, start: u64, stop: u64)
    ensures Latest([], a, start, stop) == None && Latest([], a, 0, stop) == None
  {
  }
}
