/** Packs carried from one store to another (src/records.rs). */
module Exchange {
  import opened Bytes
  import opened Chain
  import opened Coverage
  import opened Packs
  import opened RecordStore
  import opened StateCodec
  import opened StoreSpec
  import opened Timeline
  import opened Wrappers

  // ---------------------------------------------------------------------------
  // What an export holds

  /** A pack a store exported can be imported, as long as every body fits its
      32-bit length. */
  lemma ExportIsImportable(f: Foreign, book: Book, cov: seq<Span>, since: u64, items: seq<Packed>, i: nat)
    requires Sound(f) && Normal(cov) && forall a :: a in book ==> Named(f, a)
    requires ExportOf(f, book, cov, since, items)
    requires i < |items| && |EntryBody(items[i])| < U32_LIMIT
    ensures Importable(f, items[i])
  {
    hide IsLog, Newer;
    var spans := ClipSpans(cov, since);
    if spans != [] && i == |items| - 1 {
      ClippedProper(cov, since);
    } else {
      var accounts := if spans == [] then items else items[..|items| - 1];
      assert ExportsAccount(f, book, since, accounts[i]);
    }
  }

  lemma {:induction false} ClippedProper(cov: seq<Span>, since: u64)
    requires Normal(cov)
    ensures forall i :: 0 <= i < |ClipSpans(cov, since)| ==> Proper(ClipSpans(cov, since)[i])
  {
    if cov != [] {
      ClippedProper(cov[1..], since);
    }
  }

  /** What a pack exported after `since` covers: the covered slots after it. */
  lemma {:induction false} ClippedContains(cov: seq<Span>, since: u64, slot: u64)
    requires Normal(cov)
    ensures Contains(ClipSpans(cov, since), slot) <==> slot > since && Contains(cov, slot)
  {
    if cov != [] {
      hide Normal;
      ClippedContains(cov[1..], since, slot) by { NormalTail(cov); }
      var p, rest := Span(slot, slot), ClipSpans(cov[1..], since);
      assert cov == [cov[0]] + cov[1..];
      WithinFront(cov[0], cov[1..], p);
      if cov[0].last > since {
        WithinFront(ClipSpans(cov, since)[0], rest, p);
      }
    }
  }

  lemma NormalTail(cov: seq<Span>)
    requires Normal(cov) && cov != []
    ensures Normal(cov[1..])
  {
  }

  lemma WithinFront(s: Span, rest: seq<Span>, r: Span)
    ensures Within([s] + rest, r) <==> Coverage.Holds(s, r) || Within(rest, r)
  {
    var all := [s] + rest;
    if Coverage.Holds(s, r) {
      assert Coverage.Holds(all[0], r);
    }
    if Within(rest, r) {
      var k :| 0 <= k < |rest| && Coverage.Holds(rest[k], r);
      assert Coverage.Holds(all[k + 1], r);
    }
    if Within(all, r) && !Coverage.Holds(s, r) {
      var k :| 0 <= k < |all| && Coverage.Holds(all[k], r);
      assert Coverage.Holds(rest[k - 1], r);
    }
  }

  /** The accounts of an exported pack, without its coverage. */
  function Accounts(cov: seq<Span>, since: u64, items: seq<Packed>): seq<Packed> {
    if ClipSpans(cov, since) == [] || items == [] then items else items[..|items| - 1]
  }

  /** An exported pack carries each account at most once, and its chains are in order. */
  lemma ExportIsDistinct(f: Foreign, book: Book, cov: seq<Span>, since: u64, items: seq<Packed>)
    requires ExportOf(f, book, cov, since, items) && Ordered(book)
    ensures Distinct(items) && ChainsAscend(items)
  {
    hide IsLog, Newer, ClipSpans;
    var accounts := Accounts(cov, since, items);
    forall i | 0 <= i < |items| && items[i].Account? ensures Ascending(items[i].versions) {
      assert items[i] == accounts[i] && ExportsAccount(f, book, since, accounts[i]);
      NewerAscends(book[items[i].address], since);
    }
    forall i, j | 0 <= i < j < |items| && items[i].Account? && items[j].Account?
      ensures items[i].address != items[j].address
    {
      assert items[i] == accounts[i] && items[j] == accounts[j];
    }
  }

  lemma NewerAscends(vs: seq<Version>, since: u64)
    requires Ascending(vs)
    ensures Ascending(Newer(vs, since))
  {
    RewriteAscends(vs, seq(|vs|, i requires 0 <= i < |vs| => vs[i].slot > since));
  }

  /** Its spans are the store's, clipped. */
  lemma ExportedSpans(f: Foreign, book: Book, cov: seq<Span>, since: u64, items: seq<Packed>)
    requires ExportOf(f, book, cov, since, items)
    ensures PolledSpans(items) == ClipSpans(cov, since)
  {
    hide ClipSpans, IsLog, Newer;
    var accounts := Accounts(cov, since, items);
    forall i | 0 <= i < |accounts| ensures accounts[i].Account? {
      assert ExportsAccount(f, book, since, accounts[i]);
    }
    NoSpans(accounts);
    assert [] + ClipSpans(cov, since) == ClipSpans(cov, since);
  }

  lemma {:induction false} NoSpans(ps: seq<Packed>)
    requires forall i :: 0 <= i < |ps| ==> ps[i].Account?
    ensures PolledSpans(ps) == []
  {
    if ps != [] {
      NoSpans(ps[..|ps| - 1]);
    }
  }

  // ---------------------------------------------------------------------------
  // Importing it elsewhere

  /** Each account at most once. */
  predicate Distinct(ps: seq<Packed>) {
    forall i, j :: 0 <= i < j < |ps| && ps[i].Account? && ps[j].Account? ==> ps[i].address != ps[j].address
  }

  predicate Carries(ps: seq<Packed>, i: nat, a: Address) {
    i < |ps| && ps[i].Account? && ps[i].address == a
  }

  lemma {:induction false} ImportLeavesOthers(book: Book, ps: seq<Packed>, a: Address)
    requires forall i :: 0 <= i < |ps| ==> !Carries(ps, i, a)
    ensures Of(ImportAll(book, ps), a) == Of(book, a)
    ensures a in ImportAll(book, ps) <==> a in book
  {
    if ps != [] {
      hide Import;
      var n := |ps| - 1;
      assert !Carries(ps, n, a);
      forall i | 0 <= i < n
        ensures !Carries(ps[..n], i, a)
      {
        assert !Carries(ps, i, a);
      }
      ImportLeavesOthers(book, ps[..n], a);
    }
  }

  /** What an import leaves of an account it carries. */
  lemma {:induction false} ImportOf(book: Book, ps: seq<Packed>, i: nat, a: Address)
    requires Distinct(ps) && Carries(ps, i, a)
    ensures a in ImportAll(book, ps)
    ensures Of(ImportAll(book, ps), a) == Import(Of(book, a), ps[i].versions)
  {
    hide Import;
    var n := |ps| - 1;
    if i == n {
      forall k | 0 <= k < n
        ensures !Carries(ps[..n], k, a)
      {
      }
      ImportLeavesOthers(book, ps[..n], a);
    } else {
      ImportOf(book, ps[..n], i, a);
    }
  }

  /** Importing what another store exported after `since` adds, for every account, just
      what was recorded there after `since` at slots not recorded here. */
  lemma ExportedUnion(f: Foreign, here: Book, there: Book, cov: seq<Span>, since: u64, items: seq<Packed>,
                      a: Address, slot: u64, state: Option<AccountState>)
    requires ExportOf(f, there, cov, since, items) && Ordered(here) && Ordered(there)
    ensures StoreSpec.Reads(Of(ImportAll(here, items), a), slot, state) <==>
            || StoreSpec.Reads(Of(here, a), slot, state)
            || (slot > since && StoreSpec.Reads(Of(there, a), slot, state) && !HasSlot(Of(here, a), slot))
  {
    hide ExportOf, Import, ImportAll, StoreSpec.Reads, Newer, Distinct;
    ExportIsDistinct(f, there, cov, since, items);
    if exists i: nat :: Carries(items, i, a) {
      var i: nat :| Carries(items, i, a);
      ImportOf(here, items, i, a);
      CarriesNewer(f, there, cov, since, items, i, a);
      ExportThenImport(Of(here, a), Of(there, a), since, slot, state);
    } else {
      ImportLeavesOthers(here, items, a);
      NotCarried(f, there, cov, since, items, a);
      NewerReads(Of(there, a), since, slot, state);
      NothingRead(slot, state);
    }
  }

  lemma NothingRead(slot: u64, state: Option<AccountState>)
    ensures !StoreSpec.Reads([], slot, state)
  {
  }

  lemma CarriesNewer(f: Foreign, book: Book, cov: seq<Span>, since: u64, items: seq<Packed>, i: nat, a: Address)
    requires ExportOf(f, book, cov, since, items) && Carries(items, i, a)
    ensures items[i].versions == Newer(Of(book, a), since)
  {
    hide IsLog, Newer, ClipSpans;
    var accounts := Accounts(cov, since, items);
    assert items[i] == accounts[i] && ExportsAccount(f, book, since, accounts[i]);
  }

  lemma NotCarried(f: Foreign, book: Book, cov: seq<Span>, since: u64, items: seq<Packed>, a: Address)
    requires ExportOf(f, book, cov, since, items)
    requires forall i: nat :: !Carries(items, i, a)
    ensures Newer(Of(book, a), since) == []
  {
    hide IsLog, ClipSpans;
    var accounts := Accounts(cov, since, items);
    forall i | 0 <= i < |accounts| ensures !(accounts[i].Account? && accounts[i].address == a) {
      assert !Carries(items, i, a);
    }
  }

  // ---------------------------------------------------------------------------
  // Importing it again

  /** Every slot of a chain is already recorded. */
  ghost predicate Recorded(vs: seq<Version>, ws: seq<Version>) {
    forall w <- ws :: HasSlot(vs, w.slot)
  }

  lemma NothingNewAdds(vs: seq<Version>, ws: seq<Version>)
    requires Ascending(vs) && Ascending(ws) && Recorded(vs, ws)
    ensures |Import(vs, ws)| == |vs|
  {
    if ws != [] {
      assert ws[0] in ws;
      assert HasSlot(vs, ws[0].slot);
    }
    if !Appends(vs, ws) {
      hide Merge, Settle;
      SettleAscends(vs);
      MergeAscends(vs, ws);
      forall v ensures v in Merge(vs, ws) <==> v in Settle(vs) {
        MergeIsUnion(vs, ws, v);
        if v in Settle(ws) {
          var w := FromSettle(ws, v);
        }
      }
      MembersDetermine(Merge(vs, ws), Settle(vs));
      SettleLength(vs);
    }
  }

  lemma SettleAscends(vs: seq<Version>)
    requires Ascending(vs)
    ensures Ascending(Settle(vs))
  {
  }

  /** An import keeps every slot recorded here and takes in every slot there. */
  lemma ImportRecords(vs: seq<Version>, ws: seq<Version>, slot: u64)
    requires Ascending(vs) && Ascending(ws)
    ensures HasSlot(Import(vs, ws), slot) <==> HasSlot(vs, slot) || HasSlot(ws, slot)
  {
    hide Import, StoreSpec.Reads;
    forall state ensures StoreSpec.Reads(Import(vs, ws), slot, state) <==>
                         StoreSpec.Reads(vs, slot, state) || (StoreSpec.Reads(ws, slot, state) && !HasSlot(vs, slot)) {
      ImportIsUnion(vs, ws, slot, state);
    }
    SlotIsRead(Import(vs, ws), slot);
    SlotIsRead(vs, slot);
    SlotIsRead(ws, slot);
  }

  lemma SlotIsRead(vs: seq<Version>, slot: u64)
    ensures HasSlot(vs, slot) <==> exists state :: StoreSpec.Reads(vs, slot, state)
  {
    if HasSlot(vs, slot) {
      var i :| 0 <= i < |vs| && vs[i].slot == slot;
      assert StoreSpec.Reads(vs, slot, vs[i].state);
    }
  }

  /** Every chain of the pack is recorded in the book. */
  ghost predicate AllRecorded(book: Book, ps: seq<Packed>) {
    forall i :: 0 <= i < |ps| && ps[i].Account? ==> Recorded(Of(book, ps[i].address), ps[i].versions)
  }

  ghost predicate Grown(before: Book, after: Book) {
    forall a, slot :: HasSlot(Of(before, a), slot) ==> HasSlot(Of(after, a), slot)
  }

  lemma GrownKeepsRecorded(before: Book, after: Book, ps: seq<Packed>)
    requires AllRecorded(before, ps) && Grown(before, after)
    ensures AllRecorded(after, ps)
  {
    hide HasSlot;
    forall i | 0 <= i < |ps| && ps[i].Account? ensures Recorded(Of(after, ps[i].address), ps[i].versions) {
      assert Recorded(Of(before, ps[i].address), ps[i].versions);
    }
  }

  lemma OneGrows(book: Book, p: Packed)
    requires Ordered(book) && (p.Account? ==> Ascending(p.versions))
    ensures Grown(book, ImportOne(book, p))
    ensures p.Account? ==> Recorded(Of(ImportOne(book, p), p.address), p.versions)
  {
    if p.Account? {
      hide HasSlot, Import, Ascending;
      forall slot: u64 ensures HasSlot(Import(Of(book, p.address), p.versions), slot)
                               <==> HasSlot(Of(book, p.address), slot) || HasSlot(p.versions, slot) {
        OfAscends(book, p.address);
        ImportRecords(Of(book, p.address), p.versions, slot);
      }
      forall w <- p.versions ensures HasSlot(p.versions, w.slot) {
        HasOwnSlot(p.versions, w);
      }
    }
  }

  lemma HasOwnSlot(vs: seq<Version>, v: Version)
    requires v in vs
    ensures HasSlot(vs, v.slot)
  {
  }

  /** Every chain of a pack taken in is recorded. */
  lemma {:induction false} ImportedIsRecorded(book: Book, ps: seq<Packed>)
    requires Ordered(book) && ChainsAscend(ps)
    ensures AllRecorded(ImportAll(book, ps), ps)
  {
    if ps != [] {
      hide Recorded, Grown, ImportOne, Ordered;
      var n := |ps| - 1;
      ImportedIsRecorded(book, ps[..n]);
      ImportKeepsOrder(book, ps[..n]);
      OneGrows(ImportAll(book, ps[..n]), ps[n]);
      GrownKeepsRecorded(ImportAll(book, ps[..n]), ImportAll(book, ps), ps[..n]);
    }
  }

  /** Taking in chains already recorded adds no version. */
  lemma {:induction false} RecordedAddsNothing(book: Book, ps: seq<Packed>)
    requires Ordered(book) && ChainsAscend(ps) && AllRecorded(book, ps)
    ensures Total(ImportAll(book, ps)) == Total(book) && Grown(book, ImportAll(book, ps))
  {
    if ps != [] {
      hide Recorded, HasSlot, Import, Ordered, Total;
      var n := |ps| - 1;
      RecordedAddsNothing(book, ps[..n]);
      ImportKeepsOrder(book, ps[..n]);
      var before, p := ImportAll(book, ps[..n]), ps[n];
      GrownKeepsRecorded(book, before, ps);
      OneGrows(before, p);
      if p.Account? {
        OfAscends(before, p.address);
        assert Recorded(Of(before, p.address), p.versions);
        NothingNewAdds(Of(before, p.address), p.versions);
        TotalPut(before, p.address, Import(Of(before, p.address), p.versions));
      }
    }
  }

  /** Importing the same pack again adds nothing, however often it carries an account. */
  lemma ReimportAddsNothing(book: Book, ps: seq<Packed>)
    requires Ordered(book) && ChainsAscend(ps)
    ensures Total(ImportAll(ImportAll(book, ps), ps)) == Total(ImportAll(book, ps))
  {
    hide *;
    ImportKeepsOrder(book, ps);
    ImportedIsRecorded(book, ps);
    RecordedAddsNothing(ImportAll(book, ps), ps);
  }
}
