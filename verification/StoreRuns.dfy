/** Lookups over whole runs: merging commutes with lookup, and thinning anywhere in a
    run is unseen from the dense tier on (src/records.rs). */
module StoreRuns {
  import opened Bytes
  import opened Chain
  import opened Packs
  import opened Retention
  import opened RetentionLaws
  import opened StoreSpec
  import opened Timeline
  import opened Wrappers

  // ---------------------------------------------------------------------------
  // Lookup commutes with merging

  /** The newer of two answers, the first standing when the slots are equal. */
  function Later(here: Option<Version>, there: Option<Version>): Option<Version> {
    if there.None? || (here.Some? && here.value.slot >= there.value.slot) then here else there
  }

  function SettledAnswer(r: Option<Version>): Option<Version> {
    if r.None? then None else Some(Settled(r.value))
  }

  lemma LaterIsThere(vs: seq<Version>, ws: seq<Version>, slot: u64)
    requires Ascending(vs) && Ascending(ws)
    requires Later(Lookup(vs, slot), Lookup(ws, slot)).Some?
    ensures Settled(Later(Lookup(vs, slot), Lookup(ws, slot)).value) in Merge(vs, ws)
  {
    hide Merge, Lookup, Ascending, Settle;
    var x, y := Lookup(vs, slot), Lookup(ws, slot);
    var r := Later(x, y).value;
    LookupAnswers(vs, slot);
    LookupAnswers(ws, slot);
    MergeIsUnion(vs, ws, Settled(r));
    if Later(x, y) == x {
      InSettle(vs, r);
    } else {
      InSettle(ws, r);
    }
  }

  /** Looking up in a merge is looking up on both sides and taking the newer answer,
      what is here standing on a tie. */
  lemma MergeLookup(vs: seq<Version>, ws: seq<Version>, slot: u64)
    requires Ascending(vs) && Ascending(ws)
    ensures Lookup(Merge(vs, ws), slot) == SettledAnswer(Later(Lookup(vs, slot), Lookup(ws, slot)))
  {
    hide Merge, Lookup, Ascending, Settle;
    var m, x, y := Merge(vs, ws), Lookup(vs, slot), Lookup(ws, slot);
    var r := SettledAnswer(Later(x, y));
    LookupAnswers(vs, slot);
    LookupAnswers(ws, slot);
    MergeAscends(vs, ws);
    if r.Some? {
      LaterIsThere(vs, ws, slot);
    }
    forall v | v in m && v.slot <= slot ensures r.Some? && v.slot <= r.value.slot {
      MergeIsUnion(vs, ws, v);
      if v in Settle(vs) {
        var w := FromSettle(vs, v);
      } else {
        var w := FromSettle(ws, v);
      }
    }
    AnswerIsLookup(m, slot, r);
  }

  lemma {:induction false} SettleLookup(vs: seq<Version>, slot: u64)
    ensures Lookup(Settle(vs), slot) == SettledAnswer(Lookup(vs, slot))
  {
    if vs != [] && vs[|vs| - 1].slot > slot {
      SettleLookup(vs[..|vs| - 1], slot);
      assert Settle(vs)[..|vs| - 1] == Settle(vs[..|vs| - 1]);
    }
  }

  /** So an import answers every lookup as the newer of the two sides would. */
  lemma ImportLookup(vs: seq<Version>, ws: seq<Version>, slot: u64)
    requires Ascending(vs) && Ascending(ws)
    ensures SameAnswer(Lookup(Import(vs, ws), slot), Later(Lookup(vs, slot), Lookup(ws, slot)))
  {
    hide Import, Merge, Lookup, Ascending, Settle;
    ImportIsMerge(vs, ws);
    MergeLookup(vs, ws, slot);
    SettleLookup(Import(vs, ws), slot);
  }

  // ---------------------------------------------------------------------------
  // Books that answer alike

  /** Both answer every lookup from a slot on with the same slot and state. */
  ghost predicate Alike(vs: seq<Version>, ws: seq<Version>, from: u64) {
    forall slot: u64 :: slot >= from ==> SameAnswer(Lookup(vs, slot), Lookup(ws, slot))
  }

  ghost predicate BooksAlike(b: Book, c: Book, from: u64) {
    forall a :: Alike(Of(b, a), Of(c, a), from)
  }

  lemma AppendAlike(vs: seq<Version>, ws: seq<Version>, v: Version, from: u64)
    requires Alike(vs, ws, from)
    ensures Alike(Append(vs, v), Append(ws, v), from)
  {
    hide Lookup;
    LastIsNewest(vs);
    LastIsNewest(ws);
    assert SameAnswer(Lookup(vs, U64_MAX), Lookup(ws, U64_MAX));
    forall slot: u64 | slot >= from ensures SameAnswer(Lookup(Append(vs, v), slot), Lookup(Append(ws, v), slot)) {
      LookupOfOneMore(vs, v, slot);
      LookupOfOneMore(ws, v, slot);
      assert SameAnswer(Lookup(vs, slot), Lookup(ws, slot));
    }
  }

  lemma LastIsNewest(vs: seq<Version>)
    ensures Lookup(vs, U64_MAX) == if vs == [] then None else Some(vs[|vs| - 1])
  {
  }

  lemma LookupOfOneMore(vs: seq<Version>, v: Version, slot: u64)
    ensures Lookup(vs + [v], slot) == if v.slot <= slot then Some(v) else Lookup(vs, slot)
  {
    assert (vs + [v])[..|vs|] == vs;
  }

  lemma ThinAlike(vs: seq<Version>, ws: seq<Version>, now: u64, from: u64)
    requires Ascending(vs) && Alike(vs, ws, from) && DenseFrom(now) <= from
    ensures Alike(Thinned(vs, now), ws, from)
  {
    hide Lookup, Thinned, Ascending;
    forall slot: u64 | slot >= from ensures SameAnswer(Lookup(Thinned(vs, now), slot), Lookup(ws, slot)) {
      DenseLookupsUnchanged(vs, now, slot);
      assert SameAnswer(Lookup(vs, slot), Lookup(ws, slot));
    }
  }

  lemma ImportAlike(vs: seq<Version>, ws: seq<Version>, more: seq<Version>, from: u64)
    requires Ascending(vs) && Ascending(ws) && Ascending(more) && Alike(vs, ws, from)
    ensures Alike(Import(vs, more), Import(ws, more), from)
  {
    hide Lookup, Import, Ascending;
    forall slot: u64 | slot >= from ensures SameAnswer(Lookup(Import(vs, more), slot), Lookup(Import(ws, more), slot)) {
      ImportLookup(vs, more, slot);
      ImportLookup(ws, more, slot);
      assert SameAnswer(Lookup(vs, slot), Lookup(ws, slot));
    }
  }

  lemma RecordAlike(b: Book, c: Book, a: Address, v: Version, from: u64)
    requires BooksAlike(b, c, from)
    ensures BooksAlike(Record(b, a, v), Record(c, a, v), from)
  {
    hide Alike, Append;
    AppendAlike(Of(b, a), Of(c, a), v, from);
    forall x ensures Alike(Of(Record(b, a, v), x), Of(Record(c, a, v), x), from) {
      RecordedAt(b, a, v, x);
      RecordedAt(c, a, v, x);
      assert Alike(Of(b, x), Of(c, x), from);
    }
  }

  lemma RecordedAt(b: Book, a: Address, v: Version, x: Address)
    ensures Of(Record(b, a, v), x) == if x == a then Append(Of(b, a), v) else Of(b, x)
  {
  }

  lemma ThinBooksAlike(b: Book, c: Book, now: u64, from: u64)
    requires Ordered(b) && BooksAlike(b, c, from) && DenseFrom(now) <= from
    ensures BooksAlike(ThinAll(b, now), c, from)
  {
    hide Alike, Thinned, Ascending;
    forall x ensures Alike(Of(ThinAll(b, now), x), Of(c, x), from) {
      assert Alike(Of(b, x), Of(c, x), from);
      if x in b {
        ThinAlike(b[x], Of(c, x), now, from);
      }
    }
  }

  lemma {:induction false} ImportBooksAlike(b: Book, c: Book, ps: seq<Packed>, from: u64)
    requires Ordered(b) && Ordered(c) && BooksAlike(b, c, from) && ChainsAscend(ps)
    ensures BooksAlike(ImportAll(b, ps), ImportAll(c, ps), from)
  {
    if ps != [] {
      hide Alike, Import, Ascending;
      var n := |ps| - 1;
      ImportBooksAlike(b, c, ps[..n], from);
      ImportKeepsOrder(b, ps[..n]);
      ImportKeepsOrder(c, ps[..n]);
      var b1, c1, p := ImportAll(b, ps[..n]), ImportAll(c, ps[..n]), ps[n];
      assert Alike(Of(b1, EntryAddress(p)), Of(c1, EntryAddress(p)), from);
      if p.Account? {
        OfAscends(b1, p.address);
        OfAscends(c1, p.address);
        ImportAlike(Of(b1, p.address), Of(c1, p.address), p.versions, from);
      }
      forall x ensures Alike(Of(ImportOne(b1, p), x), Of(ImportOne(c1, p), x), from) {
        assert Alike(Of(b1, x), Of(c1, x), from);
      }
    }
  }

  // ---------------------------------------------------------------------------
  // Runs

  /** The run without its thinnings. */
  function Unthinned(ops: seq<Op>): seq<Op> {
    if ops == [] then []
    else
      var n := |ops| - 1;
      if ops[n].DoThin? then Unthinned(ops[..n]) else Unthinned(ops[..n]) + [ops[n]]
  }

  /** Every thinning of the run leaves the slots from `from` on in its dense tier. */
  predicate ThinsBefore(ops: seq<Op>, from: u64) {
    forall i :: 0 <= i < |ops| && ops[i].DoThin? ==> DenseFrom(ops[i].now) <= from
  }

  lemma {:induction false} UnthinnedAscends(ops: seq<Op>)
    requires OpsAscend(ops)
    ensures OpsAscend(Unthinned(ops))
  {
    if ops != [] {
      UnthinnedAscends(ops[..|ops| - 1]);
    }
  }

  lemma AppliedNext(book: Book, ops: seq<Op>, op: Op)
    ensures Run(book, ops + [op]) == Apply(Run(book, ops), op)
  {
    assert (ops + [op])[..|ops|] == ops;
  }

  /** Over any run of records, imports and thinnings, thinning is unseen from the dense
      tier on: every lookup answers as if nothing had ever been thinned. */
  lemma {:induction false} ThinningIsUnseen(book: Book, ops: seq<Op>, from: u64)
    requires Ordered(book) && OpsAscend(ops) && ThinsBefore(ops, from)
    ensures BooksAlike(Run(book, ops), Run(book, Unthinned(ops)), from)
  {
    hide BooksAlike, Ordered, ChainsAscend, Record, ThinAll, ImportAll;
    if ops == [] {
      SameBook(book, from);
    } else {
      var n := |ops| - 1;
      var before, op := ops[..n], ops[n];
      ThinningIsUnseen(book, before, from);
      RunKeepsOrder(book, before);
      UnthinnedAscends(before);
      RunKeepsOrder(book, Unthinned(before));
      var b, c := Run(book, before), Run(book, Unthinned(before));
      if !op.DoThin? {
        AppliedNext(book, Unthinned(before), op);
      }
      match op
      case DoRecord(a, slot, state, known) => RecordAlike(b, c, a, Version(slot, state, Mark(state, known)), from);
      case DoThin(now) => ThinBooksAlike(b, c, now, from);
      case DoImport(items) => ImportBooksAlike(b, c, items, from);
    }
  }

  lemma SameBook(book: Book, from: u64)
    ensures BooksAlike(book, book, from)
  {
  }
}
