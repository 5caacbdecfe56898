/** The store over whole runs: what any sequence of calls leaves readable
    (src/records.rs). */
module StoreLaws {
  import opened Bytes
  import opened Chain
  import opened Packs
  import opened RecordStore
  import opened StateCodec
  import opened StoreSpec
  import opened Timeline
  import opened Wrappers

  // ---------------------------------------------------------------------------
  // Runs of calls

  ghost predicate OpOk(f: Foreign, op: Op) {
    match op
    case DoRecord(a, _, state, _) => Named(f, a) && StorableOrAbsent(f, state)
    case DoThin(_) => true
    case DoImport(items) => forall i :: 0 <= i < |items| ==> Importable(f, items[i])
  }

  /** Any run of records, thinnings and imports keeps the bytes, the index and the
      digests in step with the simple book of versions. */
  method Perform(store: LogStore, ops: seq<Op>)
    requires store.Valid() && forall i :: 0 <= i < |ops| ==> OpOk(store.f, ops[i])
    modifies store
    ensures store.Valid() && store.book == Run(old(store.book), ops)
  {
    hide LogStore.Valid, Apply, OpOk;
    for i := 0 to |ops|
      invariant store.Valid()
      invariant store.book == Run(old(store.book), ops[..i])
    {
      assert ops[..i + 1][..i] == ops[..i];
      PerformOne(store, ops[i]);
    }
    assert ops[..|ops|] == ops;
  }

  method PerformOne(store: LogStore, op: Op)
    requires store.Valid() && OpOk(store.f, op)
    modifies store
    ensures store.Valid() && store.book == Apply(old(store.book), op)
  {
    hide LogStore.Valid, Record, ThinAll, ImportAll;
    match op
    case DoRecord(a, slot, state, known) =>
      store.RecordWithBalance(a, slot, state, known);
    case DoThin(now) =>
      var _ := store.Thin(now);
    case DoImport(items) =>
      WholePack(store.f, items);
      var _ := store.ImportPack(EncodePack(items), items, []);
  }

  lemma WholePack(f: Foreign, items: seq<Packed>)
    ensures EncodePack(items) == EncodePack(items) + [] && Broken(f, [])
  {
  }

  /** A version recorded is read back, state, slot and balance mark, until the next
      one; nothing older and no other account changes. */
  lemma RecordThenLookup(book: Book, a: Address, v: Version, b: Address, slot: u64)
    requires Ordered(book)
    requires Of(book, a) == [] || Of(book, a)[|Of(book, a)| - 1].slot < v.slot
    ensures Lookup(Of(Record(book, a, v), b), slot)
         == if b == a && slot >= v.slot then Some(v) else Lookup(Of(book, b), slot)
  {
    if b == a {
      var vs := Of(book, a);
      assert (vs + [v])[..|vs|] == vs;
    }
  }
}
