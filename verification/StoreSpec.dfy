/** The store as the simple thing it must agree with: a slot-ordered list of
    versions per account, and what each operation does to it (src/records.rs). */
module StoreSpec {
  import opened Bytes
  import opened Chain
  import opened Packs
  import opened RetentionLaws
  import opened StateCodec
  import opened Timeline
  import opened Wrappers

  type Book = map<Address, seq<Version>>

  function Of(book: Book, address: Address): seq<Version> {
    if address in book then book[address] else []
  }

  ghost predicate Ordered(book: Book) {
    forall a :: a in book ==> Ascending(book[a])
  }

  lemma OfAscends(book: Book, a: Address)
    requires Ordered(book)
    ensures Ascending(Of(book, a))
  {
  }

  /** Never write out of order: a version no newer than the last is refused. */
  function Append(vs: seq<Version>, v: Version): seq<Version> {
    if vs != [] && vs[|vs| - 1].slot >= v.slot then vs else vs + [v]
  }

  /** The mark a state is stored with; an absence has no balance to doubt. */
  function Mark(state: Option<AccountState>, balanceKnown: bool): bool {
    balanceKnown || state.None?
  }

  function Record(book: Book, address: Address, v: Version): Book {
    var vs := Append(Of(book, address), v);
    if vs == [] || vs == Of(book, address) then book else book[address := vs]
  }

  function ThinAll(book: Book, now: u64): Book {
    map a | a in book :: Thinned(book[a], now)
  }

  /** A chain that only adds newer versions. */
  predicate Appends(vs: seq<Version>, ws: seq<Version>) {
    vs == [] || (ws != [] && vs[|vs| - 1].slot < ws[0].slot)
  }

  /** What taking in a chain for one account leaves: newer versions are appended as
      they are, anything else is merged. */
  function Import(vs: seq<Version>, ws: seq<Version>): seq<Version> {
    if Appends(vs, ws) then vs + ws else Merge(vs, ws)
  }

  function ImportOne(book: Book, p: Packed): Book {
    if p.Account? then book[p.address := Import(Of(book, p.address), p.versions)] else book
  }

  function ImportAll(book: Book, ps: seq<Packed>): Book {
    if ps == [] then book else ImportOne(ImportAll(book, ps[..|ps| - 1]), ps[|ps| - 1])
  }

  /** The versions observed after `since`, re-based so that they stand alone. */
  function Newer(vs: seq<Version>, since: u64): seq<Version> {
    Rewrite(vs, seq(|vs|, i requires 0 <= i < |vs| => vs[i].slot > since))
  }

  // ---------------------------------------------------------------------------
  // How many versions there are

  ghost function Total(book: Book): nat {
    if book == map[] then 0
    else
      var a :| a in book;
      |book[a]| + Total(book - {a})
  }

  lemma {:induction false} TotalWithout(book: Book, a: Address)
    requires a in book
    ensures Total(book) == |book[a]| + Total(book - {a})
    decreases |book|
  {
    var b :| b in book && Total(book) == |book[b]| + Total(book - {b});
    if b != a {
      TotalWithout(book - {b}, a);
      TotalWithout(book - {a}, b);
      assert book - {b} - {a} == book - {a} - {b};
    }
  }

  lemma TotalPut(book: Book, a: Address, vs: seq<Version>)
    ensures Total(book[a := vs]) == Total(book) - |Of(book, a)| + |vs|
  {
    var put := book[a := vs];
    TotalWithout(put, a);
    assert put - {a} == book - {a};
    if a in book {
      TotalWithout(book, a);
    } else {
      assert book - {a} == book;
    }
  }

  // ---------------------------------------------------------------------------
  // Importing

  /** Both ways of taking a chain in compute the merge. */
  lemma ImportIsMerge(vs: seq<Version>, ws: seq<Version>)
    requires Ascending(vs) && Ascending(ws)
    ensures Settle(Import(vs, ws)) == Merge(vs, ws)
    ensures Ascending(Import(vs, ws))
    ensures |vs| <= |Import(vs, ws)|
  {
    MergeAscends(vs, ws);
    if Appends(vs, ws) {
      MergeOfNewer(vs, ws);
    } else {
      MergeSettled(vs, ws);
    }
  }

  /** The state recorded at exactly `slot`. */
  ghost predicate Reads(vs: seq<Version>, slot: u64, state: Option<AccountState>) {
    exists i :: 0 <= i < |vs| && vs[i].slot == slot && vs[i].state == state
  }

  lemma ReadsSettled(vs: seq<Version>, slot: u64, state: Option<AccountState>)
    ensures Reads(vs, slot, state) <==> Version(slot, state, true) in Settle(vs)
  {
    SettleMembers(vs, Version(slot, state, true));
    if Reads(vs, slot, state) {
      var i :| 0 <= i < |vs| && vs[i].slot == slot && vs[i].state == state;
      assert Version(slot, state, true) == Settled(vs[i]);
    }
    if exists i :: 0 <= i < |vs| && Version(slot, state, true) == Settled(vs[i]) {
      var i :| 0 <= i < |vs| && Version(slot, state, true) == Settled(vs[i]);
      assert vs[i].slot == slot && vs[i].state == state;
    }
  }

  /** An import is a slot-keyed union in which the version already here stands. */
  lemma ImportIsUnion(vs: seq<Version>, ws: seq<Version>, slot: u64, state: Option<AccountState>)
    requires Ascending(vs) && Ascending(ws)
    ensures Reads(Import(vs, ws), slot, state) <==>
            Reads(vs, slot, state) || (Reads(ws, slot, state) && !HasSlot(vs, slot))
  {
    hide Import, Reads;
    ImportIsMerge(vs, ws);
    ReadsSettled(Import(vs, ws), slot, state);
    ReadsSettled(vs, slot, state);
    ReadsSettled(ws, slot, state);
    MergeIsUnion(vs, ws, Version(slot, state, true));
  }

  lemma NewerReads(vs: seq<Version>, since: u64, slot: u64, state: Option<AccountState>)
    ensures Reads(Newer(vs, since), slot, state) <==> slot > since && Reads(vs, slot, state)
  {
    var keep := seq(|vs|, i requires 0 <= i < |vs| => vs[i].slot > since);
    var out := Newer(vs, since);
    var v := Version(slot, state, true);
    RewriteMembers(vs, keep, v);
    if Reads(out, slot, state) {
      var i :| 0 <= i < |out| && out[i].slot == slot && out[i].state == state;
      RewriteMembers(vs, keep, out[i]);
      var k :| 0 <= k < |vs| && keep[k] && out[i] == Settled(vs[k]);
      assert vs[k].slot == slot && vs[k].state == state;
    }
    if slot > since && Reads(vs, slot, state) {
      var k :| 0 <= k < |vs| && vs[k].slot == slot && vs[k].state == state;
      assert keep[k] && v == Settled(vs[k]);
      var i :| 0 <= i < |out| && out[i] == v;
    }
  }

  /** Importing what a store exported after `since` gives the union of what is here
      with what was recorded there after `since`. */
  lemma ExportThenImport(here: seq<Version>, there: seq<Version>, since: u64, slot: u64, state: Option<AccountState>)
    requires Ascending(here) && Ascending(there)
    ensures Reads(Import(here, Newer(there, since)), slot, state) <==>
            || Reads(here, slot, state)
            || (slot > since && Reads(there, slot, state) && !HasSlot(here, slot))
  {
    RewriteAscends(there, seq(|there|, i requires 0 <= i < |there| => there[i].slot > since));
    ImportIsUnion(here, Newer(there, since), slot, state);
    NewerReads(there, since, slot, state);
  }

  lemma SettleLength(vs: seq<Version>)
    ensures |Settle(vs)| == |vs|
  {
  }

  // ---------------------------------------------------------------------------
  // Runs

  datatype Op =
    | DoRecord(address: Address, slot: u64, state: Option<AccountState>, balanceKnown: bool)
    | DoThin(now: u64)
    | DoImport(items: seq<Packed>)

  function Apply(book: Book, op: Op): Book {
    match op
    case DoRecord(a, slot, state, known) => Record(book, a, Version(slot, state, Mark(state, known)))
    case DoThin(now) => ThinAll(book, now)
    case DoImport(items) => ImportAll(book, items)
  }

  function Run(book: Book, ops: seq<Op>): Book {
    if ops == [] then book else Apply(Run(book, ops[..|ops| - 1]), ops[|ops| - 1])
  }

  predicate ChainsAscend(ps: seq<Packed>) {
    forall i :: 0 <= i < |ps| && ps[i].Account? ==> Ascending(ps[i].versions)
  }

  predicate OpsAscend(ops: seq<Op>) {
    forall i :: 0 <= i < |ops| && ops[i].DoImport? ==> ChainsAscend(ops[i].items)
  }

  lemma {:induction false} ImportKeepsOrder(book: Book, ps: seq<Packed>)
    requires Ordered(book) && ChainsAscend(ps)
    ensures Ordered(ImportAll(book, ps))
  {
    if ps != [] {
      var n := |ps| - 1;
      ImportKeepsOrder(book, ps[..n]);
      if ps[n].Account? {
        ImportIsMerge(Of(ImportAll(book, ps[..n]), ps[n].address), ps[n].versions);
      }
    }
  }

  lemma ThinKeepsOrder(book: Book, now: u64)
    requires Ordered(book)
    ensures Ordered(ThinAll(book, now))
  {
    forall a | a in book
      ensures Ascending(Thinned(book[a], now))
    {
      ThinAscends(book[a], now);
    }
  }

  /** Over any run, every account's versions stay in strict slot order. */
  lemma {:induction false} RunKeepsOrder(book: Book, ops: seq<Op>)
    requires Ordered(book) && OpsAscend(ops)
    ensures Ordered(Run(book, ops))
  {
    if ops != [] {
      var n := |ops| - 1;
      RunKeepsOrder(book, ops[..n]);
      var before, op := Run(book, ops[..n]), ops[n];
      match op
      case DoRecord(_, _, _, _) =>
      case DoThin(now) => ThinKeepsOrder(before, now);
      case DoImport(items) => ImportKeepsOrder(before, items);
    }
  }
}
