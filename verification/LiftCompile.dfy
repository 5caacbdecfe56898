/** Compiling lifted calls into a v0 message: privileges, key order, header, table
    lookups and indexes (src/lift.rs). */
module LiftCompile {
  import opened Bytes
  import opened Lift
  import opened Wrappers

  // ---------------------------------------------------------------------------
  // What the original says of each address

  /** A loaded address's table, its index there, and its privilege. */
  datatype Place = Place(table: nat, idx: byte, writable: bool)

  function SignersOf(m: Message): set<Key> {
    set i | 0 <= i < |m.keys| && SignerAt(m, i) :: m.keys[i]
  }

  function WritableOf(o: Original): set<Key> {
    set i | 0 <= i < |AllKeys(o)| && WritableAt(o.message, |o.loadedW|, i) :: AllKeys(o)[i]
  }

  method Privileges(o: Original) returns (signers: set<Key>, writable: set<Key>)
    requires HeaderFits(o.message)
    ensures signers == SignersOf(o.message)
    ensures writable == WritableOf(o)
  {
    var m := o.message;
    signers, writable := set k <- m.keys[..m.header.signed], {};
    for i := 0 to |m.keys|
      invariant writable == set j | 0 <= j < i && WritableAt(m, |o.loadedW|, j) :: AllKeys(o)[j]
    {
      var w := if i < m.header.signed then i < m.header.signed - m.header.roSigned
               else i < |m.keys| - m.header.roUnsigned;
      assert AllKeys(o)[i] == m.keys[i] && w == WritableAt(m, |o.loadedW|, i);
      if w {
        writable := writable + {m.keys[i]};
      }
    }
    writable := writable + set k <- o.loadedW;
    LoadedAreWritable(o);
  }

  lemma LoadedAreWritable(o: Original)
    requires HeaderFits(o.message)
    ensures WritableOf(o)
         == (set j | 0 <= j < |o.message.keys| && WritableAt(o.message, |o.loadedW|, j) :: AllKeys(o)[j])
            + (set k <- o.loadedW)
  {
    var n, w := |o.message.keys|, WritableOf(o);
    forall k <- o.loadedW ensures k in w {
      var i :| 0 <= i < |o.loadedW| && o.loadedW[i] == k;
      assert AllKeys(o)[n + i] == k;
    }
    forall k <- w
      ensures k in o.loadedW
           || exists j :: 0 <= j < n && WritableAt(o.message, |o.loadedW|, j) && AllKeys(o)[j] == k
    {
      var i :| 0 <= i < |AllKeys(o)| && WritableAt(o.message, |o.loadedW|, i) && AllKeys(o)[i] == k;
      if i >= n {
        assert k == o.loadedW[i - n];
      }
    }
  }

  type Places = map<Key, Place>

  /** The first `n` of a table's indexes recorded, `at` being how many names the
      lookups before it took. */
  function PlaceSome(places: Places, names: seq<Key>, idxs: seq<byte>, at: nat, table: nat, writable: bool, n: nat)
    : Places
    requires n <= |idxs|
  {
    if n == 0 then places
    else
      var before := PlaceSome(places, names, idxs, at, table, writable, n - 1);
      if at + n - 1 < |names| then before[names[at + n - 1] := Place(table, idxs[n - 1], writable)] else before
  }

  function Taken(ls: seq<Lookup>, writable: bool, t: nat): nat
    requires t <= |ls|
  {
    if t == 0 then 0 else Taken(ls, writable, t - 1) + |Half(ls[t - 1], writable)|
  }

  /** The first `t` lookups recorded. */
  function PlacesTo(o: Original, t: nat): Places
    requires t <= |o.message.lookups|
  {
    if t == 0 then map[]
    else
      var ls := o.message.lookups;
      var l := ls[t - 1];
      var half := PlaceSome(PlacesTo(o, t - 1), o.loadedW, l.writable, Taken(ls, true, t - 1), t - 1, true,
            |l.writable|);
      PlaceSome(half, o.loadedR, l.readonly, Taken(ls, false, t - 1), t - 1, false, |l.readonly|)
  }

  function PlacesOf(o: Original): Places { PlacesTo(o, |o.message.lookups|) }

  method PlaceAll(o: Original) returns (places: Places)
    ensures places == PlacesOf(o)
  {
    places := map[];
    var wi, ri, ls := 0, 0, o.message.lookups;
    for t := 0 to |ls|
      invariant places == PlacesTo(o, t)
      invariant wi == Taken(ls, true, t) && ri == Taken(ls, false, t)
    {
      var l := ls[t];
      ghost var was := places;
      for i := 0 to |l.writable|
        invariant wi == Taken(ls, true, t) + i
        invariant places == PlaceSome(was, o.loadedW, l.writable, Taken(ls, true, t), t, true, i)
      {
        if wi < |o.loadedW| {
          places := places[o.loadedW[wi] := Place(t, l.writable[i], true)];
        }
        wi := wi + 1;
      }
      ghost var half := places;
      for i := 0 to |l.readonly|
        invariant ri == Taken(ls, false, t) + i
        invariant places == PlaceSome(half, o.loadedR, l.readonly, Taken(ls, false, t), t, false, i)
      {
        if ri < |o.loadedR| {
          places := places[o.loadedR[ri] := Place(t, l.readonly[i], false)];
        }
        ri := ri + 1;
      }
    }
  }

  // ---------------------------------------------------------------------------
  // The lifted message's key order

  /** What the compiler knows: the payer, the privileges, the programs called and
      where the loaded addresses came from. */
  datatype Plan = Plan(payer: Key, signers: set<Key>, writable: set<Key>, programs: set<Key>, places: Places)

  datatype Group = Payer | SignerW | SignerR | StaticW | StaticR | LoadedW | LoadedR

  function GroupOf(p: Plan, k: Key): Group {
    if k in p.signers then (if k == p.payer then Payer else if k in p.writable then SignerW else SignerR)
    else if k in p.programs then StaticR
    else if k in p.places then (if p.places[k].writable then LoadedW else LoadedR)
    else if k in p.writable then StaticW
    else StaticR
  }

  /** The keys of one group, in the order they were first used. */
  function Members(p: Plan, used: seq<Key>, g: Group): seq<Key> {
    if used == [] then []
    else
      var n := |used| - 1;
      var init := Members(p, used[..n], g);
      if GroupOf(p, used[n]) == g then init + [used[n]] else init
  }

  function Push(ks: seq<Key>, k: Key): seq<Key> { if k in ks then ks else ks + [k] }

  /** Every address once, in the order first met. */
  function FirstUses(ks: seq<Key>): (r: seq<Key>)
    ensures forall k :: k in r <==> k in ks
  {
    if ks == [] then [] else Push(FirstUses(ks[..|ks| - 1]), ks[|ks| - 1])
  }

  /** Each call's accounts, then its program. */
  function Mentions(calls: seq<Call>): seq<Key> {
    if calls == [] then []
    else
      var last := calls[|calls| - 1];
      Mentions(calls[..|calls| - 1]) + last.accounts + [last.program]
  }

  lemma FirstUsesNext(ks: seq<Key>, k: Key)
    ensures FirstUses(ks + [k]) == Push(FirstUses(ks), k)
  {
    assert (ks + [k])[..|ks|] == ks;
  }

  lemma MentionsNext(calls: seq<Call>, n: nat)
    requires n < |calls|
    ensures Mentions(calls[..n + 1]) == Mentions(calls[..n]) + calls[n].accounts + [calls[n].program]
  {
    assert calls[..n + 1][..n] == calls[..n];
  }

  method FirstUsed(calls: seq<Call>) returns (used: seq<Key>)
    ensures used == UsedIn(calls)
  {
    hide FirstUses, Mentions;
    used := [];
    var seen: set<Key> := {};
    NothingUsed();
    assert calls[..0] == [];
    for n := 0 to |calls|
      invariant used == FirstUses(Mentions(calls[..n]))
      invariant forall k :: k in seen <==> k in used
    {
      var ks := calls[n].accounts;
      ghost var was := Mentions(calls[..n]);
      assert was + ks[..0] == was;
      for i := 0 to |ks|
        invariant used == FirstUses(was + ks[..i])
        invariant forall k :: k in seen <==> k in used
      {
        FirstUsesNext(was + ks[..i], ks[i]);
        assert was + ks[..i + 1] == was + ks[..i] + [ks[i]];
        if ks[i] !in seen {
          seen, used := seen + {ks[i]}, used + [ks[i]];
        }
      }
      assert ks[..|ks|] == ks;
      MentionsNext(calls, n);
      FirstUsesNext(was + ks, calls[n].program);
      if calls[n].program !in seen {
        seen, used := seen + {calls[n].program}, used + [calls[n].program];
      }
    }
    assert calls[..|calls|] == calls;
  }

  lemma NothingUsed()
    ensures FirstUses(Mentions([])) == []
  {
  }

  method SignerKeys(p: Plan, used: seq<Key>) returns (keys: seq<Key>)
    ensures keys == [p.payer] + Members(p, used, SignerW) + Members(p, used, SignerR)
  {
    keys := [p.payer];
    for n := 0 to |used|
      invariant keys == [p.payer] + Members(p, used[..n], SignerW)
    {
      assert used[..n + 1][..n] == used[..n];
      if used[n] in p.signers && used[n] != p.payer && used[n] in p.writable {
        keys := keys + [used[n]];
      }
    }
    assert used[..|used|] == used;
    ghost var writable := keys;
    for n := 0 to |used|
      invariant keys == writable + Members(p, used[..n], SignerR)
    {
      assert used[..n + 1][..n] == used[..n];
      if used[n] in p.signers && used[n] != p.payer && used[n] !in p.writable {
        keys := keys + [used[n]];
      }
    }
  }

  method OtherKeys(p: Plan, used: seq<Key>)
    returns (staticW: seq<Key>, staticR: seq<Key>, loadedW: seq<Key>, loadedR: seq<Key>)
    ensures staticW == Members(p, used, StaticW) && staticR == Members(p, used, StaticR)
    ensures loadedW == Members(p, used, LoadedW) && loadedR == Members(p, used, LoadedR)
  {
    staticW, staticR, loadedW, loadedR := [], [], [], [];
    for n := 0 to |used|
      invariant staticW == Members(p, used[..n], StaticW) && staticR == Members(p, used[..n], StaticR)
      invariant loadedW == Members(p, used[..n], LoadedW) && loadedR == Members(p, used[..n], LoadedR)
    {
      assert used[..n + 1][..n] == used[..n];
      var k := used[n];
      if k !in p.signers {
        if k in p.programs {
          staticR := staticR + [k];
        } else if k in p.places {
          if p.places[k].writable {
            loadedW := loadedW + [k];
          } else {
            loadedR := loadedR + [k];
          }
        } else if k in p.writable {
          staticW := staticW + [k];
        } else {
          staticR := staticR + [k];
        }
      }
    }
    assert used[..|used|] == used;
  }

  // ---------------------------------------------------------------------------
  // Table order

  function TableOf(places: Places, k: Key): nat { if k in places then places[k].table else 0 }

  function Insert(places: Places, ks: seq<Key>, k: Key): seq<Key> {
    if ks == [] || TableOf(places, ks[|ks| - 1]) <= TableOf(places, k) then ks + [k]
    else Insert(places, ks[..|ks| - 1], k) + [ks[|ks| - 1]]
  }

  /** A stable sort by table. */
  function SortByTable(places: Places, ks: seq<Key>): seq<Key> {
    if ks == [] then [] else Insert(places, SortByTable(places, ks[..|ks| - 1]), ks[|ks| - 1])
  }

  /** The indexes into one table of the addresses that came from it. */
  function IdxOf(places: Places, ks: seq<Key>, table: nat): seq<byte> {
    if ks == [] then []
    else
      var n := |ks| - 1;
      var init := IdxOf(places, ks[..n], table);
      if ks[n] in places && places[ks[n]].table == table then init + [places[ks[n]].idx] else init
  }

  function NewLookup(places: Places, l: Lookup, ws: seq<Key>, rs: seq<Key>, table: nat): Lookup {
    Lookup(l.table, IdxOf(places, ws, table), IdxOf(places, rs, table))
  }

  function NewLookups(places: Places, ls: seq<Lookup>, ws: seq<Key>, rs: seq<Key>): (r: seq<Lookup>)
    ensures |r| == |ls|
    ensures forall t :: 0 <= t < |ls| ==> r[t] == NewLookup(places, ls[t], ws, rs, t)
  {
    seq(|ls|, t requires 0 <= t < |ls| => NewLookup(places, ls[t], ws, rs, t))
  }

  function DropEmpty(ls: seq<Lookup>): seq<Lookup> {
    if ls == [] then []
    else
      var n := |ls| - 1;
      var init := DropEmpty(ls[..n]);
      if ls[n].writable == [] && ls[n].readonly == [] then init else init + [ls[n]]
  }

  predicate PlacedIn(places: Places, ks: seq<Key>, tables: nat) {
    forall k <- ks :: k in places && places[k].table < tables
  }

  method FillLookups(places: Places, ls: seq<Lookup>, ws: seq<Key>, rs: seq<Key>) returns (r: seq<Lookup>)
    requires PlacedIn(places, ws, |ls|) && PlacedIn(places, rs, |ls|)
    ensures r == DropEmpty(NewLookups(places, ls, ws, rs))
  {
    r := seq(|ls|, t requires 0 <= t < |ls| => Lookup(ls[t].table, [], []));
    for n := 0 to |ws|
      invariant |r| == |ls|
      invariant forall t :: 0 <= t < |ls| ==> r[t] == NewLookup(places, ls[t], ws[..n], [], t)
    {
      assert ws[..n + 1][..n] == ws[..n];
      var p := places[ws[n]];
      r := r[p.table := r[p.table].(writable := r[p.table].writable + [p.idx])];
    }
    assert ws[..|ws|] == ws;
    for n := 0 to |rs|
      invariant |r| == |ls|
      invariant forall t :: 0 <= t < |ls| ==> r[t] == NewLookup(places, ls[t], ws, rs[..n], t)
    {
      assert rs[..n + 1][..n] == rs[..n];
      var p := places[rs[n]];
      r := r[p.table := r[p.table].(readonly := r[p.table].readonly + [p.idx])];
    }
    assert rs[..|rs|] == rs;
    assert r == NewLookups(places, ls, ws, rs);
    r := DropEmpty(r);
  }

  // ---------------------------------------------------------------------------
  // The compiled message

  datatype CompiledIx = CompiledIx(program: byte, accounts: seq<byte>, data: seq<byte>)

  datatype Compiled = Compiled(message: Message, instructions: seq<CompiledIx>)

  /** Each address's last position, kept in one byte. */
  function IndexTo(order: seq<Key>, n: nat): (r: map<Key, byte>)
    requires n <= |order|
    ensures forall k :: k in r <==> k in order[..n]
  {
    if n == 0 then map[] else
      assert order[..n] == order[..n - 1] + [order[n - 1]];
      IndexTo(order, n - 1)[order[n - 1] := (n - 1) % 256]
  }

  predicate Indexed(index: map<Key, byte>, c: Call) {
    c.program in index && forall k <- c.accounts :: k in index
  }

  function IndexAccounts(index: map<Key, byte>, ks: seq<Key>): (r: seq<byte>)
    requires forall k <- ks :: k in index
    ensures |r| == |ks|
    ensures forall i :: 0 <= i < |ks| ==> r[i] == index[ks[i]]
  {
    seq(|ks|, i requires 0 <= i < |ks| => index[ks[i]])
  }

  function CompileCall(index: map<Key, byte>, c: Call): CompiledIx
    requires Indexed(index, c)
  {
    CompiledIx(index[c.program], IndexAccounts(index, c.accounts), c.data)
  }

  function CompileCalls(index: map<Key, byte>, calls: seq<Call>): (r: seq<CompiledIx>)
    requires forall n :: 0 <= n < |calls| ==> Indexed(index, calls[n])
    ensures |r| == |calls|
    ensures forall n :: 0 <= n < |calls| ==> r[n] == CompileCall(index, calls[n])
  {
    seq(|calls|, n requires 0 <= n < |calls| => CompileCall(index, calls[n]))
  }

  function Programs(calls: seq<Call>): set<Key> { set n | 0 <= n < |calls| :: calls[n].program }

  function PlanOf(o: Original, calls: seq<Call>): Plan
    requires o.message.keys != []
  {
    Plan(o.message.keys[0], SignersOf(o.message), WritableOf(o), Programs(calls), PlacesOf(o))
  }

  /** The static keys, by group. */
  function StaticKeys(p: Plan, used: seq<Key>): seq<Key> {
    [p.payer] + Members(p, used, SignerW) + Members(p, used, SignerR)
    + Members(p, used, StaticW) + Members(p, used, StaticR)
  }

  function Sorted(p: Plan, used: seq<Key>, g: Group): seq<Key> { SortByTable(p.places, Members(p, used, g)) }

  function Order(p: Plan, used: seq<Key>): seq<Key> {
    StaticKeys(p, used) + Sorted(p, used, LoadedW) + Sorted(p, used, LoadedR)
  }

  /** How many of the keys are not writable. */
  function ReadOnlyAmong(p: Plan, ks: seq<Key>): nat {
    if ks == [] then 0
    else ReadOnlyAmong(p, ks[..|ks| - 1]) + if ks[|ks| - 1] in p.writable then 0 else 1
  }

  function NewHeader(p: Plan, used: seq<Key>): Header {
    var signed := [p.payer] + Members(p, used, SignerW) + Members(p, used, SignerR);
    Header(|signed| % 256, ReadOnlyAmong(p, signed) % 256, |Members(p, used, StaticR)| % 256)
  }

  function NewMessage(o: Original, p: Plan, used: seq<Key>): Message {
    Message(NewHeader(p, used), StaticKeys(p, used),
            DropEmpty(NewLookups(p.places, o.message.lookups, Sorted(p, used, LoadedW), Sorted(p, used, LoadedR))))
  }

  /** Every key the calls use, once. */
  function UsedIn(calls: seq<Call>): seq<Key> { FirstUses(Mentions(calls)) }

  lemma {:induction false} CallsAreMentioned(calls: seq<Call>, n: nat)
    requires n < |calls|
    ensures calls[n].program in UsedIn(calls)
    ensures forall k <- calls[n].accounts :: k in UsedIn(calls)
  {
    if n < |calls| - 1 {
      CallsAreMentioned(calls[..|calls| - 1], n);
    }
  }

  lemma {:induction false} MembersOfGroup(p: Plan, used: seq<Key>, g: Group)
    ensures forall k :: k in Members(p, used, g) <==> k in used && GroupOf(p, k) == g
  {
    if used != [] {
      hide GroupOf;
      MembersOfGroup(p, used[..|used| - 1], g);
    }
  }

  lemma {:induction false} InsertKeeps(places: Places, ks: seq<Key>, k: Key)
    ensures multiset(Insert(places, ks, k)) == multiset(ks) + multiset{k}
  {
    if ks != [] {
      InsertKeeps(places, ks[..|ks| - 1], k);
      assert ks == ks[..|ks| - 1] + [ks[|ks| - 1]];
    }
  }

  lemma {:induction false} SortSame(places: Places, ks: seq<Key>)
    ensures multiset(SortByTable(places, ks)) == multiset(ks)
  {
    if ks != [] {
      hide Insert;
      var init, last := ks[..|ks| - 1], ks[|ks| - 1];
      SortSame(places, init);
      InsertKeeps(places, SortByTable(places, init), last);
      assert ks == init + [last];
    }
  }

  /** Sorting loses and adds nothing. */
  lemma SortKeeps(places: Places, ks: seq<Key>)
    ensures multiset(SortByTable(places, ks)) == multiset(ks)
    ensures forall k :: k in SortByTable(places, ks) <==> k in ks
  {
    hide SortByTable;
    SortSame(places, ks);
    var s := SortByTable(places, ks);
    forall k ensures k in s <==> k in ks {
      assert k in multiset(s) <==> k in multiset(ks);
    }
  }

  /** Every key a call uses has a place in the order. */
  lemma OrderHoldsUsed(p: Plan, used: seq<Key>, k: Key)
    requires k in used
    ensures k in Order(p, used)
  {
    hide GroupOf, Members, SortByTable;
    MembersOfGroup(p, used, GroupOf(p, k));
    SortKeeps(p.places, Members(p, used, LoadedW));
    SortKeeps(p.places, Members(p, used, LoadedR));
    if GroupOf(p, k).Payer? {
      PayerGroup(p, k);
    }
  }

  lemma PayerGroup(p: Plan, k: Key)
    requires GroupOf(p, k).Payer?
    ensures k == p.payer
  {
  }

  lemma CallsAreIndexed(p: Plan, calls: seq<Call>)
    ensures forall n :: 0 <= n < |calls| ==>
              Indexed(IndexTo(Order(p, UsedIn(calls)), |Order(p, UsedIn(calls))|), calls[n])
  {
    hide IndexTo, UsedIn;
    var used := UsedIn(calls);
    var order := Order(p, used);
    assert order[..|order|] == order;
    forall k | k in used ensures k in order { OrderHoldsUsed(p, used, k); }
    forall n | 0 <= n < |calls| ensures Indexed(IndexTo(order, |order|), calls[n]) {
      CallsAreMentioned(calls, n);
    }
  }

  /** The lifted message, or how many keys it would have needed. */
  function Lower(o: Original, calls: seq<Call>): Result<Compiled, LiftError> {
    if o.message.keys == [] then Err(NoAccounts)
    else
      var p := PlanOf(o, calls);
      var used := UsedIn(calls);
      var order := Order(p, used);
      if |order| > 256 then Err(TooManyAccounts(|order|))
      else
        CallsAreIndexed(p, calls);
        Ok(Compiled(NewMessage(o, p, used), CompileCalls(IndexTo(order, |order|), calls)))
  }

  method IndexKeys(order: seq<Key>) returns (index: map<Key, byte>)
    ensures index == IndexTo(order, |order|)
  {
    index := map[];
    for i := 0 to |order|
      invariant index == IndexTo(order, i)
    {
      index := index[order[i] := i % 256];
    }
  }

  method CountReadOnly(p: Plan, ks: seq<Key>) returns (n: nat)
    ensures n == ReadOnlyAmong(p, ks)
  {
    n := 0;
    for i := 0 to |ks|
      invariant n == ReadOnlyAmong(p, ks[..i])
    {
      assert ks[..i + 1][..i] == ks[..i];
      if ks[i] !in p.writable {
        n := n + 1;
      }
    }
    assert ks[..|ks|] == ks;
  }

  predicate Below(places: Places, tables: nat) { forall k <- places :: places[k].table < tables }

  lemma {:induction false} SomeBelow(places: Places, names: seq<Key>, idxs: seq<byte>, at: nat, t: nat, w: bool, n: nat)
    requires n <= |idxs| && Below(places, t + 1)
    ensures Below(PlaceSome(places, names, idxs, at, t, w, n), t + 1)
  {
    if n > 0 {
      SomeBelow(places, names, idxs, at, t, w, n - 1);
    }
  }

  lemma {:induction false} PlacesBelow(o: Original, t: nat)
    requires t <= |o.message.lookups|
    ensures Below(PlacesTo(o, t), t)
  {
    if t > 0 {
      hide PlaceSome;
      PlacesBelow(o, t - 1);
      var ls := o.message.lookups;
      var l := ls[t - 1];
      var half := PlaceSome(PlacesTo(o, t - 1), o.loadedW, l.writable, Taken(ls, true, t - 1), t - 1, true,
            |l.writable|);
      SomeBelow(PlacesTo(o, t - 1), o.loadedW, l.writable, Taken(ls, true, t - 1), t - 1, true, |l.writable|);
      SomeBelow(half, o.loadedR, l.readonly, Taken(ls, false, t - 1), t - 1, false, |l.readonly|);
    }
  }

  /** Only placed addresses are loaded. */
  lemma LoadedArePlaced(o: Original, p: Plan, used: seq<Key>)
    requires p.places == PlacesOf(o)
    ensures PlacedIn(p.places, Members(p, used, LoadedW), |o.message.lookups|)
    ensures PlacedIn(p.places, Members(p, used, LoadedR), |o.message.lookups|)
    ensures PlacedIn(p.places, Sorted(p, used, LoadedW), |o.message.lookups|)
    ensures PlacedIn(p.places, Sorted(p, used, LoadedR), |o.message.lookups|)
  {
    hide Members, SortByTable, PlacesTo;
    PlacesBelow(o, |o.message.lookups|);
    MembersOfGroup(p, used, LoadedW);
    MembersOfGroup(p, used, LoadedR);
    SortKeeps(p.places, Members(p, used, LoadedW));
    SortKeeps(p.places, Members(p, used, LoadedR));
  }

  method Compile(o: Original, calls: seq<Call>) returns (r: Result<Compiled, LiftError>)
    requires HeaderFits(o.message)
    ensures r == Lower(o, calls)
  {
    hide Members, SortByTable, PlacesOf, UsedIn, IndexTo, SignersOf, WritableOf, ReadOnlyAmong, NewLookups, DropEmpty;
    if o.message.keys == [] {
      return Err(NoAccounts);
    }
    var signers, writable := Privileges(o);
    var places := PlaceAll(o);
    var used := FirstUsed(calls);
    var p := Plan(o.message.keys[0], signers, writable, Programs(calls), places);
    var keys := SignerKeys(p, used);
    var readOnly := CountReadOnly(p, keys);
    var signed := |keys|;
    var staticW, staticR, loadedW, loadedR := OtherKeys(p, used);
    loadedW, loadedR := SortByTable(places, loadedW), SortByTable(places, loadedR);
    keys := keys + staticW + staticR;
    var order := keys + loadedW + loadedR;
    var index := IndexKeys(order);
    if |order| > 256 {
      return Err(TooManyAccounts(|order|));
    }
    LoadedArePlaced(o, p, used);
    var lookups := FillLookups(places, o.message.lookups, loadedW, loadedR);
    CallsAreIndexed(p, calls);
    var header := Header(signed % 256, readOnly % 256, |staticR| % 256);
    r := Ok(Compiled(Message(header, keys, lookups), CompileCalls(index, calls)));
  }
}
