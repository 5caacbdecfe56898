/** A lifted message means what the calls it was compiled from meant: every index
    resolves to the original address, under the original privileges (src/lift.rs). */
module LiftLaws {
  import opened Lift
  import opened LiftCompile
  import opened LiftLoads
  import opened LiftOrder
  import opened Wrappers

  // ---------------------------------------------------------------------------
  // The theorem

  /** The message's keys are the compiler's order, with no address twice. */
  lemma ResolvesToOrder(tables: Tables, o: Original, calls: seq<Call>)
    requires Landed(tables, o)
    ensures var p, used := PlanOf(o, calls), UsedIn(calls);
            && RuntimeKeys(tables, NewMessage(o, p, used)) == Some(Order(p, used))
            && FetchAll(tables, NewMessage(o, p, used).lookups, true) == Some(Sorted(p, used, LoadedW))
            && Distinct(Order(p, used))
  {
    hide Members, SignersOf, WritableOf, PlacesTo, FetchAll, SortByTable, StaticKeys, NewHeader, Sound, Distinct,
         PlacedIn, Ascending, NewLookups, DropEmpty, Landed, Mentions, FirstUses;
    HasPayer(tables, o);
    var p, used := PlanOf(o, calls), UsedIn(calls);
    PlacesAreLoads(tables, o);
    LoadedArePlaced(o, p, used);
    SortIsStable(p.places, Members(p, used, LoadedW));
    SortIsStable(p.places, Members(p, used, LoadedR));
    var ws, rs := Sorted(p, used, LoadedW), Sorted(p, used, LoadedR);
    LookupsLoad(tables, o, p.places, ws, rs, true);
    LookupsLoad(tables, o, p.places, ws, rs, false);
    FirstUsesDistinct(Mentions(calls));
    PayerPays(tables, o);
    OrderDistinct(p, used);
  }

  lemma HasPayer(tables: Tables, o: Original)
    requires Landed(tables, o)
    ensures o.message.keys != []
  {
  }

  lemma {:induction false} IndexFinds(order: seq<Key>, n: nat, k: Key)
    requires n <= |order| && n <= 256 && k in order[..n]
    ensures IndexTo(order, n)[k] < n && order[IndexTo(order, n)[k]] == k
  {
    if k != order[n - 1] {
      assert order[..n] == order[..n - 1] + [order[n - 1]];
      IndexFinds(order, n - 1, k);
    }
  }

  /** An instruction resolves, through `keys`, to a call. */
  predicate Resolves(keys: seq<Key>, ix: CompiledIx, c: Call) {
    && ix.program < |keys| && keys[ix.program] == c.program
    && |ix.accounts| == |c.accounts|
    && (forall i :: 0 <= i < |ix.accounts| ==> ix.accounts[i] < |keys| && keys[ix.accounts[i]] == c.accounts[i])
    && ix.data == c.data
  }

  lemma CallResolves(order: seq<Key>, c: Call)
    requires |order| <= 256 && Indexed(IndexTo(order, |order|), c)
    ensures Resolves(order, CompileCall(IndexTo(order, |order|), c), c)
  {
    hide IndexTo;
    var index := IndexTo(order, |order|);
    assert order[..|order|] == order;
    IndexFinds(order, |order|, c.program);
    forall i | 0 <= i < |c.accounts| ensures index[c.accounts[i]] < |order|
          && order[index[c.accounts[i]]] == c.accounts[i] {
      assert c.accounts[i] in c.accounts;
      IndexFinds(order, |order|, c.accounts[i]);
    }
  }

  /** Every compiled instruction resolves, in the runtime's key order, to the call it
      was compiled from, and no address is listed twice. */
  lemma LiftedResolves(tables: Tables, o: Original, calls: seq<Call>)
    requires Landed(tables, o) && Lower(o, calls).Ok?
    ensures var c := Lower(o, calls).value;
            && RuntimeKeys(tables, c.message).Some?
            && var keys := RuntimeKeys(tables, c.message).value;
               && Distinct(keys) && |c.instructions| == |calls|
               && forall n :: 0 <= n < |calls| ==> Resolves(keys, c.instructions[n], calls[n])
  {
    hide Landed, Order, PlanOf, NewMessage, UsedIn, IndexTo, Resolves, Distinct, RuntimeKeys, FetchAll, Indexed;
    assert o.message.keys != [];
    var p, used := PlanOf(o, calls), UsedIn(calls);
    var order := Order(p, used);
    ResolvesToOrder(tables, o, calls);
    CallsAreIndexed(p, calls);
    forall n | 0 <= n < |calls| ensures Resolves(order, CompileCall(IndexTo(order, |order|), calls[n]), calls[n]) {
      CallResolves(order, calls[n]);
    }
  }

  /** What a key of the new message may do, against what it might in the original. */
  predicate Keeps(o: Original, c: Compiled, loaded: nat, i: nat, j: nat, called: bool) {
    if called && !SignerAt(o.message, i) then
      && j < |c.message.keys|
      && !SignerAt(c.message, j)
      && !WritableAt(c.message, loaded, j)
    else
      && SignerAt(c.message, j) == SignerAt(o.message, i)
      && WritableAt(c.message, loaded, j) == WritableAt(o.message, |o.loadedW|, i)
  }

  /** An address keeps its privileges under the new header, wherever it now stands;
      a called program that does not sign is static and read-only. */
  lemma LiftedKeepsPrivileges(tables: Tables, o: Original, calls: seq<Call>, i: nat, j: nat)
    requires Landed(tables, o) && Lower(o, calls).Ok?
    requires var c := Lower(o, calls).value;
             && RuntimeKeys(tables, c.message).Some?
             && var keys := RuntimeKeys(tables, c.message).value;
                i < |AllKeys(o)| && j < |keys| && AllKeys(o)[i] == keys[j]
    ensures var c := Lower(o, calls).value;
            && FetchAll(tables, c.message.lookups, true).Some?
            && var loaded := |FetchAll(tables, c.message.lookups, true).value|;
               Keeps(o, c, loaded, i, j, AllKeys(o)[i] in Programs(calls))
  {
    var p, used := PlanOf(o, calls), UsedIn(calls);
    ResolvesToOrder(tables, o, calls);
    FirstUsesDistinct(Mentions(calls));
    HeaderIsExact(tables, o, calls, used);
    PayerPays(tables, o);
    OrderGroups(p, used, j);
    GroupTells(tables, o, calls, AllKeys(o)[i]);
    SignersAt(o, i);
    WritablesAt(o, i);
    SortedLength(p, used, LoadedW);
  }

  // ---------------------------------------------------------------------------
  // When it compiles, and what was lifted

  function Elements<T>(s: seq<T>): set<T> { set x <- s }

  lemma {:induction false} DistinctSize<T>(s: seq<T>)
    requires Distinct(s)
    ensures |Elements(s)| == |s|
  {
    if s != [] {
      var init, last := s[..|s| - 1], s[|s| - 1];
      DistinctSize(init);
      assert s == init + [last];
      assert Elements(s) == Elements(init) + {last};
    }
  }

  /** The addresses a lifted message needs: the payer's and all the calls use. */
  function Needed(o: Original, calls: seq<Call>): set<Key>
    requires o.message.keys != []
  {
    {o.message.keys[0]} + Elements(Mentions(calls))
  }

  /** Lifting fails to compile exactly when more than 256 addresses are needed. */
  lemma CompilesWhenFew(tables: Tables, o: Original, calls: seq<Call>)
    requires Landed(tables, o)
    ensures Lower(o, calls) == Err(TooManyAccounts(|Needed(o, calls)|)) <==> |Needed(o, calls)| > 256
    ensures Lower(o, calls).Ok? <==> |Needed(o, calls)| <= 256
  {
    hide Landed, SignersOf, WritableOf, PlacesOf, Members, SortByTable, Mentions, FetchAll, NewMessage, Programs,
         GroupOf, Distinct, RuntimeKeys;
    HasPayer(tables, o);
    var p, used := PlanOf(o, calls), UsedIn(calls);
    var order := Order(p, used);
    ResolvesToOrder(tables, o, calls);
    DistinctSize(order);
    forall k ensures k in order <==> k in Needed(o, calls) {
      OrderIsNeeded(tables, o, calls, k);
    }
    assert Elements(order) == Needed(o, calls);
  }

  lemma OrderIsNeeded(tables: Tables, o: Original, calls: seq<Call>, k: Key)
    requires Landed(tables, o)
    ensures k in Order(PlanOf(o, calls), UsedIn(calls)) <==> k in Needed(o, calls)
  {
    hide Landed, SignersOf, WritableOf, PlacesOf, Members, SortByTable, Mentions, FetchAll, Programs, GroupOf;
    HasPayer(tables, o);
    var p, used := PlanOf(o, calls), UsedIn(calls);
    if k in used {
      OrderHoldsUsed(p, used, k);
    }
    forall g: Group ensures forall x :: x in Members(p, used, g) ==> x in used {
      MembersOfGroup(p, used, g);
    }
    SortKeeps(p.places, Members(p, used, LoadedW));
    SortKeeps(p.places, Members(p, used, LoadedR));
  }

  /** Where a lifted call came from: an instruction that stayed, or a direct call a
      router made to another program. */
  ghost predicate ComesFrom(o: Original, wanted: Option<Key>, c: Call) {
    exists i :: 0 <= i < |o.top| && ComesFromTop(o, wanted, c, i)
  }

  ghost predicate ComesFromTop(o: Original, wanted: Option<Key>, c: Call, i: nat)
    requires i < |o.top|
  {
    var top := Decode(AllKeys(o), o.top[i], None);
    && top.Ok?
    && (if Routes(o, wanted, i, top.value.program) then
          c.program != top.value.program && MadeBy(o, top.value.program, o.inner[i], c)
        else c == top.value)
  }

  ghost predicate MadeBy(o: Original, router: Key, cs: seq<Child>, c: Call) {
    exists x <- cs :: (x.height.None? || x.height.value == 2) && Decode(AllKeys(o), x.ix, Some(router)) == Ok(c)
  }

  /** A router's child that is lifted: a direct call to another program. */
  predicate IsLifted(keys: seq<Key>, router: Key, child: Child) {
    && (child.height.None? || child.height.value == 2)
    && Decode(keys, child.ix, Some(router)).Ok?
    && Decode(keys, child.ix, Some(router)).value.program != router
  }

  /** Which of a router's first `n` children are lifted. */
  function LiftedChildren(keys: seq<Key>, router: Key, cs: seq<Child>, n: nat): seq<nat>
    requires n <= |cs|
  {
    if n == 0 then []
    else LiftedChildren(keys, router, cs, n - 1) + if IsLifted(keys, router, cs[n - 1]) then [n - 1] else []
  }

  /** The calls are exactly the lifted ones of the first `n` children, in order. */
  predicate Becomes(keys: seq<Key>, router: Key, cs: seq<Child>, n: nat, at: seq<nat>, calls: seq<Call>)
    requires n <= |cs|
  {
    && |at| == |calls|
    && (forall j :: 0 <= j < n ==> (j in at <==> IsLifted(keys, router, cs[j])))
    && (forall k :: 0 <= k < |at| ==> at[k] < n && Decode(keys, cs[at[k]].ix, Some(router)) == Ok(calls[k]))
    && (forall k, m :: 0 <= k < m < |at| ==> at[k] < at[m])
  }

  lemma BecomesMore(keys: seq<Key>, router: Key, cs: seq<Child>, n: nat, at: seq<nat>, calls: seq<Call>, call: Call)
    requires n < |cs| && Becomes(keys, router, cs, n, at, calls) && IsLifted(keys, router, cs[n])
    requires Decode(keys, cs[n].ix, Some(router)) == Ok(call)
    ensures Becomes(keys, router, cs, n + 1, at + [n], calls + [call])
  {
    hide Decode, IsLifted;
  }

  lemma BecomesSame(keys: seq<Key>, router: Key, cs: seq<Child>, n: nat, at: seq<nat>, calls: seq<Call>)
    requires n < |cs| && Becomes(keys, router, cs, n, at, calls) && !IsLifted(keys, router, cs[n])
    ensures Becomes(keys, router, cs, n + 1, at, calls)
  {
    hide Decode, IsLifted;
  }

  /** A router becomes exactly its lifted children, each once and in order. */
  lemma {:induction false} RouterBecomesItsCalls(keys: seq<Key>, router: Key, cs: seq<Child>, n: nat)
    requires n <= |cs| && Direct(keys, router, cs, n).Ok?
    ensures Becomes(keys, router, cs, n, LiftedChildren(keys, router, cs, n), Direct(keys, router, cs, n).value)
  {
    if n > 0 {
      hide Decode, Becomes;
      RouterBecomesItsCalls(keys, router, cs, n - 1);
      var at, calls := LiftedChildren(keys, router, cs, n - 1), Direct(keys, router, cs, n - 1).value;
      if IsLifted(keys, router, cs[n - 1]) {
        BecomesMore(keys, router, cs, n - 1, at, calls, Decode(keys, cs[n - 1].ix, Some(router)).value);
      } else {
        BecomesSame(keys, router, cs, n - 1, at, calls);
        assert at + [] == at;
      }
    }
  }

  lemma {:induction false} DirectComesFrom(o: Original, router: Key, cs: seq<Child>, n: nat)
    requires n <= |cs| && Direct(AllKeys(o), router, cs, n).Ok?
    ensures forall c <- Direct(AllKeys(o), router, cs, n).value :: c.program != router && MadeBy(o, router, cs, c)
  {
    if n > 0 {
      hide Decode;
      DirectComesFrom(o, router, cs, n - 1);
      assert cs[n - 1] in cs;
    }
  }

  /** Every lifted call comes from the original, and names only its addresses. */
  lemma {:induction false} LiftedCallsComeFrom(o: Original, wanted: Option<Key>, n: nat)
    requires n <= |o.top| && LiftTo(o, wanted, n).Ok?
    ensures forall c <- LiftTo(o, wanted, n).value.0 ::
              ComesFrom(o, wanted, c) && c.program in AllKeys(o) && forall k <- c.accounts :: k in AllKeys(o)
  {
    if n > 0 {
      hide Decode, Direct, Routes, MadeBy, LiftOne, ComesFromTop;
      LiftedCallsComeFrom(o, wanted, n - 1);
      OneComesFrom(o, wanted, n - 1);
    }
  }

  lemma OneComesFrom(o: Original, wanted: Option<Key>, i: nat)
    requires i < |o.top| && LiftOne(o, wanted, i).Ok?
    ensures forall c <- LiftOne(o, wanted, i).value.0 ::
              ComesFromTop(o, wanted, c, i) && c.program in AllKeys(o) && forall k <- c.accounts :: k in AllKeys(o)
  {
    hide Direct;
    var call := Decode(AllKeys(o), o.top[i], None).value;
    if Routes(o, wanted, i, call.program) {
      DirectComesFrom(o, call.program, o.inner[i], |o.inner[i]|);
    }
  }
}
