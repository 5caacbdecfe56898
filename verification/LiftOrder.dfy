/** What the compiled key order is: which group each position holds, that no address is
    listed twice, and that the header counts the groups exactly (src/lift.rs). */
module LiftOrder {
  import opened Lift
  import opened LiftCompile
  import opened LiftLoads

  // ---------------------------------------------------------------------------
  // What the plan knows

  lemma SignersAt(o: Original, i: nat)
    requires Distinct(AllKeys(o)) && i < |AllKeys(o)| && HeaderFits(o.message)
    ensures AllKeys(o)[i] in SignersOf(o.message) <==> SignerAt(o.message, i)
  {
    var k := AllKeys(o)[i];
    if k in SignersOf(o.message) {
      var j :| 0 <= j < |o.message.keys| && SignerAt(o.message, j) && o.message.keys[j] == k;
      assert AllKeys(o)[j] == k;
      assert i == j;
    }
    if SignerAt(o.message, i) {
      assert o.message.keys[i] == k;
    }
  }

  lemma WritablesAt(o: Original, i: nat)
    requires Distinct(AllKeys(o)) && i < |AllKeys(o)|
    ensures AllKeys(o)[i] in WritableOf(o) <==> WritableAt(o.message, |o.loadedW|, i)
  {
    var k := AllKeys(o)[i];
    if k in WritableOf(o) {
      var j :| 0 <= j < |AllKeys(o)| && WritableAt(o.message, |o.loadedW|, j) && AllKeys(o)[j] == k;
      assert i == j;
    }
  }

  /** Loaded addresses never sign, and are writable when loaded so. */
  lemma LoadedPrivileges(tables: Tables, o: Original, k: Key)
    requires Landed(tables, o) && k in PlacesOf(o)
    ensures k !in SignersOf(o.message)
    ensures PlacesOf(o)[k].writable <==> k in WritableOf(o)
  {
    hide SignersOf, WritableOf, PlacesOf, HoldsAt, FetchAll;
    PlacesAreLoads(tables, o);
    assert SoundPlace(tables, o, k, PlacesOf(o)[k]);
    var n, w := |o.message.keys|, |o.loadedW|;
    if PlacesOf(o)[k].writable {
      var j :| 0 <= j < w && o.loadedW[j] == k;
      assert AllKeys(o)[n + j] == k;
      SignersAt(o, n + j);
      WritablesAt(o, n + j);
    } else {
      var j :| 0 <= j < |o.loadedR| && o.loadedR[j] == k;
      assert AllKeys(o)[n + w + j] == k;
      SignersAt(o, n + w + j);
      WritablesAt(o, n + w + j);
    }
  }

  /** The group an address falls in follows from its privileges alone. */
  predicate Privileged(p: Plan, k: Key, signer: bool, writable: bool) {
    && signer == (k in p.signers)
    && (k !in p.programs || k in p.signers ==> writable == (k in p.writable))
    && (k in p.programs && k !in p.signers ==> !writable)
  }

  lemma GroupTells(tables: Tables, o: Original, calls: seq<Call>, k: Key)
    requires Landed(tables, o)
    ensures var p := PlanOf(o, calls);
            Privileged(p, k, GroupOf(p, k) in {Payer, SignerW, SignerR},
                       GroupOf(p, k) in {Payer, SignerW, StaticW, LoadedW})
  {
    hide SignersOf, WritableOf, PlacesOf, Programs, FetchAll;
    var p := PlanOf(o, calls);
    if k in p.places {
      LoadedPrivileges(tables, o, k);
    }
    PayerPays(tables, o);
  }

  lemma PayerPays(tables: Tables, o: Original)
    requires Landed(tables, o)
    ensures o.message.keys[0] in SignersOf(o.message) && o.message.keys[0] in WritableOf(o)
  {
    hide FetchAll, SignersOf, WritableOf;
    assert AllKeys(o)[0] == o.message.keys[0];
    SignersAt(o, 0);
    WritablesAt(o, 0);
  }

  // ---------------------------------------------------------------------------
  // Where each group lies

  /** The seven groups in the order the message lists them. */
  datatype Layout = Layout(signed: nat, writableSigned: nat, staticW: nat, statics: nat, loadedW: nat)

  function LayoutOf(p: Plan, used: seq<Key>): Layout {
    var w := 1 + |Members(p, used, SignerW)|;
    var s := w + |Members(p, used, SignerR)|;
    var t := s + |Members(p, used, StaticW)|;
    Layout(s, w, t, t + |Members(p, used, StaticR)|, |Members(p, used, LoadedW)|)
  }

  function GroupAt(l: Layout, j: nat): Group {
    if j == 0 then Payer
    else if j < l.writableSigned then SignerW
    else if j < l.signed then SignerR
    else if j < l.staticW then StaticW
    else if j < l.statics then StaticR
    else if j < l.statics + l.loadedW then LoadedW
    else LoadedR
  }

  lemma StaticGroups(p: Plan, used: seq<Key>, j: nat)
    requires GroupOf(p, p.payer) == Payer && j < |StaticKeys(p, used)|
    ensures |StaticKeys(p, used)| == LayoutOf(p, used).statics
    ensures GroupOf(p, StaticKeys(p, used)[j]) == GroupAt(LayoutOf(p, used), j)
  {
    hide GroupOf, Members;
    var a, b := Members(p, used, SignerW), Members(p, used, SignerR);
    var c, d := Members(p, used, StaticW), Members(p, used, StaticR);
    var k := StaticKeys(p, used)[j];
    MembersOfGroup(p, used, GroupAt(LayoutOf(p, used), j));
    if j == 0 {
      assert k == p.payer;
    } else if j < 1 + |a| {
      assert k == a[j - 1];
    } else if j < 1 + |a| + |b| {
      assert k == b[j - 1 - |a|];
    } else if j < 1 + |a| + |b| + |c| {
      assert k == c[j - 1 - |a| - |b|];
    } else {
      assert k == d[j - 1 - |a| - |b| - |c|];
    }
  }

  lemma SortedLength(p: Plan, used: seq<Key>, g: Group)
    ensures |Sorted(p, used, g)| == |Members(p, used, g)|
  {
    hide SortByTable, Members;
    SortKeeps(p.places, Members(p, used, g));
    assert |multiset(Sorted(p, used, g))| == |multiset(Members(p, used, g))|;
  }

  /** The group of the key at each position is that position's group. */
  lemma OrderGroups(p: Plan, used: seq<Key>, j: nat)
    requires GroupOf(p, p.payer) == Payer && j < |Order(p, used)|
    ensures |StaticKeys(p, used)| == LayoutOf(p, used).statics
    ensures GroupOf(p, Order(p, used)[j]) == GroupAt(LayoutOf(p, used), j)
  {
    hide GroupOf, Members, StaticKeys, SortByTable;
    StaticHead(p, used);
    StaticGroups(p, used, 0);
    var s, w, r := StaticKeys(p, used), Sorted(p, used, LoadedW), Sorted(p, used, LoadedR);
    SortedLength(p, used, LoadedW);
    if j < |s| {
      StaticGroups(p, used, j);
      assert Order(p, used)[j] == s[j];
    } else {
      var g := GroupAt(LayoutOf(p, used), j);
      MembersOfGroup(p, used, g);
      SortKeeps(p.places, Members(p, used, g));
      if j < |s| + |w| {
        assert Order(p, used)[j] == w[j - |s|];
      } else {
        assert Order(p, used)[j] == r[j - |s| - |w|];
      }
    }
  }

  lemma StaticHead(p: Plan, used: seq<Key>)
    ensures |StaticKeys(p, used)| > 0 && StaticKeys(p, used)[0] == p.payer
  {
  }

  // ---------------------------------------------------------------------------
  // No address twice

  lemma DistinctNext<T>(s: seq<T>, x: T)
    requires Distinct(s) && x !in s
    ensures Distinct(s + [x])
  {
  }

  lemma DistinctJoin<T>(s: seq<T>, t: seq<T>)
    requires Distinct(s) && Distinct(t) && forall x <- t :: x !in s
    ensures Distinct(s + t)
  {
    forall i, j | 0 <= i < j < |s + t| ensures (s + t)[i] != (s + t)[j] {
      if i < |s| <= j {
        assert t[j - |s|] in t;
      }
    }
  }

  lemma {:induction false} FirstUsesDistinct(ks: seq<Key>)
    ensures Distinct(FirstUses(ks))
  {
    if ks != [] {
      var init, last := ks[..|ks| - 1], ks[|ks| - 1];
      FirstUsesDistinct(init);
      if last !in FirstUses(init) {
        DistinctNext(FirstUses(init), last);
      }
    }
  }

  lemma {:induction false} MembersDistinct(p: Plan, used: seq<Key>, g: Group)
    requires Distinct(used)
    ensures Distinct(Members(p, used, g))
  {
    if used != [] {
      hide GroupOf;
      var init, last := used[..|used| - 1], used[|used| - 1];
      MembersDistinct(p, init, g);
      MembersOfGroup(p, init, g);
      if GroupOf(p, last) == g {
        DistinctNext(Members(p, init, g), last);
      }
    }
  }

  lemma {:induction false} DistinctCounts<T>(s: seq<T>)
    requires Distinct(s)
    ensures forall x :: multiset(s)[x] <= 1
  {
    if s != [] {
      var init, last := s[..|s| - 1], s[|s| - 1];
      DistinctCounts(init);
      assert s == init + [last];
      assert last !in init;
    }
  }

  lemma CountsDistinct<T>(s: seq<T>)
    requires forall x :: multiset(s)[x] <= 1
    ensures Distinct(s)
  {
    forall i, j | 0 <= i < j < |s| ensures s[i] != s[j] {
      var a, b, c := s[..j], [s[j]], s[j + 1..];
      assert s == a + b + c;
      assert multiset(s) == multiset(a) + multiset(b) + multiset(c);
      assert multiset(s)[s[j]] >= 1 + multiset(a)[s[j]];
      assert a[i] in multiset(a);
    }
  }

  lemma SortedDistinct(p: Plan, used: seq<Key>, g: Group)
    requires Distinct(used)
    ensures Distinct(Sorted(p, used, g))
  {
    hide Members, SortByTable, Distinct;
    MembersDistinct(p, used, g);
    SortKeeps(p.places, Members(p, used, g));
    DistinctCounts(Members(p, used, g));
    CountsDistinct(Sorted(p, used, g));
  }

  lemma OrderDistinct(p: Plan, used: seq<Key>)
    requires Distinct(used) && GroupOf(p, p.payer) == Payer
    ensures Distinct(Order(p, used))
  {
    hide Members, SortByTable, Distinct, StaticKeys;
    var s, w, r := StaticKeys(p, used), Sorted(p, used, LoadedW), Sorted(p, used, LoadedR);
    StaticDistinct(p, used);
    SortedDistinct(p, used, LoadedW);
    SortedDistinct(p, used, LoadedR);
    SortKeeps(p.places, Members(p, used, LoadedW));
    SortKeeps(p.places, Members(p, used, LoadedR));
    MembersOfGroup(p, used, LoadedW);
    MembersOfGroup(p, used, LoadedR);
    forall k <- s ensures k !in w && k !in r {
      var j :| 0 <= j < |s| && s[j] == k;
      StaticGroups(p, used, j);
      StaticIsStatic(p, used, j);
    }
    DistinctJoin(s, w);
    DistinctJoin(s + w, r);
  }

  lemma StaticIsStatic(p: Plan, used: seq<Key>, j: nat)
    requires j < LayoutOf(p, used).statics
    ensures !GroupAt(LayoutOf(p, used), j).LoadedW? && !GroupAt(LayoutOf(p, used), j).LoadedR?
  {
    hide Members;
  }

  lemma StaticDistinct(p: Plan, used: seq<Key>)
    requires Distinct(used) && GroupOf(p, p.payer) == Payer
    ensures Distinct(StaticKeys(p, used))
    ensures Distinct([p.payer] + Members(p, used, SignerW) + Members(p, used, SignerR))
  {
    hide GroupOf, Members, Distinct;
    var a, b := Members(p, used, SignerW), Members(p, used, SignerR);
    var c, d := Members(p, used, StaticW), Members(p, used, StaticR);
    forall g: Group ensures Distinct(Members(p, used, g)) {
      MembersDistinct(p, used, g);
    }
    forall g: Group ensures forall k :: k in Members(p, used, g) <==> k in used && GroupOf(p, k) == g {
      MembersOfGroup(p, used, g);
    }
    JustOne(p.payer);
    DistinctJoin([p.payer], a);
    DistinctJoin([p.payer] + a, b);
    DistinctJoin([p.payer] + a + b, c);
    DistinctJoin([p.payer] + a + b + c, d);
  }

  lemma JustOne<T>(x: T)
    ensures Distinct([x])
  {
  }

  // ---------------------------------------------------------------------------
  // The header

  lemma {:induction false} CountReadOnlyIn(p: Plan, ks: seq<Key>, more: seq<Key>)
    requires forall k <- more :: k !in p.writable
    ensures ReadOnlyAmong(p, ks + more) == ReadOnlyAmong(p, ks) + |more|
  {
    if more == [] {
      assert ks + more == ks;
    } else {
      var init, last := more[..|more| - 1], more[|more| - 1];
      CountReadOnlyIn(p, ks, init);
      assert (ks + more)[..|ks + more| - 1] == ks + init;
      assert (ks + more)[|ks + more| - 1] == last;
    }
  }

  lemma {:induction false} CountWritableIn(p: Plan, ks: seq<Key>)
    requires forall k <- ks :: k in p.writable
    ensures ReadOnlyAmong(p, ks) == 0
  {
    if ks != [] {
      CountWritableIn(p, ks[..|ks| - 1]);
    }
  }

  /** Distinct signers are no more than the original's. */
  lemma {:induction false} NoMoreThan<T>(s: seq<T>, keys: seq<T>)
    requires Distinct(s) && forall x <- s :: x in keys
    ensures |s| <= |keys|
  {
    if s != [] {
      var n := |s| - 1;
      assert s[n] in s;
      var i :| 0 <= i < |keys| && keys[i] == s[n];
      var rest := keys[..i] + keys[i + 1..];
      forall x <- s[..n] ensures x in rest {
        var a :| 0 <= a < n && s[a] == x;
        assert s[a] in keys && s[a] != s[n];
        var j :| 0 <= j < |keys| && keys[j] == x;
        assert rest[if j < i then j else j - 1] == x;
      }
      NoMoreThan(s[..n], rest);
    }
  }

  lemma SignersFit(tables: Tables, o: Original, calls: seq<Call>, used: seq<Key>)
    requires Landed(tables, o) && Distinct(used)
    ensures var p := PlanOf(o, calls); LayoutOf(p, used).signed <= 255
  {
    hide Members, SignersOf, WritableOf, PlacesOf, FetchAll;
    var p := PlanOf(o, calls);
    PayerPays(tables, o);
    StaticDistinct(p, used);
    MembersOfGroup(p, used, SignerW);
    MembersOfGroup(p, used, SignerR);
    var signed := [p.payer] + Members(p, used, SignerW) + Members(p, used, SignerR);
    var keys := o.message.keys[..o.message.header.signed];
    forall k <- signed ensures k in keys {
      assert k in p.signers;
      SignerIsEarly(o.message, k);
    }
    NoMoreThan(signed, keys);
  }

  lemma SignerIsEarly(m: Message, k: Key)
    requires HeaderFits(m) && k in SignersOf(m)
    ensures k in m.keys[..m.header.signed]
  {
    var i :| 0 <= i < |m.keys| && SignerAt(m, i) && m.keys[i] == k;
    assert m.keys[..m.header.signed][i] == k;
  }

  /** No count in the new header is cut short. */
  lemma HeaderIsExact(tables: Tables, o: Original, calls: seq<Call>, used: seq<Key>)
    requires Landed(tables, o) && Distinct(used) && |Order(PlanOf(o, calls), used)| <= 256
    ensures var p, h := PlanOf(o, calls), NewHeader(PlanOf(o, calls), used);
            var l := LayoutOf(p, used);
            && h.signed == l.signed
            && h.roSigned == l.signed - l.writableSigned
            && h.roUnsigned == l.statics - l.staticW
  {
    hide Members, SignersOf, WritableOf, PlacesOf, FetchAll, SortByTable;
    var p := PlanOf(o, calls);
    var a, b := Members(p, used, SignerW), Members(p, used, SignerR);
    PayerPays(tables, o);
    SignersFit(tables, o, calls, used);
    MembersOfGroup(p, used, SignerW);
    MembersOfGroup(p, used, SignerR);
    CountWritableIn(p, [p.payer] + a);
    CountReadOnlyIn(p, [p.payer] + a, b);
  }
}
