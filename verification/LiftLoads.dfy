/** The lifted message's lookups load the addresses the compiler sorted, and dropping
    unused tables changes nothing (src/lift.rs). */
module LiftLoads {
  import opened Bytes
  import opened Lift
  import opened LiftCompile
  import opened Wrappers

  // ---------------------------------------------------------------------------
  // Where the original's loaded addresses lie

  /** `table` holds `k` at `idx`. */
  predicate HoldsAt(tables: Tables, table: Key, idx: byte, k: Key) {
    table in tables && idx < |tables[table]| && tables[table][idx] == k
  }

  lemma {:induction false} FetchReads(tables: Tables, table: Key, idxs: seq<byte>, i: nat)
    requires Fetch(tables, table, idxs).Some? && i < |idxs|
    ensures |Fetch(tables, table, idxs).value| == |idxs|
    ensures HoldsAt(tables, table, idxs[i], Fetch(tables, table, idxs).value[i])
  {
    var n := |idxs| - 1;
    if n == 0 {
      assert idxs[..0] == [];
    } else {
      FetchReads(tables, table, idxs[..n], if i < n then i else 0);
    }
  }

  lemma FetchLength(tables: Tables, table: Key, idxs: seq<byte>)
    requires Fetch(tables, table, idxs).Some?
    ensures |Fetch(tables, table, idxs).value| == |idxs|
  {
    if idxs != [] {
      FetchReads(tables, table, idxs, 0);
    }
  }

  lemma {:induction false} TakenPrefix(ls: seq<Lookup>, w: bool, n: nat, t: nat)
    requires t <= n <= |ls|
    ensures Taken(ls[..n], w, t) == Taken(ls, w, t)
  {
    if t > 0 {
      TakenPrefix(ls, w, n, t - 1);
    }
  }

  lemma {:induction false} FetchAllLength(tables: Tables, ls: seq<Lookup>, w: bool)
    requires FetchAll(tables, ls, w).Some?
    ensures |FetchAll(tables, ls, w).value| == Taken(ls, w, |ls|)
  {
    if ls != [] {
      var n := |ls| - 1;
      FetchAllLength(tables, ls[..n], w);
      FetchLength(tables, ls[n].table, Half(ls[n], w));
      TakenPrefix(ls, w, n, n);
    }
  }

  /** Index `i` of lookup `t` is where its address was loaded from. */
  lemma {:induction false} FetchAllReads(tables: Tables, ls: seq<Lookup>, w: bool, t: nat, i: nat)
    requires FetchAll(tables, ls, w).Some? && t < |ls| && i < |Half(ls[t], w)|
    ensures Taken(ls, w, t) + i < |FetchAll(tables, ls, w).value|
    ensures HoldsAt(tables, ls[t].table, Half(ls[t], w)[i], FetchAll(tables, ls, w).value[Taken(ls, w, t) + i])
  {
    hide Fetch, HoldsAt;
    var n := |ls| - 1;
    FetchAllLength(tables, ls[..n], w);
    TakenPrefix(ls, w, n, t);
    if t < n {
      FetchAllReads(tables, ls[..n], w, t, i);
    } else {
      FetchReads(tables, ls[n].table, Half(ls[n], w), i);
    }
  }

  /** Every place recorded is where its table holds that address, under the
      privilege it was loaded with. */
  predicate Sound(tables: Tables, o: Original, places: Places) {
    forall k <- places :: SoundPlace(tables, o, k, places[k])
  }

  predicate SoundPlace(tables: Tables, o: Original, k: Key, p: Place) {
    && p.table < |o.message.lookups|
    && HoldsAt(tables, o.message.lookups[p.table].table, p.idx, k)
    && (if p.writable then k in o.loadedW else k in o.loadedR)
  }

  function Among(ks: seq<Key>): set<Key> { set k <- ks }

  lemma NothingAmong()
    ensures Among([]) == {}
  {
  }

  lemma OneMoreAmong(ks: seq<Key>, at: nat, n: nat)
    requires n > 0 && at + n <= |ks|
    ensures Among(ks[at..at + n]) == Among(ks[at..at + (n - 1)]) + {ks[at + n - 1]}
  {
    assert ks[at..at + n] == ks[at..at + (n - 1)] + [ks[at + n - 1]];
  }

  lemma AmongPrefix(ks: seq<Key>, i: nat, j: nat)
    requires i <= j <= |ks|
    ensures Among(ks[..j]) == Among(ks[..i]) + Among(ks[i..j])
  {
    assert ks[..j] == ks[..i] + ks[i..j];
  }

  lemma {:induction false} SomeSound(tables: Tables, o: Original, places: Places, w: bool, t: nat, n: nat)
    requires Landed(tables, o) && t < |o.message.lookups| && n <= |Half(o.message.lookups[t], w)|
    requires Sound(tables, o, places)
    ensures var names := if w then o.loadedW else o.loadedR;
            var at := Taken(o.message.lookups, w, t);
            && at + n <= |names|
            && var after := PlaceSome(places, names, Half(o.message.lookups[t], w), at, t, w, n);
               Sound(tables, o, after) && after.Keys == places.Keys + Among(names[at..at + n])
  {
    hide FetchAll, Distinct, Among, Taken, HeaderFits, PlaceSome, Sound;
    var ls := o.message.lookups;
    var names, at := if w then o.loadedW else o.loadedR, Taken(ls, w, t);
    NothingAmong();
    TakenWithin(tables, ls, w, t);
    if n > 0 {
      SomeSound(tables, o, places, w, t, n - 1);
      FetchAllReads(tables, ls, w, t, n - 1);
      OneMoreAmong(names, at, n);
      PlacedOne(places, names, Half(ls[t], w), at, t, w, n);
      var before := PlaceSome(places, names, Half(ls[t], w), at, t, w, n - 1);
      SoundNext(tables, o, before, names[at + n - 1], Place(t, Half(ls[t], w)[n - 1], w));
    } else {
      assert names[at..at] == [];
      PlacedNone(places, names, Half(ls[t], w), at, t, w);
    }
  }

  lemma PlacedOne(places: Places, names: seq<Key>, idxs: seq<byte>, at: nat, t: nat, w: bool, n: nat)
    requires 0 < n <= |idxs| && at + n <= |names|
    ensures PlaceSome(places, names, idxs, at, t, w, n)
         == PlaceSome(places, names, idxs, at, t, w, n - 1)[names[at + n - 1] := Place(t, idxs[n - 1], w)]
  {
  }

  lemma PlacedNone(places: Places, names: seq<Key>, idxs: seq<byte>, at: nat, t: nat, w: bool)
    ensures PlaceSome(places, names, idxs, at, t, w, 0) == places
  {
  }

  lemma SoundNext(tables: Tables, o: Original, places: Places, k: Key, p: Place)
    requires Sound(tables, o, places) && SoundPlace(tables, o, k, p)
    ensures Sound(tables, o, places[k := p])
  {
  }

  lemma {:induction false} TakenGrows(ls: seq<Lookup>, w: bool, t: nat, n: nat)
    requires t <= n <= |ls|
    ensures Taken(ls, w, t) <= Taken(ls, w, n)
  {
    if t < n {
      TakenGrows(ls, w, t, n - 1);
    }
  }

  lemma TakenWithin(tables: Tables, ls: seq<Lookup>, w: bool, t: nat)
    requires FetchAll(tables, ls, w).Some? && t <= |ls|
    ensures Taken(ls, w, t) <= |FetchAll(tables, ls, w).value|
  {
    FetchAllLength(tables, ls, w);
    TakenGrows(ls, w, t, |ls|);
  }

  lemma {:induction false} PlacesSound(tables: Tables, o: Original, t: nat)
    requires Landed(tables, o) && t <= |o.message.lookups|
    ensures Taken(o.message.lookups, true, t) <= |o.loadedW| && Taken(o.message.lookups, false, t) <= |o.loadedR|
    ensures Sound(tables, o, PlacesTo(o, t))
    ensures PlacesTo(o, t).Keys == Among(o.loadedW[..Taken(o.message.lookups, true, t)])
                                   + Among(o.loadedR[..Taken(o.message.lookups, false, t)])
  {
    hide Landed, PlaceSome, Sound, FetchAll, Among;
    LandedLoads(tables, o);
    TakenWithin(tables, o.message.lookups, true, t);
    TakenWithin(tables, o.message.lookups, false, t);
    if t == 0 {
      NothingPlaced(tables, o);
    } else {
      PlacesSound(tables, o, t - 1);
      var ls := o.message.lookups;
      var l := ls[t - 1];
      var was, w, r := PlacesTo(o, t - 1), Taken(ls, true, t - 1), Taken(ls, false, t - 1);
      var half := PlaceSome(was, o.loadedW, l.writable, w, t - 1, true, |l.writable|);
      SomeSound(tables, o, was, true, t - 1, |l.writable|);
      SomeSound(tables, o, half, false, t - 1, |l.readonly|);
      AmongPrefix(o.loadedW, w, w + |l.writable|);
      AmongPrefix(o.loadedR, r, r + |l.readonly|);
    }
  }

  lemma LandedLoads(tables: Tables, o: Original)
    requires Landed(tables, o)
    ensures FetchAll(tables, o.message.lookups, true) == Some(o.loadedW)
    ensures FetchAll(tables, o.message.lookups, false) == Some(o.loadedR)
  {
  }

  lemma NothingPlaced(tables: Tables, o: Original)
    ensures Among([]) == {}
    ensures PlacesTo(o, 0) == map[] && Sound(tables, o, map[])
    ensures Taken(o.message.lookups, true, 0) == 0 && Taken(o.message.lookups, false, 0) == 0
  {
  }

  /** Exactly the loaded addresses have places, and each the one its table holds it at. */
  lemma PlacesAreLoads(tables: Tables, o: Original)
    requires Landed(tables, o)
    ensures Sound(tables, o, PlacesOf(o))
    ensures forall k :: k in PlacesOf(o) <==> k in o.loadedW || k in o.loadedR
  {
    hide Landed, Sound, PlacesTo, FetchAll, Taken;
    var n := |o.message.lookups|;
    LandedLoads(tables, o);
    PlacesSound(tables, o, n);
    FetchAllLength(tables, o.message.lookups, true);
    FetchAllLength(tables, o.message.lookups, false);
    assert o.loadedW[..|o.loadedW|] == o.loadedW && o.loadedR[..|o.loadedR|] == o.loadedR;
  }

  // ---------------------------------------------------------------------------
  // Sorting by table

  /** The keys that came from one table, in order. */
  function OfTable(places: Places, ks: seq<Key>, t: nat): seq<Key> {
    if ks == [] then []
    else
      var n := |ks| - 1;
      var init := OfTable(places, ks[..n], t);
      if TableOf(places, ks[n]) == t then init + [ks[n]] else init
  }

  lemma OfTableNext(places: Places, ks: seq<Key>, k: Key, t: nat)
    ensures OfTable(places, ks + [k], t)
         == if TableOf(places, k) == t then OfTable(places, ks, t) + [k] else OfTable(places, ks, t)
  {
    assert (ks + [k])[..|ks|] == ks;
  }

  predicate Ascending(places: Places, ks: seq<Key>) {
    forall i, j :: 0 <= i < j < |ks| ==> TableOf(places, ks[i]) <= TableOf(places, ks[j])
  }

  lemma {:induction false} InsertAscends(places: Places, ks: seq<Key>, k: Key)
    requires Ascending(places, ks)
    ensures Ascending(places, Insert(places, ks, k))
    ensures forall x :: x in Insert(places, ks, k) <==> x in ks || x == k
  {
    if ks != [] && TableOf(places, ks[|ks| - 1]) > TableOf(places, k) {
      var init := ks[..|ks| - 1];
      InsertAscends(places, init, k);
      assert ks == init + [ks[|ks| - 1]];
      var r := Insert(places, init, k);
      forall i | 0 <= i < |r| ensures TableOf(places, r[i]) <= TableOf(places, ks[|ks| - 1]) {
        assert r[i] in r;
      }
    }
  }

  lemma {:induction false} InsertIsStable(places: Places, ks: seq<Key>, k: Key, t: nat)
    ensures OfTable(places, Insert(places, ks, k), t) == OfTable(places, ks + [k], t)
  {
    OfTableNext(places, ks, k, t);
    if ks != [] && TableOf(places, ks[|ks| - 1]) > TableOf(places, k) {
      var init, last := ks[..|ks| - 1], ks[|ks| - 1];
      InsertIsStable(places, init, k, t);
      OfTableNext(places, Insert(places, init, k), last, t);
      OfTableNext(places, init, k, t);
      assert ks == init + [last];
      OfTableNext(places, init, last, t);
    }
  }

  /** The sort ascends by table and keeps each table's keys in order. */
  lemma {:induction false} SortIsStable(places: Places, ks: seq<Key>)
    ensures Ascending(places, SortByTable(places, ks))
    ensures forall t: nat :: OfTable(places, SortByTable(places, ks), t) == OfTable(places, ks, t)
  {
    if ks != [] {
      var init, last := ks[..|ks| - 1], ks[|ks| - 1];
      SortIsStable(places, init);
      InsertAscends(places, SortByTable(places, init), last);
      assert ks == init + [last];
      forall t: nat ensures OfTable(places, SortByTable(places, ks), t) == OfTable(places, ks, t) {
        InsertIsStable(places, SortByTable(places, init), last, t);
        OfTableNext(places, SortByTable(places, init), last, t);
        OfTableNext(places, init, last, t);
      }
    }
  }

  /** The first `n` tables' keys, table by table. */
  function Joined(places: Places, ks: seq<Key>, n: nat): seq<Key> {
    if n == 0 then [] else Joined(places, ks, n - 1) + OfTable(places, ks, n - 1)
  }

  lemma {:induction false} NoneAbove(places: Places, ks: seq<Key>, t: nat)
    requires forall k <- ks :: TableOf(places, k) < t
    ensures OfTable(places, ks, t) == []
  {
    if ks != [] {
      NoneAbove(places, ks[..|ks| - 1], t);
    }
  }

  lemma JoinedNext(places: Places, ks: seq<Key>, n: nat)
    requires n > 0
    ensures Joined(places, ks, n) == Joined(places, ks, n - 1) + OfTable(places, ks, n - 1)
  {
  }

  lemma {:induction false} JoinedLast(places: Places, ks: seq<Key>, k: Key, n: nat)
    requires forall x <- ks :: TableOf(places, x) <= TableOf(places, k)
    ensures Joined(places, ks + [k], n)
         == if n <= TableOf(places, k) then Joined(places, ks, n) else Joined(places, ks, n) + [k]
  {
    if n > 0 {
      hide Joined, OfTable, TableOf;
      JoinedLast(places, ks, k, n - 1);
      JoinedNext(places, ks, n);
      JoinedNext(places, ks + [k], n);
      OfTableNext(places, ks, k, n - 1);
      var before, here := Joined(places, ks, n - 1), OfTable(places, ks, n - 1);
      if TableOf(places, k) == n - 1 {
        Regroup(before, here, k);
      } else if TableOf(places, k) < n - 1 {
        NoneAbove(places, ks, n - 1);
        NothingMore(before);
        NothingMore(before + [k]);
      }
    }
  }

  lemma Regroup(before: seq<Key>, here: seq<Key>, k: Key)
    ensures before + (here + [k]) == before + here + [k]
  {
  }

  lemma NothingMore(ks: seq<Key>)
    ensures ks + [] == ks
  {
  }

  /** Taking an ascending list table by table gives it back. */
  lemma {:induction false} JoinedIsWhole(places: Places, ks: seq<Key>, n: nat)
    requires Ascending(places, ks) && forall k <- ks :: TableOf(places, k) < n
    ensures Joined(places, ks, n) == ks
  {
    if ks == [] {
      JoinedEmpty(places, n);
    } else {
      hide Joined;
      var init, last := ks[..|ks| - 1], ks[|ks| - 1];
      JoinedIsWhole(places, init, n);
      JoinedLast(places, init, last, n);
      assert ks == init + [last];
    }
  }

  lemma {:induction false} JoinedEmpty(places: Places, n: nat)
    ensures Joined(places, [], n) == []
  {
    if n > 0 {
      JoinedEmpty(places, n - 1);
    }
  }

  // ---------------------------------------------------------------------------
  // The new lookups

  lemma {:induction false} FetchOfTable(tables: Tables, o: Original, places: Places, ks: seq<Key>, t: nat)
    requires Sound(tables, o, places) && (forall k <- ks :: k in places) && t < |o.message.lookups|
    ensures Fetch(tables, o.message.lookups[t].table, IdxOf(places, ks, t)) == Some(OfTable(places, ks, t))
  {
    if ks == [] {
      NothingFetched(tables, o.message.lookups[t].table);
    } else {
      hide Fetch, IdxOf, OfTable, Sound, HoldsAt;
      var init, k := ks[..|ks| - 1], ks[|ks| - 1];
      assert ks == init + [k];
      FetchOfTable(tables, o, places, init, t);
      IdxOfNext(places, init, k, t);
      OfTableNext(places, init, k, t);
      SoundAt(tables, o, places, k);
      if places[k].table == t {
        FetchNext(tables, o.message.lookups[t].table, IdxOf(places, init, t), places[k].idx, k);
      }
    }
  }

  lemma SoundAt(tables: Tables, o: Original, places: Places, k: Key)
    requires Sound(tables, o, places) && k in places
    ensures SoundPlace(tables, o, k, places[k])
  {
  }

  lemma IdxOfNext(places: Places, ks: seq<Key>, k: Key, t: nat)
    requires k in places
    ensures IdxOf(places, ks + [k], t)
         == if places[k].table == t then IdxOf(places, ks, t) + [places[k].idx] else IdxOf(places, ks, t)
  {
    assert (ks + [k])[..|ks|] == ks;
  }

  lemma FetchNext(tables: Tables, table: Key, idxs: seq<byte>, idx: byte, k: Key)
    requires Fetch(tables, table, idxs).Some? && HoldsAt(tables, table, idx, k)
    ensures Fetch(tables, table, idxs + [idx]) == Some(Fetch(tables, table, idxs).value + [k])
  {
    assert (idxs + [idx])[..|idxs|] == idxs;
  }

  lemma {:induction false} FetchJoined(tables: Tables, o: Original, places: Places, ws: seq<Key>, rs: seq<Key>,
                                       w: bool, n: nat)
    requires Sound(tables, o, places) && (forall k <- ws :: k in places) && (forall k <- rs :: k in places)
    requires n <= |o.message.lookups|
    ensures FetchAll(tables, NewLookups(places, o.message.lookups, ws, rs)[..n], w)
         == Some(Joined(places, if w then ws else rs, n))
  {
    if n > 0 {
      hide Sound, Fetch, IdxOf, OfTable;
      FetchJoined(tables, o, places, ws, rs, w, n - 1);
      FetchOfTable(tables, o, places, if w then ws else rs, n - 1);
      var ls := NewLookups(places, o.message.lookups, ws, rs);
      assert ls[..n][..n - 1] == ls[..n - 1];
    }
  }

  /** Dropping the tables nothing is taken from shifts no loaded address. */
  lemma {:induction false} DroppingShiftsNothing(tables: Tables, ls: seq<Lookup>, w: bool)
    ensures FetchAll(tables, DropEmpty(ls), w) == FetchAll(tables, ls, w)
  {
    if ls != [] {
      hide FetchAll, Fetch, DropEmpty;
      var init, last := ls[..|ls| - 1], ls[|ls| - 1];
      assert ls == init + [last];
      DroppingShiftsNothing(tables, init, w);
      FetchAllNext(tables, init, last, w);
      if last.writable == [] && last.readonly == [] {
        NothingFetched(tables, last.table);
        DropsLast(init, last);
        if FetchAll(tables, init, w).Some? {
          NothingMore(FetchAll(tables, init, w).value);
        }
      } else {
        DropsLast(init, last);
        FetchAllNext(tables, DropEmpty(init), last, w);
      }
    }
  }

  lemma FetchAllNext(tables: Tables, ls: seq<Lookup>, l: Lookup, w: bool)
    ensures FetchAll(tables, ls + [l], w)
         == var init :- FetchAll(tables, ls, w);
            var last :- Fetch(tables, l.table, Half(l, w));
            Some(init + last)
  {
    assert (ls + [l])[..|ls|] == ls;
  }

  lemma DropsLast(ls: seq<Lookup>, l: Lookup)
    ensures DropEmpty(ls + [l]) == if l.writable == [] && l.readonly == [] then DropEmpty(ls) else DropEmpty(ls) + [l]
  {
    assert (ls + [l])[..|ls|] == ls;
  }

  lemma NothingFetched(tables: Tables, table: Key)
    ensures Fetch(tables, table, []) == Some([])
  {
  }

  /** The lifted message's lookups load exactly the addresses sorted for them. */
  lemma LookupsLoad(tables: Tables, o: Original, places: Places, ws: seq<Key>, rs: seq<Key>, w: bool)
    requires Sound(tables, o, places)
    requires PlacedIn(places, ws, |o.message.lookups|) && PlacedIn(places, rs, |o.message.lookups|)
    requires Ascending(places, ws) && Ascending(places, rs)
    ensures FetchAll(tables, DropEmpty(NewLookups(places, o.message.lookups, ws, rs)), w) == Some(if w then ws else rs)
  {
    var n := |o.message.lookups|;
    var ls := NewLookups(places, o.message.lookups, ws, rs);
    DroppingShiftsNothing(tables, ls, w);
    FetchJoined(tables, o, places, ws, rs, w, n);
    assert ls[..n] == ls;
    JoinedIsWhole(places, if w then ws else rs, n);
  }
}
