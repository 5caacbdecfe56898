/** Lifting a landed transaction: the calls a router made become top-level
    instructions, compiled into a fresh v0 message (src/lift.rs). */
module Lift {
  import opened Bytes
  import opened Wrappers

  type Key = string

  // ---------------------------------------------------------------------------
  // Messages, and how the runtime reads them

  datatype Header = Header(signed: byte, roSigned: byte, roUnsigned: byte)

  datatype Lookup = Lookup(table: Key, writable: seq<byte>, readonly: seq<byte>)

  datatype Message = Message(header: Header, keys: seq<Key>, lookups: seq<Lookup>)

  /** The addresses each lookup table holds. */
  type Tables = map<Key, seq<Key>>

  function Fetch(tables: Tables, table: Key, idxs: seq<byte>): Option<seq<Key>> {
    if idxs == [] then Some([])
    else
      var n := |idxs| - 1;
      var init :- Fetch(tables, table, idxs[..n]);
      if table in tables && idxs[n] < |tables[table]| then Some(init + [tables[table][idxs[n]]]) else None
  }

  function Half(l: Lookup, writable: bool): seq<byte> {
    if writable then l.writable else l.readonly
  }

  /** What the lookups load, table by table. */
  function FetchAll(tables: Tables, ls: seq<Lookup>, writable: bool): Option<seq<Key>> {
    if ls == [] then Some([])
    else
      var n := |ls| - 1;
      var init :- FetchAll(tables, ls[..n], writable);
      var last :- Fetch(tables, ls[n].table, Half(ls[n], writable));
      Some(init + last)
  }

  /** The runtime's key order: static keys, then loaded writables, then loaded
      readonlies. */
  function RuntimeKeys(tables: Tables, m: Message): Option<seq<Key>> {
    var w :- FetchAll(tables, m.lookups, true);
    var r :- FetchAll(tables, m.lookups, false);
    Some(m.keys + w + r)
  }

  predicate SignerAt(m: Message, i: nat) { i < m.header.signed }

  /** Whether key `i` is writable, when `loaded` writables are loaded. */
  predicate WritableAt(m: Message, loaded: nat, i: nat) {
    if i < m.header.signed then i < m.header.signed - m.header.roSigned
    else if i < |m.keys| then i < |m.keys| - m.header.roUnsigned
    else i < |m.keys| + loaded
  }

  // ---------------------------------------------------------------------------
  // The transaction lifted

  datatype RawIx = RawIx(program: Option<nat>, accounts: seq<Option<nat>>, data: Option<seq<byte>>)

  datatype Child = Child(ix: RawIx, height: Option<nat>)

  /** The message, what its lookups loaded, and the calls each instruction made. */
  datatype Original = Original(message: Message, loadedW: seq<Key>, loadedR: seq<Key>,
                               top: seq<RawIx>, inner: map<nat, seq<Child>>)

  datatype LiftError =
    | NoAccounts
    | BadProgramIndex
    | BadData
    | NothingToLift
    | TooManyAccounts(count: nat)

  datatype Call = Call(program: Key, accounts: seq<Key>, data: seq<byte>, router: Option<Key>)

  function AllKeys(o: Original): seq<Key> { o.message.keys + o.loadedW + o.loadedR }

  /** A header whose counts its keys can bear. */
  predicate HeaderFits(m: Message) {
    && m.header.roSigned <= m.header.signed
    && m.header.signed + m.header.roUnsigned <= |m.keys|
  }

  ghost predicate Distinct<T>(s: seq<T>) {
    forall i, j :: 0 <= i < j < |s| ==> s[i] != s[j]
  }

  /** A message the runtime accepted: a writable fee payer, lookups that resolve to
      the addresses it loaded, and no address twice. */
  ghost predicate Landed(tables: Tables, o: Original) {
    && HeaderFits(o.message) && o.message.header.roSigned < o.message.header.signed
    && FetchAll(tables, o.message.lookups, true) == Some(o.loadedW)
    && FetchAll(tables, o.message.lookups, false) == Some(o.loadedR)
    && Distinct(AllKeys(o))
  }

  // ---------------------------------------------------------------------------
  // Flattening

  const HELPERS: set<Key> := {
    "ATokenGPvbdGVxr1b2hvZbsiqW5xWH25efTNsLJA8knL",
    "TokenkegQfeZyiNwAJbNbGKPFXCWuBvf9Ss623VQ5DA",
    "TokenzQdBNbLqP5VEhdkAS6EPFLC1PHnBqCXEpPxuEb",
    "11111111111111111111111111111111",
    "ComputeBudget111111111111111111111111111111",
    "MemoSq4gqABAXKb96qnH8TysNcWxMyWCqXgDLGmfcHr"
  }

  /** The keys the indexes name; an index past the end is passed over. */
  function Named(keys: seq<Key>, idxs: seq<Option<nat>>): (r: seq<Key>)
    ensures forall k <- r :: k in keys
  {
    if idxs == [] then []
    else
      var rest := Named(keys, idxs[1..]);
      if idxs[0].Some? && idxs[0].value < |keys| then [keys[idxs[0].value]] + rest else rest
  }

  function Decode(keys: seq<Key>, ix: RawIx, router: Option<Key>): (r: Result<Call, LiftError>)
    ensures r.Ok? ==> r.value.program in keys && forall k <- r.value.accounts :: k in keys
  {
    if ix.program.None? || ix.program.value >= |keys| then Err(BadProgramIndex)
    else if ix.data.None? then Err(BadData)
    else Ok(Call(keys[ix.program.value], Named(keys, ix.accounts), ix.data.value, router))
  }

  /** The direct calls to other programs among a router's first `n` inner calls. */
  function Direct(keys: seq<Key>, router: Key, cs: seq<Child>, n: nat): Result<seq<Call>, LiftError>
    requires n <= |cs|
  {
    if n == 0 then Ok([])
    else
      var before :- Direct(keys, router, cs, n - 1);
      if cs[n - 1].height.Some? && cs[n - 1].height.value != 2 then Ok(before)
      else
        var call :- Decode(keys, cs[n - 1].ix, Some(router));
        if call.program == router then Ok(before) else Ok(before + [call])
  }

  predicate Routes(o: Original, wanted: Option<Key>, i: nat, program: Key) {
    && i in o.inner && o.inner[i] != []
    && (if wanted.Some? then program == wanted.value else program !in HELPERS)
  }

  /** What instruction `i` becomes, and whether it was a router. */
  function LiftOne(o: Original, wanted: Option<Key>, i: nat): Result<(seq<Call>, bool), LiftError>
    requires i < |o.top|
  {
    var call :- Decode(AllKeys(o), o.top[i], None);
    if Routes(o, wanted, i, call.program) then
      var calls :- Direct(AllKeys(o), call.program, o.inner[i], |o.inner[i]|);
      Ok((calls, true))
    else Ok(([call], false))
  }

  /** The first `n` instructions lifted, and whether any was a router. */
  function LiftTo(o: Original, wanted: Option<Key>, n: nat): Result<(seq<Call>, bool), LiftError>
    requires n <= |o.top|
  {
    if n == 0 then Ok(([], false))
    else
      var before :- LiftTo(o, wanted, n - 1);
      var last :- LiftOne(o, wanted, n - 1);
      Ok((before.0 + last.0, before.1 || last.1))
  }

  function Lifted(o: Original, wanted: Option<Key>): Result<seq<Call>, LiftError> {
    var all :- LiftTo(o, wanted, |o.top|);
    if all.1 then Ok(all.0) else Err(NothingToLift)
  }

  lemma {:induction false} FailureStays(o: Original, wanted: Option<Key>, n: nat, m: nat)
    requires n <= m <= |o.top| && LiftTo(o, wanted, n).Err?
    ensures LiftTo(o, wanted, m) == LiftTo(o, wanted, n)
  {
    hide LiftOne;
    if n < m {
      FailureStays(o, wanted, n, m - 1);
    }
  }

  lemma {:induction false} DirectFailureStays(keys: seq<Key>, router: Key, cs: seq<Child>, n: nat, m: nat)
    requires n <= m <= |cs| && Direct(keys, router, cs, n).Err?
    ensures Direct(keys, router, cs, m) == Direct(keys, router, cs, n)
  {
    if n < m {
      DirectFailureStays(keys, router, cs, n, m - 1);
    }
  }

  method LiftRouter(keys: seq<Key>, router: Key, cs: seq<Child>) returns (r: Result<seq<Call>, LiftError>)
    ensures r == Direct(keys, router, cs, |cs|)
  {
    var calls := [];
    for n := 0 to |cs|
      invariant Direct(keys, router, cs, n) == Ok(calls)
    {
      if cs[n].height.None? || cs[n].height.value == 2 {
        var call := Decode(keys, cs[n].ix, Some(router));
        if call.Err? {
          DirectFailureStays(keys, router, cs, n + 1, |cs|);
          return Err(call.error);
        }
        if call.value.program != router {
          calls := calls + [call.value];
        }
      }
    }
    r := Ok(calls);
  }

  method Flatten(o: Original, wanted: Option<Key>) returns (r: Result<seq<Call>, LiftError>)
    ensures r == Lifted(o, wanted)
  {
    hide Decode, Direct;
    var keys, calls, routers := AllKeys(o), [], 0;
    for i := 0 to |o.top|
      invariant LiftTo(o, wanted, i) == Ok((calls, routers > 0))
    {
      var call := Decode(keys, o.top[i], None);
      if call.Err? {
        FailureStays(o, wanted, i + 1, |o.top|);
        return Err(call.error);
      }
      if Routes(o, wanted, i, call.value.program) {
        var inner := LiftRouter(keys, call.value.program, o.inner[i]);
        if inner.Err? {
          FailureStays(o, wanted, i + 1, |o.top|);
          return Err(inner.error);
        }
        calls, routers := calls + inner.value, routers + 1;
      } else {
        calls := calls + [call.value];
      }
    }
    r := if routers > 0 then Ok(calls) else Err(NothingToLift);
  }
}
