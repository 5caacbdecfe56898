/** A bundle's steps, and what each one hands to the next (src/bundle.rs). The SVM is a
    deterministic function of the world it is given. */
module BundleSteps {
  import opened Bytes
  import opened Wrappers

  const MAX_STEPS := 16

  type Address = string

  datatype Account = Account(lamports: u64, data: seq<byte>, owner: Address, executable: bool)

  /** What an empty address is compared as. */
  const NOTHING := Account(0, [], "11111111111111111111111111111111", false)

  datatype Loaded = Data(account: Account) | Program

  type World = map<Address, Loaded>

  type Accounts = map<Address, Account>

  datatype Ctx = Ctx(tx: seq<byte>, signature: string, slot: u64, loaded: World)

  datatype Mutation = Mutation(target: Address, offset: nat, bytes: seq<byte>)

  /** Mutations by step; the first entry for a step is the one that counts. */
  type StepMutations = seq<(nat, seq<Mutation>)>

  datatype RunError = TooManySteps(count: nat) | NoSuchStep(step: nat) | BadMutation(reason: string)

  datatype Outcome = Outcome(success: bool, computeUnits: nat, error: string)

  /** The SVM's accounts with the mutations made, what running the transaction did,
      and its accounts afterwards. */
  datatype Executed = Executed(before: Accounts, outcome: Outcome, after: Accounts)

  type Svm = (Ctx, seq<Mutation>) -> Result<Executed, RunError>

  datatype Mode = Consecutive | CrossSlot

  datatype Step = Step(index: nat, signature: string, keys: seq<Address>, writes: set<Address>,
                       chainSuccess: bool, custom: bool, standsFor: Option<string>)

  datatype Diverged = Diverged(address: Address, lamportsDiffer: bool, dataDiffers: bool)

  datatype StepReport = StepReport(index: nat, signature: string, outcome: Outcome, diff: seq<Address>,
                                   matchesChain: bool, carried: seq<Address>, diverged: set<Diverged>, custom: bool)

  /** Everything a bundle is built from. */
  datatype Setup = Setup(mode: Mode, steps: seq<Step>, world: Ctx, replays: seq<Ctx>, svm: Svm)

  predicate Numbered(s: Setup) {
    |s.replays| == |s.steps| && forall i :: 0 <= i < |s.steps| ==> s.steps[i].index == i
  }

  /** The state a step begins from. */
  datatype Snapshot = Snapshot(ctx: Ctx, carried: Accounts, pending: set<Diverged>)

  function EntryOf(s: Setup): Snapshot { Snapshot(s.world, map[], {}) }

  // ---------------------------------------------------------------------------
  // What a step reports

  function MutsFor(m: StepMutations, i: nat): seq<Mutation> {
    if m == [] then [] else if m[0].0 == i then m[0].1 else MutsFor(m[1..], i)
  }

  /** The loaded data accounts, as the SVM holds them. */
  function LoadedIn(w: World, svm: Accounts): Accounts {
    map a | a in w && w[a].Data? && a in svm :: svm[a]
  }

  predicate Changed(before: Accounts, after: Accounts, a: Address) {
    && a in after
    && var b := if a in before then before[a] else NOTHING;
       b.lamports != after[a].lamports || b.data != after[a].data || b.owner != after[a].owner
  }

  function ChangedAmong(before: Accounts, after: Accounts, keys: seq<Address>): (r: seq<Address>)
    ensures forall a :: a in r <==> a in keys && Changed(before, after, a)
  {
    if keys == [] then []
    else
      var rest := ChangedAmong(before, after, keys[1..]);
      if Changed(before, after, keys[0]) then [keys[0]] + rest else rest
  }

  function CarriedAmong(carried: Accounts, keys: seq<Address>): (r: seq<Address>)
    ensures forall a :: a in r <==> a in keys && a in carried
  {
    if keys == [] then []
    else
      var rest := CarriedAmong(carried, keys[1..]);
      if keys[0] in carried then [keys[0]] + rest else rest
  }

  function ReportOf(step: Step, k: nat, state: Snapshot, ran: Executed): StepReport {
    var pre, post := LoadedIn(state.ctx.loaded, ran.before), LoadedIn(state.ctx.loaded, ran.after);
    StepReport(k, step.signature, ran.outcome, ChangedAmong(pre, post, step.keys),
               (step.custom && step.standsFor.None?) || ran.outcome.success == step.chainSuccess,
               CarriedAmong(state.carried, step.keys), state.pending, step.custom)
  }

  // ---------------------------------------------------------------------------
  // What a step hands on

  /** Accounts written over a world; a program stays a program. */
  function Overlay(w: World, accounts: Accounts): World {
    map a | a in w.Keys + accounts.Keys ::
      if a in accounts && !(a in w && w[a].Program?) then Data(accounts[a]) else w[a]
  }

  predicate Differs(x: Account, y: Account) { x.lamports != y.lamports || x.data != y.data }

  function Divergence(a: Address, carried: Account, rebuilt: Account): Diverged {
    Diverged(a, carried.lamports != rebuilt.lamports, carried.data != rebuilt.data)
  }

  /** Where the carried accounts disagree with a rebuilt world. */
  function Divergences(rebuilt: World, carried: Accounts): set<Diverged> {
    set a | a in carried && a in rebuilt && rebuilt[a].Data? && Differs(carried[a], rebuilt[a].account)
      :: Divergence(a, carried[a], rebuilt[a].account)
  }

  function Named(keys: seq<Address>): set<Address> { set a <- keys }

  /** The addresses steps `i` to `j` name. */
  function KeysBetween(steps: seq<Step>, i: nat, j: nat): set<Address>
    requires j <= |steps|
  {
    if j <= i then {} else KeysBetween(steps, i, j - 1) + Named(steps[j - 1].keys)
  }

  function KeysFrom(steps: seq<Step>, i: nat): set<Address> { KeysBetween(steps, i, |steps|) }

  /** Accounts a step created and a later one names. */
  function Adopt(w: World, named: set<Address>, after: Accounts): World {
    map a | a in w.Keys + (named * after.Keys) :: if a in w then w[a] else Data(after[a])
  }

  /** The world entering step `k + 1`, before adoption, and the divergences found. */
  function Handed(s: Setup, k: nat, ctx: Ctx, post: Accounts, carried: Accounts): (Ctx, set<Diverged>)
    requires Numbered(s) && k + 1 < |s.steps|
  {
    var next := s.replays[k + 1];
    match s.mode
    case Consecutive => (ctx.(tx := next.tx, signature := next.signature, loaded := Overlay(ctx.loaded, post)), {})
    case CrossSlot => (next.(loaded := Overlay(next.loaded, carried)), Divergences(next.loaded, carried))
  }

  /** One step: its report, and the state entering the next; past the last step the
      world stays as it was. */
  function Advance(s: Setup, k: nat, state: Snapshot, muts: seq<Mutation>): Result<(Snapshot, StepReport), RunError>
    requires Numbered(s) && k < |s.steps|
  {
    var ran :- s.svm(state.ctx, muts);
    var post := LoadedIn(state.ctx.loaded, ran.after);
    var carried := state.carried + post;
    var report := ReportOf(s.steps[k], k, state, ran);
    if k + 1 >= |s.steps| then Ok((Snapshot(state.ctx, carried, {}), report))
    else
      var (ctx, pending) := Handed(s, k, state.ctx, post, carried);
      var next := ctx.(loaded := Adopt(ctx.loaded, KeysFrom(s.steps, k + 1), ran.after));
      Ok((Snapshot(next, carried, pending), report))
  }

  // ---------------------------------------------------------------------------
  // The same, map by map, in whatever order a map is gone through

  function SetLoaded(w: World, a: Address, account: Account): World {
    if a in w && w[a].Program? then w else w[a := Data(account)]
  }

  function Only(accounts: Accounts, keys: set<Address>): Accounts
    requires keys <= accounts.Keys
  {
    map a | a in keys :: accounts[a]
  }

  lemma OnlyAll(accounts: Accounts)
    ensures Only(accounts, accounts.Keys) == accounts
  {
  }

  lemma OverlayNext(w: World, accounts: Accounts, done: set<Address>, a: Address)
    requires done <= accounts.Keys && a in accounts && a !in done
    ensures Overlay(w, Only(accounts, done + {a})) == SetLoaded(Overlay(w, Only(accounts, done)), a, accounts[a])
  {
    var x, y := Overlay(w, Only(accounts, done + {a})), SetLoaded(Overlay(w, Only(accounts, done)), a, accounts[a]);
    assert x.Keys == y.Keys;
    forall k | k in x ensures x[k] == y[k] {
    }
  }

  lemma DivergencesNext(rebuilt: World, carried: Accounts, done: set<Address>, a: Address)
    requires done <= carried.Keys && a in carried && a !in done
    ensures Divergences(rebuilt, Only(carried, done + {a}))
         == Divergences(rebuilt, Only(carried, done))
            + if a in rebuilt && rebuilt[a].Data? && Differs(carried[a], rebuilt[a].account)
              then {Divergence(a, carried[a], rebuilt[a].account)} else {}
  {
  }

  lemma OnlyNone(w: World, accounts: Accounts)
    ensures Overlay(w, Only(accounts, {})) == w && Divergences(w, Only(accounts, {})) == {}
  {
  }

  method OverlayAll(w: World, accounts: Accounts) returns (r: World)
    ensures r == Overlay(w, accounts)
  {
    hide Overlay, Only, SetLoaded, Divergences;
    r := w;
    var left := accounts.Keys;
    ghost var done: set<Address> := {};
    OnlyNone(w, accounts);
    while left != {}
      invariant done + left == accounts.Keys && done * left == {}
      invariant r == Overlay(w, Only(accounts, done))
      decreases |left|
    {
      var a :| a in left;
      OverlayNext(w, accounts, done, a);
      r := SetLoaded(r, a, accounts[a]);
      left, done := left - {a}, done + {a};
    }
    OnlyAll(accounts);
  }

  method CarryInto(rebuilt: World, carried: Accounts) returns (r: World, pending: set<Diverged>)
    ensures r == Overlay(rebuilt, carried) && pending == Divergences(rebuilt, carried)
  {
    hide Overlay, Only, SetLoaded, Divergences;
    r, pending := rebuilt, {};
    var left := carried.Keys;
    ghost var done: set<Address> := {};
    OnlyNone(rebuilt, carried);
    while left != {}
      invariant done + left == carried.Keys && done * left == {}
      invariant r == Overlay(rebuilt, Only(carried, done))
      invariant pending == Divergences(rebuilt, Only(carried, done))
      decreases |left|
    {
      var a :| a in left;
      OverlayNext(rebuilt, carried, done, a);
      DivergencesNext(rebuilt, carried, done, a);
      if a in rebuilt && rebuilt[a].Data? && Differs(carried[a], rebuilt[a].account) {
        pending := pending + {Divergence(a, carried[a], rebuilt[a].account)};
      }
      r := SetLoaded(r, a, carried[a]);
      left, done := left - {a}, done + {a};
    }
    OnlyAll(carried);
  }

  lemma AdoptNext(w: World, named: set<Address>, a: Address, after: Accounts)
    ensures Adopt(w, named + {a}, after)
         == if a !in Adopt(w, named, after) && a in after then Adopt(w, named, after)[a := Data(after[a])]
            else Adopt(w, named, after)
  {
  }

  method AdoptCreated(w: World, steps: seq<Step>, i: nat, after: Accounts) returns (r: World)
    requires i <= |steps|
    ensures r == Adopt(w, KeysFrom(steps, i), after)
  {
    r := w;
    assert Adopt(w, {}, after) == w;
    ghost var named: set<Address> := {};
    hide Adopt;
    for j := i to |steps|
      invariant named == KeysBetween(steps, i, j)
      invariant r == Adopt(w, named, after)
    {
      var keys := steps[j].keys;
      for n := 0 to |keys|
        invariant named == KeysBetween(steps, i, j) + Named(keys[..n])
        invariant r == Adopt(w, named, after)
      {
        var a := keys[n];
        AdoptNext(w, named, a, after);
        if a !in r && a in after {
          r := r[a := Data(after[a])];
        }
        named := named + {a};
      }
      assert keys[..|keys|] == keys;
    }
  }
}
