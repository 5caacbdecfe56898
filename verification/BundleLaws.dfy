/** What the cascade keeps, in either mode: each step enters with the last write of
    every account earlier steps wrote (src/bundle.rs). */
module BundleLaws {
  import opened BundlePlay
  import opened BundleRuns
  import opened BundleSteps
  import opened Wrappers

  /** An edited run reports every step before the first edit as the unedited run does. */
  lemma ReportsBeforeTheEdit(s: Setup, muts: StepMutations, k: nat)
    requires Numbered(s) && FromZero(s, muts).Ok? && FromZero(s, []).Ok?
    requires k <= |s.steps| && NotBefore(muts, k)
    ensures |FromZero(s, muts).value.steps| == |FromZero(s, []).value.steps| == |s.steps|
    ensures FromZero(s, muts).value.steps[..k] == FromZero(s, []).value.steps[..k]
  {
    hide Continue, Summary;
    var n := |s.steps|;
    UneditedPrefix(s, muts, k);
    PrefixOfRun(s, muts, k);
    PrefixOfRun(s, [], k);
    OneReportEach(s, muts, 0, EntryOf(s), n);
    OneReportEach(s, [], 0, EntryOf(s), n);
    SummarySteps(s, Play(s, muts, n).value.1);
    SummarySteps(s, Play(s, [], n).value.1);
  }

  lemma SummarySteps(s: Setup, reports: seq<StepReport>)
    ensures Summary(s, reports).steps == reports
  {
  }

  /** A shorter run is the start of a longer one. */
  lemma PrefixOfRun(s: Setup, muts: StepMutations, k: nat)
    requires Numbered(s) && k <= |s.steps| && Play(s, muts, |s.steps|).Ok?
    ensures Play(s, muts, k).Ok? && |Play(s, muts, k).value.1| == k <= |Play(s, muts, |s.steps|).value.1|
    ensures Play(s, muts, |s.steps|).value.1[..k] == Play(s, muts, k).value.1
  {
    hide Continue;
    var n := |s.steps|;
    if Play(s, muts, k).Err? {
      FailureStays(s, muts, 0, EntryOf(s), k, n);
    }
    Resumes(s, muts, k, n);
    OneReportEach(s, muts, 0, EntryOf(s), k);
    OneReportEach(s, muts, 0, EntryOf(s), n);
  }

  // ---------------------------------------------------------------------------
  // The cascade

  /** The accounts step `j` wrote. */
  function Written(s: Setup, muts: StepMutations, j: nat): Accounts
    requires Numbered(s) && j < |s.steps| && Play(s, muts, j + 1).Ok?
  {
    var state := Play(s, muts, j).value.0;
    LoadedIn(state.ctx.loaded, s.svm(state.ctx, MutsFor(muts, j)).value.after)
  }

  lemma StepFacts(s: Setup, muts: StepMutations, k: nat)
    requires Numbered(s) && k < |s.steps| && Play(s, muts, k + 1).Ok?
    ensures Play(s, muts, k).Ok?
    ensures var state, next := Play(s, muts, k).value.0, Play(s, muts, k + 1).value.0;
            var ran := s.svm(state.ctx, MutsFor(muts, k));
            && ran.Ok?
            && next.carried == state.carried + Written(s, muts, k)
            && (k + 1 < |s.steps| ==>
                  var (ctx, pending) := Handed(s, k, state.ctx, Written(s, muts, k), next.carried);
                  && next.pending == pending
                  && next.ctx.loaded == Adopt(ctx.loaded, KeysFrom(s.steps, k + 1), ran.value.after))
    ensures Play(s, muts, k + 1).value.1
         == Play(s, muts, k).value.1
            + [ReportOf(s.steps[k], k, Play(s, muts, k).value.0,
                        s.svm(Play(s, muts, k).value.0.ctx, MutsFor(muts, k)).value)]
  {
    hide Handed, Adopt, LoadedIn, ReportOf, KeysFrom;
  }

  /** The account is loaded as these bytes, or the world has a program there. */
  predicate LoadedAs(w: World, a: Address, account: Account) {
    a in w && (w[a] == Data(account) || w[a].Program?)
  }

  predicate CarriedIn(w: World, carried: Accounts) { forall a <- carried :: LoadedAs(w, a, carried[a]) }

  lemma OverlayCarries(w: World, accounts: Accounts, named: set<Address>, after: Accounts)
    ensures CarriedIn(Adopt(Overlay(w, accounts), named, after), accounts)
  {
  }

  lemma OverlayKeeps(w: World, accounts: Accounts, carried: Accounts, named: set<Address>, after: Accounts)
    requires CarriedIn(w, carried)
    ensures CarriedIn(Adopt(Overlay(w, accounts), named, after), carried + accounts)
  {
  }

  /** Every step enters with everything earlier steps wrote, whatever the mode. */
  lemma {:induction false} CarriedIsLoaded(s: Setup, muts: StepMutations, k: nat)
    requires Numbered(s) && k < |s.steps| && Play(s, muts, k).Ok?
    ensures CarriedIn(Play(s, muts, k).value.0.ctx.loaded, Play(s, muts, k).value.0.carried)
  {
    if k > 0 {
      hide Continue, Advance, CarriedIn, Overlay, Adopt, LoadedIn, ReportOf;
      StepFacts(s, muts, k - 1);
      CarriedIsLoaded(s, muts, k - 1);
      var state, next := Play(s, muts, k - 1).value.0, Play(s, muts, k).value.0;
      var ran, post := s.svm(state.ctx, MutsFor(muts, k - 1)).value, Written(s, muts, k - 1);
      OverlayCarries(s.replays[k].loaded, next.carried, KeysFrom(s.steps, k), ran.after);
      OverlayKeeps(state.ctx.loaded, post, state.carried, KeysFrom(s.steps, k), ran.after);
    } else {
      NothingCarried(s, muts);
    }
  }

  lemma NothingCarried(s: Setup, muts: StepMutations)
    requires Numbered(s)
    ensures Play(s, muts, 0) == Ok((EntryOf(s), [])) && CarriedIn(s.world.loaded, map[])
  {
  }

  /** Step `i` ran and did not write the account. */
  predicate LeftAlone(s: Setup, muts: StepMutations, a: Address, i: nat)
    requires Numbered(s)
  {
    i < |s.steps| && Play(s, muts, i + 1).Ok? && a !in Written(s, muts, i)
  }

  /** What is carried is the last write. */
  lemma {:induction false} CarriesLastWrite(s: Setup, muts: StepMutations, k: nat, j: nat, a: Address)
    requires Numbered(s) && j < k <= |s.steps| && Play(s, muts, k).Ok?
    requires Play(s, muts, j + 1).Ok? && a in Written(s, muts, j)
    requires forall i :: j < i < k ==> LeftAlone(s, muts, a, i)
    ensures a in Play(s, muts, k).value.0.carried && Play(s, muts, k).value.0.carried[a] == Written(s, muts, j)[a]
  {
    hide Continue, Advance, Written;
    StepFacts(s, muts, k - 1);
    if j < k - 1 {
      CarriesLastWrite(s, muts, k - 1, j, a);
      assert LeftAlone(s, muts, a, k - 1);
    }
  }

  lemma {:induction false} CarriedWasWritten(s: Setup, muts: StepMutations, k: nat, a: Address)
    requires Numbered(s) && k <= |s.steps| && Play(s, muts, k).Ok? && a in Play(s, muts, k).value.0.carried
    ensures exists j :: 0 <= j < k && Play(s, muts, j + 1).Ok? && a in Written(s, muts, j)
  {
    hide Continue, Advance, Written;
    if k == 0 {
      NothingCarried(s, muts);
    } else {
      StepFacts(s, muts, k - 1);
      if a in Written(s, muts, k - 1) {
      } else {
        CarriedWasWritten(s, muts, k - 1, a);
      }
    }
  }

  /** A step enters with the last write of an account that any step before it wrote. */
  lemma EntersWithLastWrite(s: Setup, muts: StepMutations, k: nat, j: nat, a: Address)
    requires Numbered(s) && j < k < |s.steps| && Play(s, muts, k).Ok?
    requires Play(s, muts, j + 1).Ok? && a in Written(s, muts, j)
    requires forall i :: j < i < k ==> LeftAlone(s, muts, a, i)
    ensures LoadedAs(Play(s, muts, k).value.0.ctx.loaded, a, Written(s, muts, j)[a])
  {
    hide Continue, Written;
    CarriesLastWrite(s, muts, k, j, a);
    CarriedIsLoaded(s, muts, k);
  }

  /** A step's report lists a divergence exactly where the run crosses slots and the
      bytes carried in differ from the world rebuilt at the step's own slot. */
  lemma DivergedIff(s: Setup, muts: StepMutations, k: nat)
    requires Numbered(s) && k < |s.steps| && Play(s, muts, k + 1).Ok?
    ensures Play(s, muts, k).Ok? && k < |Play(s, muts, k + 1).value.1|
    ensures Play(s, muts, k + 1).value.1[k].diverged
         == if s.mode.Consecutive? then {}
            else if k == 0 then {}
            else Divergences(s.replays[k].loaded, Play(s, muts, k).value.0.carried)
  {
    hide Continue, Advance, Divergences, Adopt, Overlay, Written, KeysFrom;
    StepFacts(s, muts, k);
    OneReportEach(s, muts, 0, EntryOf(s), k);
    if k > 0 {
      StepFacts(s, muts, k - 1);
    } else {
      NothingCarried(s, muts);
    }
  }

  /** An account a step leaves behind and a later step names is loaded there. */
  lemma CreatedIsLoaded(s: Setup, muts: StepMutations, k: nat, a: Address)
    requires Numbered(s) && k + 1 < |s.steps| && Play(s, muts, k + 1).Ok?
    requires a in KeysFrom(s.steps, k + 1)
    requires Play(s, muts, k).Ok? && s.svm(Play(s, muts, k).value.0.ctx, MutsFor(muts, k)).Ok?
    requires a in s.svm(Play(s, muts, k).value.0.ctx, MutsFor(muts, k)).value.after
    ensures a in Play(s, muts, k + 1).value.0.ctx.loaded
  {
    hide Continue, Advance, Handed, Written, KeysFrom;
    StepFacts(s, muts, k);
  }
}
