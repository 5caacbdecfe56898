/** Running a bundle, with the unmutated run kept so that an edit at step k replays
    from k: resuming is indistinguishable from replaying from zero (src/bundle.rs). */
module BundleRuns {
  import opened BundleEdges
  import opened BundlePlay
  import opened BundleSteps
  import opened Wrappers

  // ---------------------------------------------------------------------------
  // Reports

  datatype BundleReport = BundleReport(mode: Mode, exact: bool, firstDrift: Option<nat>,
                                       steps: seq<StepReport>, edges: seq<Edge>)

  predicate Faithful(r: StepReport) { r.custom || r.matchesChain }

  function FirstDrift(rs: seq<StepReport>): (r: Option<nat>)
    ensures r.Some? ==> r.value < |rs| && !Faithful(rs[r.value]) && forall i :: 0 <= i < r.value ==> Faithful(rs[i])
    ensures r.None? ==> forall i :: 0 <= i < |rs| ==> Faithful(rs[i])
  {
    if rs == [] then None
    else if !Faithful(rs[0]) then Some(0)
    else match FirstDrift(rs[1..])
      case None => None
      case Some(i) => Some(i + 1)
  }

  function Summary(s: Setup, reports: seq<StepReport>): BundleReport {
    BundleReport(s.mode, forall i :: 0 <= i < |reports| ==> Faithful(reports[i]), FirstDrift(reports),
                 reports, EdgesOf(s.steps, reports, |reports|))
  }

  /** A run replayed from step zero. */
  function FromZero(s: Setup, muts: StepMutations): Result<BundleReport, RunError>
    requires Numbered(s)
  {
    if |s.steps| > MAX_STEPS then Err(TooManySteps(|s.steps|))
    else
      var played :- Play(s, muts, |s.steps|);
      Ok(Summary(s, played.1))
  }

  /** What a trace of a step starts from, every step before it replayed from zero. */
  function TraceFromZero(s: Setup, step: nat, muts: StepMutations): Result<(Ctx, seq<Mutation>), RunError>
    requires Numbered(s)
  {
    if |s.steps| > MAX_STEPS then Err(TooManySteps(|s.steps|))
    else if step >= |s.steps| then Err(NoSuchStep(step))
    else
      var played :- Play(s, muts, step);
      Ok((played.0.ctx, MutsFor(muts, step)))
  }

  // ---------------------------------------------------------------------------
  // The cache

  /** The unmutated run: the state entering every step, and one past the last. */
  datatype Baseline = Baseline(snapshots: seq<Snapshot>, reports: seq<StepReport>)

  /** A complete unmutated run. */
  predicate Complete(s: Setup, b: Baseline)
    requires Numbered(s)
  {
    && |b.snapshots| == |s.steps| + 1 && |b.reports| == |s.steps|
    && forall k :: 0 <= k <= |s.steps| ==> Play(s, [], k) == Ok((b.snapshots[k], b.reports[..k]))
  }

  function Min(a: nat, b: nat): nat { if a < b then a else b }

  class Bundle {
    const setup: Setup
    var baseline: Option<Baseline>

    predicate Valid()
      reads this
    {
      Numbered(setup) && (baseline.Some? ==> Complete(setup, baseline.value))
    }

    constructor (setup: Setup)
      requires Numbered(setup)
      ensures Valid() && this.setup == setup && baseline.None?
    {
      this.setup := setup;
      baseline := None;
    }

    /** Where a run heading for `upto` can pick up. */
    function ResumeAt(upto: nat, muts: StepMutations): (r: (nat, Snapshot, seq<StepReport>))
      requires Valid() && upto <= |setup.steps|
      reads this
      ensures r.0 <= upto && NotBefore(muts, r.0)
      ensures Play(setup, muts, r.0) == Ok((r.1, r.2))
      ensures baseline.None? ==> r.0 == 0
    {
      if baseline.None? then (0, EntryOf(setup), [])
      else
        var b := baseline.value;
        var first := FirstMutated(muts);
        var start := Min(if first.Some? then Min(first.value, upto) else upto, |b.snapshots| - 1);
        UneditedPrefix(setup, muts, start);
        (start, b.snapshots[start], b.reports[..Min(start, |b.reports|)])
    }

    /** Replays steps `start` to `upto` from `entry`. */
    method Drive(start: nat, entry: Snapshot, upto: nat, muts: StepMutations, keep: bool)
      returns (r: Result<(seq<Snapshot>, seq<StepReport>), RunError>)
      requires Numbered(setup) && start <= upto <= |setup.steps|
      ensures match Continue(setup, muts, start, entry, upto)
              case Err(e) => r == Err(e)
              case Ok((last, reports)) =>
                && r.Ok? && r.value.1 == reports
                && |r.value.0| == (if keep then upto - start + 1 else 1)
                && r.value.0[|r.value.0| - 1] == last
      ensures r.Ok? ==> |r.value.1| == upto - start && (keep ==> |r.value.0| == upto - start + 1)
      ensures keep && r.Ok? ==>
                forall k :: start <= k <= upto ==>
                  Continue(setup, muts, start, entry, k) == Ok((r.value.0[k - start], r.value.1[..k - start]))
    {
      hide Advance, MutsFor;
      var n := |setup.steps|;
      var snapshots: seq<Snapshot>, reports: seq<StepReport> := [], [];
      var state := entry;
      for k := start to upto
        invariant |reports| == k - start
        invariant |snapshots| == if keep then k - start else 0
        invariant Continue(setup, muts, start, entry, k) == Ok((state, reports))
        invariant keep ==> forall i :: start <= i < k ==>
                             Continue(setup, muts, start, entry, i) == Ok((snapshots[i - start], reports[..i - start]))
      {
        if keep {
          snapshots := snapshots + [state];
        }
        ghost var was := reports;
        var one := StepOnce(k, state, MutsFor(muts, k));
        if one.Err? {
          FailureStays(setup, muts, start, entry, k + 1, upto);
          return Err(one.error);
        }
        state, reports := one.value.0, reports + [one.value.1];
        assert forall i :: 0 <= i <= |was| ==> reports[..i] == was[..i];
      }
      snapshots := snapshots + [state];
      assert reports[..upto - start] == reports;
      r := Ok((snapshots, reports));
    }

    method StepOnce(k: nat, state: Snapshot, muts: seq<Mutation>) returns (r: Result<(Snapshot, StepReport), RunError>)
      requires Numbered(setup) && k < |setup.steps|
      ensures r == Advance(setup, k, state, muts)
    {
      hide LoadedIn, ReportOf, Overlay, Adopt, KeysFrom, Divergences;
      var ran := setup.svm(state.ctx, muts);
      if ran.Err? {
        return Err(ran.error);
      }
      var post := LoadedIn(state.ctx.loaded, ran.value.after);
      var report := ReportOf(setup.steps[k], k, state, ran.value);
      var carried := state.carried + post;
      if k + 1 >= |setup.steps| {
        return Ok((Snapshot(state.ctx, carried, {}), report));
      }
      var next := setup.replays[k + 1];
      var pending: set<Diverged> := {};
      var loaded;
      if setup.mode.Consecutive? {
        loaded := OverlayAll(state.ctx.loaded, post);
        next := state.ctx.(tx := next.tx, signature := next.signature);
      } else {
        loaded, pending := CarryInto(next.loaded, carried);
      }
      loaded := AdoptCreated(loaded, setup.steps, k + 1, ran.value.after);
      r := Ok((Snapshot(next.(loaded := loaded), carried, pending), report));
    }

    /** Runs the bundle: what comes back never depends on the cache, and the cache is
        only ever filled with the complete unmutated run. */
    method Run(muts: StepMutations) returns (r: Result<BundleReport, RunError>)
      requires Valid()
      modifies this
      ensures Valid()
      ensures r == FromZero(setup, muts)
      ensures if muts == [] && r.Ok? then baseline.Some? else baseline == old(baseline)
    {
      hide Continue, Complete, EdgesOf, FirstDrift, Faithful, NotBefore;
      var n := |setup.steps|;
      if n > MAX_STEPS {
        return Err(TooManySteps(n));
      }
      var (start, entry, prefix) := ResumeAt(n, muts);
      Resumes(setup, muts, start, n);
      var keep := muts == [] && start == 0;
      var driven := Drive(start, entry, n, muts, keep);
      if driven.Err? {
        return Err(driven.error);
      }
      var steps := prefix + driven.value.1;
      OneReportEach(setup, muts, 0, EntryOf(setup), n);
      if keep {
        NothingBefore(setup, muts, entry, prefix);
        assert steps == driven.value.1;
        baseline := Some(Baseline(driven.value.0, steps));
        IsComplete(setup, baseline.value);
      }
      var edges := FindEdges(setup.steps, steps);
      var exact := forall i :: 0 <= i < |steps| ==> Faithful(steps[i]);
      r := Ok(BundleReport(setup.mode, exact, FirstDrift(steps), steps, edges));
    }

    /** The world and edits a step is traced with, whatever is cached. */
    method Trace(step: nat, muts: StepMutations) returns (r: Result<(Ctx, seq<Mutation>), RunError>)
      requires Valid()
      ensures r == TraceFromZero(setup, step, muts)
    {
      var n := |setup.steps|;
      if n > MAX_STEPS {
        return Err(TooManySteps(n));
      }
      if step >= n {
        return Err(NoSuchStep(step));
      }
      var (start, entry, prefix) := ResumeAt(step, muts);
      Resumes(setup, muts, start, step);
      var driven := Drive(start, entry, step, muts, false);
      if driven.Err? {
        return Err(driven.error);
      }
      var snapshots := driven.value.0;
      r := Ok((snapshots[|snapshots| - 1].ctx, MutsFor(muts, step)));
    }
  }

  lemma IsComplete(s: Setup, b: Baseline)
    requires Numbered(s) && |b.snapshots| == |s.steps| + 1 && |b.reports| == |s.steps|
    requires forall k :: 0 <= k <= |s.steps| ==>
               Continue(s, [], 0, EntryOf(s), k) == Ok((b.snapshots[k - 0], b.reports[..k - 0]))
    ensures Complete(s, b)
  {
  }

  lemma NothingBefore(s: Setup, muts: StepMutations, entry: Snapshot, prefix: seq<StepReport>)
    requires Numbered(s) && Play(s, muts, 0) == Ok((entry, prefix))
    ensures entry == EntryOf(s) && prefix == []
  {
  }
}
