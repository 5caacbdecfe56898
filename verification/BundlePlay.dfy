/** Playing a bundle's steps from a state: picking up where another run stopped, and
    what an edit leaves alone (src/bundle.rs). */
module BundlePlay {
  import opened BundleSteps
  import opened Wrappers

  type Played = Result<(Snapshot, seq<StepReport>), RunError>

  /** Steps `start` to `k` run from `entry`: the state after them and their reports. */
  function Continue(s: Setup, muts: StepMutations, start: nat, entry: Snapshot, k: nat): Played
    requires Numbered(s) && start <= k <= |s.steps|
  {
    if k == start then Ok((entry, []))
    else
      var before :- Continue(s, muts, start, entry, k - 1);
      var one :- Advance(s, k - 1, before.0, MutsFor(muts, k - 1));
      Ok((one.0, before.1 + [one.1]))
  }

  /** The first `k` steps played from zero. */
  function Play(s: Setup, muts: StepMutations, k: nat): Played
    requires Numbered(s) && k <= |s.steps|
  {
    Continue(s, muts, 0, EntryOf(s), k)
  }

  lemma {:induction false} FailureStays(s: Setup, muts: StepMutations, start: nat, entry: Snapshot, k: nat, m: nat)
    requires Numbered(s) && start <= k <= m <= |s.steps| && Continue(s, muts, start, entry, k).Err?
    ensures Continue(s, muts, start, entry, m) == Continue(s, muts, start, entry, k)
  {
    hide Advance, MutsFor;
    if k < m {
      FailureStays(s, muts, start, entry, k, m - 1);
    }
  }

  /** A run picked up where another stopped is the longer run. */
  lemma {:induction false} Resumes(s: Setup, muts: StepMutations, start: nat, k: nat)
    requires Numbered(s) && start <= k <= |s.steps| && Play(s, muts, start).Ok?
    ensures var (state, prefix) := Play(s, muts, start).value;
            Play(s, muts, k) == match Continue(s, muts, start, state, k)
                                case Err(e) => Err(e)
                                case Ok((last, more)) => Ok((last, prefix + more))
  {
    hide Advance, MutsFor;
    var (state, prefix) := Play(s, muts, start).value;
    if k == start {
      assert prefix + [] == prefix;
    } else {
      Resumes(s, muts, start, k - 1);
      if Continue(s, muts, start, state, k).Ok? {
        var more := Continue(s, muts, start, state, k - 1).value.1;
        var one := Continue(s, muts, start, state, k).value.1[|more|..];
        assert prefix + (more + one) == prefix + more + one;
      }
    }
  }

  /** The earliest step an edit names, if any. */
  function FirstMutated(muts: StepMutations): (r: Option<nat>)
    ensures r.None? <==> muts == []
    ensures r.Some? ==> forall i :: 0 <= i < |muts| ==> r.value <= muts[i].0
  {
    if muts == [] then None
    else
      match FirstMutated(muts[1..])
      case None => Some(muts[0].0)
      case Some(m) => Some(if m < muts[0].0 then m else muts[0].0)
  }

  lemma {:induction false} NoMutsFor(muts: StepMutations, k: nat)
    requires forall i :: 0 <= i < |muts| ==> k < muts[i].0
    ensures MutsFor(muts, k) == []
  {
    if muts != [] {
      NoMutsFor(muts[1..], k);
    }
  }

  predicate NotBefore(muts: StepMutations, k: nat) { forall i :: 0 <= i < |muts| ==> k <= muts[i].0 }

  /** Up to the first edited step, an edited run is the unedited one: the same
      reports, and the same world entering that step. */
  lemma {:induction false} UneditedPrefix(s: Setup, muts: StepMutations, k: nat)
    requires Numbered(s) && k <= |s.steps| && NotBefore(muts, k)
    ensures Play(s, muts, k) == Play(s, [], k)
  {
    if k > 0 {
      hide Advance;
      UneditedPrefix(s, muts, k - 1);
      NoMutsFor(muts, k - 1);
      assert MutsFor([], k - 1) == [];
    }
  }

  lemma {:induction false} OneReportEach(s: Setup, muts: StepMutations, start: nat, entry: Snapshot, k: nat)
    requires Numbered(s) && start <= k <= |s.steps| && Continue(s, muts, start, entry, k).Ok?
    ensures var reports := Continue(s, muts, start, entry, k).value.1;
            |reports| == k - start && forall i :: 0 <= i < |reports| ==> reports[i].index == start + i
  {
    if k > start {
      OneReportEach(s, muts, start, entry, k - 1);
    }
  }
}
