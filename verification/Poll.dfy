/** Polling rounds: only changed states are recorded, yet every observation can be
    looked up (src/records.rs, src/scope.rs). */
module Poll {
  import opened Bytes
  import opened Chain
  import opened Coverage
  import opened RecordStore
  import opened Packs
  import opened Rounds
  import opened StateCodec
  import opened StoreSpec
  import opened Timeline
  import opened Wrappers

  /** One account as a round saw it. */
  datatype Seen = Seen(address: Address, state: Option<AccountState>)

  /** One chunk's answer: a context slot and the accounts' states at it. */
  datatype Answer = Answer(slot: u64, seen: seq<Seen>)

  /** The digest says nothing changed. */
  predicate LooksUnchanged(f: Foreign, vs: seq<Version>, state: Option<AccountState>) {
    vs != [] && f.digest(LastState(vs)) == f.digest(state)
  }

  function Observe(f: Foreign, vs: seq<Version>, slot: u64, state: Option<AccountState>): seq<Version> {
    if LooksUnchanged(f, vs, state) then vs else Append(vs, Version(slot, state, true))
  }

  function PollSeen(f: Foreign, book: Book, slot: u64, s: Seen): Book {
    if LooksUnchanged(f, Of(book, s.address), s.state) then book
    else Record(book, s.address, Version(slot, s.state, true))
  }

  function PollChunk(f: Foreign, book: Book, slot: u64, seen: seq<Seen>): Book {
    if seen == [] then book
    else PollSeen(f, PollChunk(f, book, slot, seen[..|seen| - 1]), slot, seen[|seen| - 1])
  }

  function PollAll(f: Foreign, book: Book, answers: seq<Answer>): Book {
    if answers == [] then book
    else
      var last := answers[|answers| - 1];
      PollChunk(f, PollAll(f, book, answers[..|answers| - 1]), last.slot, last.seen)
  }

  predicate SeenOk(f: Foreign, seen: seq<Seen>) {
    forall i :: 0 <= i < |seen| ==> Named(f, seen[i].address) && StorableOrAbsent(f, seen[i].state)
  }

  /** The slot of each chunk's answer: one round is noted for each. */
  function SlotsOf(answers: seq<Answer>): seq<u64> {
    if answers == [] then [] else SlotsOf(answers[..|answers| - 1]) + [answers[|answers| - 1].slot]
  }

  /** How many of a chunk's accounts differed from their newest recorded version. */
  function Differing(f: Foreign, book: Book, slot: u64, seen: seq<Seen>): nat {
    if seen == [] then 0
    else
      var init, last := seen[..|seen| - 1], seen[|seen| - 1];
      Differing(f, book, slot, init)
      + if LooksUnchanged(f, Of(PollChunk(f, book, slot, init), last.address), last.state) then 0 else 1
  }

  function DifferingAll(f: Foreign, book: Book, answers: seq<Answer>): nat {
    if answers == [] then 0
    else
      var init, last := answers[..|answers| - 1], answers[|answers| - 1];
      DifferingAll(f, book, init) + Differing(f, PollAll(f, book, init), last.slot, last.seen)
  }

  /** Note the round, then record each account whose state differs from its newest
      recorded version. */
  method RecordChunk(store: LogStore, slot: u64, seen: seq<Seen>) returns (recorded: nat)
    requires store.Valid() && SeenOk(store.f, seen)
    modifies store
    ensures store.Valid() && store.book == PollChunk(store.f, old(store.book), slot, seen)
    ensures store.rounds == NoteRound(old(store.rounds), slot)
    ensures store.coverage == NoteSpan(old(store.coverage), slot)
    ensures store.watched == old(store.watched)
    ensures recorded == Differing(store.f, old(store.book), slot, seen)
  {
    hide LogStore.Valid, Record;
    store.NoteRound(slot);
    recorded := 0;
    for i := 0 to |seen|
      invariant store.Valid() && store.watched == old(store.watched)
      invariant recorded == Differing(store.f, old(store.book), slot, seen[..i])
      invariant store.book == PollChunk(store.f, old(store.book), slot, seen[..i])
      invariant store.rounds == NoteRound(old(store.rounds), slot)
      invariant store.coverage == NoteSpan(old(store.coverage), slot)
    {
      assert seen[..i + 1][..i] == seen[..i];
      var same := store.LatestIs(seen[i].address, seen[i].state);
      if !same {
        store.RecordWithBalance(seen[i].address, slot, seen[i].state, true);
        recorded := recorded + 1;
      }
    }
    assert seen[..|seen|] == seen;
  }

  /** One polling round over every chunk's answer. */
  method PollOnce(store: LogStore, answers: seq<Answer>) returns (recorded: nat)
    requires store.Valid() && forall i :: 0 <= i < |answers| ==> SeenOk(store.f, answers[i].seen)
    modifies store
    ensures store.Valid() && store.book == PollAll(store.f, old(store.book), answers)
    ensures store.rounds == RoundsAfter(old(store.rounds), SlotsOf(answers))
    ensures store.coverage == NoteAll(old(store.coverage), SlotsOf(answers))
    ensures store.watched == old(store.watched)
    ensures recorded == DifferingAll(store.f, old(store.book), answers)
  {
    hide LogStore.Valid, PollChunk, PollAll, Differing, DifferingAll, SlotsOf, NoteAll, RoundsAfter, NoteRound,
          NoteSpan;
    recorded := 0;
    NothingPolled(store.f, store.book, store.rounds, store.coverage);
    assert answers[..0] == [];
    for i := 0 to |answers|
      invariant store.Valid() && store.watched == old(store.watched)
      invariant store.book == PollAll(store.f, old(store.book), answers[..i])
      invariant recorded == DifferingAll(store.f, old(store.book), answers[..i])
      invariant store.rounds == RoundsAfter(old(store.rounds), SlotsOf(answers[..i]))
      invariant store.coverage == NoteAll(old(store.coverage), SlotsOf(answers[..i]))
    {
      PolledNext(store.f, old(store.book), old(store.rounds), old(store.coverage), answers, i);
      var n := RecordChunk(store, answers[i].slot, answers[i].seen);
      recorded := recorded + n;
    }
    assert answers[..|answers|] == answers;
  }

  lemma NothingPolled(f: Foreign, book: Book, rounds: seq<u64>, cov: seq<Span>)
    ensures PollAll(f, book, []) == book && DifferingAll(f, book, []) == 0
    ensures RoundsAfter(rounds, SlotsOf([])) == rounds && NoteAll(cov, SlotsOf([])) == cov
  {
  }

  /** What one more chunk adds. */
  lemma PolledNext(f: Foreign, book: Book, rounds: seq<u64>, cov: seq<Span>, answers: seq<Answer>, i: nat)
    requires i < |answers|
    ensures var before, one := answers[..i], answers[i];
            var here := PollAll(f, book, before);
            && PollAll(f, book, answers[..i + 1]) == PollChunk(f, here, one.slot, one.seen)
            && DifferingAll(f, book, answers[..i + 1]) == DifferingAll(f, book, before)
                  + Differing(f, here, one.slot, one.seen)
            && RoundsAfter(rounds, SlotsOf(answers[..i + 1]))
                  == NoteRound(RoundsAfter(rounds, SlotsOf(before)), one.slot)
            && NoteAll(cov, SlotsOf(answers[..i + 1])) == NoteSpan(NoteAll(cov, SlotsOf(before)), one.slot)
  {
    hide PollChunk, Differing, NoteAll, RoundsAfter, NoteRound, NoteSpan;
    assert answers[..i + 1][..i] == answers[..i];
    NotedNext(cov, rounds, SlotsOf(answers[..i]), answers[i].slot);
  }

  // ---------------------------------------------------------------------------
  // What is counted

  /** A state that differs, but came no later than the newest recorded version: it is
      counted, and not recorded. */
  predicate Refused(f: Foreign, book: Book, slot: u64, s: Seen) {
    NotNewer(f, Of(book, s.address), Observation(slot, s.state))
  }

  predicate NoneRefused(f: Foreign, book: Book, slot: u64, seen: seq<Seen>) {
    forall i :: 0 <= i < |seen| ==> !Refused(f, PollChunk(f, book, slot, seen[..i]), slot, seen[i])
  }

  predicate NoneRefusedAll(f: Foreign, book: Book, answers: seq<Answer>) {
    forall i :: 0 <= i < |answers| ==>
      NoneRefused(f, PollAll(f, book, answers[..i]), answers[i].slot, answers[i].seen)
  }

  lemma OneAdded(f: Foreign, book: Book, slot: u64, s: Seen)
    ensures Total(PollSeen(f, book, slot, s)) - Total(book)
         == if LooksUnchanged(f, Of(book, s.address), s.state) || Refused(f, book, slot, s) then 0 else 1
  {
    hide Total;
    var vs := Of(book, s.address);
    TotalPut(book, s.address, vs + [Version(slot, s.state, true)]);
  }

  /** A chunk's count is the number of versions it adds exactly when none of its states
      was refused as not newer; otherwise it is more. */
  lemma {:induction false} ChunkCountIffNoneRefused(f: Foreign, book: Book, slot: u64, seen: seq<Seen>)
    ensures Differing(f, book, slot, seen) >= Total(PollChunk(f, book, slot, seen)) - Total(book)
    ensures Differing(f, book, slot, seen) == Total(PollChunk(f, book, slot, seen)) - Total(book)
       <==> NoneRefused(f, book, slot, seen)
  {
    if seen != [] {
      hide Total, LooksUnchanged, Refused, PollSeen;
      var n := |seen| - 1;
      ChunkCountIffNoneRefused(f, book, slot, seen[..n]);
      OneAdded(f, PollChunk(f, book, slot, seen[..n]), slot, seen[n]);
      RefusedLast(f, book, slot, seen);
      RefusedDiffers(f, PollChunk(f, book, slot, seen[..n]), slot, seen[n]);
    }
  }

  lemma RefusedDiffers(f: Foreign, book: Book, slot: u64, s: Seen)
    ensures Refused(f, book, slot, s) ==> !LooksUnchanged(f, Of(book, s.address), s.state)
  {
  }

  lemma RefusedLast(f: Foreign, book: Book, slot: u64, seen: seq<Seen>)
    requires seen != []
    ensures var n := |seen| - 1;
            NoneRefused(f, book, slot, seen)
            <==> NoneRefused(f, book, slot, seen[..n])
                 && !Refused(f, PollChunk(f, book, slot, seen[..n]), slot, seen[n])
  {
    hide Refused, PollChunk;
    var n := |seen| - 1;
    assert forall i :: 0 <= i < n ==> seen[..n][..i] == seen[..i] && seen[..n][i] == seen[i];
  }

  lemma RefusedLastChunk(f: Foreign, book: Book, answers: seq<Answer>)
    requires answers != []
    ensures var n := |answers| - 1;
            NoneRefusedAll(f, book, answers)
            <==> NoneRefusedAll(f, book, answers[..n])
                 && NoneRefused(f, PollAll(f, book, answers[..n]), answers[n].slot, answers[n].seen)
  {
    hide NoneRefused, PollAll;
    var n := |answers| - 1;
    assert forall i :: 0 <= i < n ==> answers[..n][..i] == answers[..i] && answers[..n][i] == answers[i];
  }

  /** So is a whole round's. */
  lemma {:induction false} CountIffNoneRefused(f: Foreign, book: Book, answers: seq<Answer>)
    ensures DifferingAll(f, book, answers) >= Total(PollAll(f, book, answers)) - Total(book)
    ensures DifferingAll(f, book, answers) == Total(PollAll(f, book, answers)) - Total(book)
       <==> NoneRefusedAll(f, book, answers)
  {
    if answers != [] {
      hide Total, Differing, NoneRefused, PollChunk;
      var n := |answers| - 1;
      CountIffNoneRefused(f, book, answers[..n]);
      ChunkCountIffNoneRefused(f, PollAll(f, book, answers[..n]), answers[n].slot, answers[n].seen);
      RefusedLastChunk(f, book, answers);
    }
  }

  // ---------------------------------------------------------------------------
  // One account's observations

  datatype Observation = Observation(slot: u64, state: Option<AccountState>)

  function ObserveAll(f: Foreign, vs: seq<Version>, obs: seq<Observation>): seq<Version> {
    if obs == [] then vs
    else
      var last := obs[|obs| - 1];
      Observe(f, ObserveAll(f, vs, obs[..|obs| - 1]), last.slot, last.state)
  }

  function SeenOf(slot: u64, seen: seq<Seen>, a: Address): seq<Observation> {
    if seen == [] then []
    else
      var last := seen[|seen| - 1];
      var rest := SeenOf(slot, seen[..|seen| - 1], a);
      if last.address == a then rest + [Observation(slot, last.state)] else rest
  }

  /** Everything a run of rounds saw of one account. */
  function ObservationsOf(answers: seq<Answer>, a: Address): seq<Observation> {
    if answers == [] then []
    else
      var last := answers[|answers| - 1];
      ObservationsOf(answers[..|answers| - 1], a) + SeenOf(last.slot, last.seen, a)
  }

  lemma {:induction false} ObserveMore(f: Foreign, vs: seq<Version>, obs: seq<Observation>, more: seq<Observation>)
    ensures ObserveAll(f, vs, obs + more) == ObserveAll(f, ObserveAll(f, vs, obs), more)
  {
    hide Observe;
    if more == [] {
      assert obs + more == obs;
    } else {
      var n := |more| - 1;
      ObserveMore(f, vs, obs, more[..n]);
      assert (obs + more)[..|obs| + n] == obs + more[..n];
    }
  }

  lemma PollSeenOf(f: Foreign, book: Book, slot: u64, s: Seen, a: Address)
    ensures Of(PollSeen(f, book, slot, s), a)
         == if s.address == a then Observe(f, Of(book, a), slot, s.state) else Of(book, a)
  {
  }

  lemma {:induction false} PollChunkOf(f: Foreign, book: Book, slot: u64, seen: seq<Seen>, a: Address)
    ensures Of(PollChunk(f, book, slot, seen), a) == ObserveAll(f, Of(book, a), SeenOf(slot, seen, a))
  {
    if seen != [] {
      hide PollSeen, Observe;
      var n := |seen| - 1;
      PollChunkOf(f, book, slot, seen[..n], a);
      PollSeenOf(f, PollChunk(f, book, slot, seen[..n]), slot, seen[n], a);
      var rest := SeenOf(slot, seen[..n], a);
      assert (rest + [Observation(slot, seen[n].state)])[..|rest|] == rest;
    }
  }

  /** What a run of rounds leaves of an account depends on what it saw of it. */
  lemma {:induction false} PollAllOf(f: Foreign, book: Book, answers: seq<Answer>, a: Address)
    ensures Of(PollAll(f, book, answers), a) == ObserveAll(f, Of(book, a), ObservationsOf(answers, a))
  {
    if answers != [] {
      hide PollChunk, ObserveAll, SeenOf;
      var n := |answers| - 1;
      var last := answers[n];
      PollAllOf(f, book, answers[..n], a);
      PollChunkOf(f, PollAll(f, book, answers[..n]), last.slot, last.seen, a);
      ObserveMore(f, Of(book, a), ObservationsOf(answers[..n], a), SeenOf(last.slot, last.seen, a));
    } else {
      assert ObserveAll(f, Of(book, a), []) == Of(book, a);
    }
  }

  // ---------------------------------------------------------------------------
  // Lookups answer with what was observed

  /** The digest mistook the state seen for the one recorded. */
  predicate Collides(f: Foreign, vs: seq<Version>, o: Observation) {
    LooksUnchanged(f, vs, o.state) && LastState(vs) != o.state
  }

  /** The state seen differs, and came too late to be recorded. */
  predicate NotNewer(f: Foreign, vs: seq<Version>, o: Observation) {
    !LooksUnchanged(f, vs, o.state) && vs != [] && vs[|vs| - 1].slot >= o.slot
  }

  predicate FaithfulAt(vs: seq<Version>, o: Observation, t: u64) {
    Lookup(vs, t).Some? && Lookup(vs, t).value.state == o.state
  }

  /** `t` comes at or after everything received up to observation `i`, and before
      everything received later: a lookup there should tell what `i` saw. */
  predicate InReign(vs: seq<Version>, obs: seq<Observation>, i: nat, t: u64)
    requires i < |obs|
  {
    && (vs != [] ==> vs[|vs| - 1].slot <= t)
    && (forall k :: 0 <= k <= i ==> obs[k].slot <= t)
    && (forall k :: i < k < |obs| ==> t < obs[k].slot)
  }

  /** There is such a slot, however the observations' slots repeat or step back. */
  ghost predicate Reigns(vs: seq<Version>, obs: seq<Observation>, i: nat)
    requires i < |obs|
  {
    exists t: u64 :: InReign(vs, obs, i, t)
  }

  /** Every lookup in an observation's reign returns the state observed. */
  ghost predicate Answered(out: seq<Version>, vs: seq<Version>, obs: seq<Observation>) {
    forall i, t: u64 :: 0 <= i < |obs| && InReign(vs, obs, i, t) ==> FaithfulAt(out, obs[i], t)
  }

  /** Observation `i` was taken for unchanged only if it was, and recorded otherwise. */
  predicate TakenIn(f: Foreign, vs: seq<Version>, obs: seq<Observation>, i: nat)
    requires i < |obs|
  {
    var before := ObserveAll(f, vs, obs[..i]);
    !Collides(f, before, obs[i]) && !NotNewer(f, before, obs[i])
  }

  lemma ObserveLeaves(f: Foreign, vs: seq<Version>, o: Observation)
    ensures var out := Observe(f, vs, o.slot, o.state);
            && out != [] && (out == vs || out == vs + [Version(o.slot, o.state, true)])
            && (LastState(out) == o.state <==> !Collides(f, vs, o) && !NotNewer(f, vs, o))
  {
  }

  lemma ObservedNext(f: Foreign, vs: seq<Version>, obs: seq<Observation>, k: nat)
    requires k < |obs|
    ensures ObserveAll(f, vs, obs[..k + 1]) == Observe(f, ObserveAll(f, vs, obs[..k]), obs[k].slot, obs[k].state)
  {
    assert obs[..k + 1][..k] == obs[..k];
  }

  lemma {:induction false} NewestWithin(f: Foreign, vs: seq<Version>, obs: seq<Observation>, n: nat, t: u64)
    requires n <= |obs| && (vs != [] ==> vs[|vs| - 1].slot <= t) && forall k :: 0 <= k < n ==> obs[k].slot <= t
    ensures var out := ObserveAll(f, vs, obs[..n]);
            out != [] ==> out[|out| - 1].slot <= t
  {
    hide Observe;
    if n > 0 {
      NewestWithin(f, vs, obs, n - 1, t);
      ObservedNext(f, vs, obs, n - 1);
      ObserveLeaves(f, ObserveAll(f, vs, obs[..n - 1]), obs[n - 1]);
    } else {
      assert obs[..0] == [];
    }
  }

  lemma NewestAnswers(vs: seq<Version>, t: u64)
    requires vs != [] && vs[|vs| - 1].slot <= t
    ensures Lookup(vs, t) == Some(vs[|vs| - 1])
  {
  }

  lemma LaterVersionUnseen(vs: seq<Version>, v: Version, t: u64)
    requires t < v.slot
    ensures Lookup(vs + [v], t) == Lookup(vs, t)
  {
    assert (vs + [v])[..|vs|] == vs;
  }

  /** A lookup does not see observations of later slots. */
  lemma {:induction false} LaterUnseen(f: Foreign, vs: seq<Version>, obs: seq<Observation>, k: nat, n: nat, t: u64)
    requires k <= n <= |obs| && forall m :: k <= m < n ==> t < obs[m].slot
    ensures Lookup(ObserveAll(f, vs, obs[..n]), t) == Lookup(ObserveAll(f, vs, obs[..k]), t)
  {
    hide Observe, ObserveAll, Lookup;
    if k < n {
      LaterUnseen(f, vs, obs, k, n - 1, t);
      ObservedNext(f, vs, obs, n - 1);
      var before, o := ObserveAll(f, vs, obs[..n - 1]), obs[n - 1];
      ObserveLeaves(f, before, o);
      LaterVersionUnseen(before, Version(o.slot, o.state, true), t);
    }
  }

  lemma AnsweredAt(f: Foreign, vs: seq<Version>, obs: seq<Observation>, i: nat, t: u64)
    requires i < |obs| && InReign(vs, obs, i, t)
    ensures FaithfulAt(ObserveAll(f, vs, obs), obs[i], t) <==> TakenIn(f, vs, obs, i)
  {
    hide Observe, ObserveAll, Lookup, Collides, NotNewer;
    LaterUnseen(f, vs, obs, i + 1, |obs|, t);
    assert obs[..|obs|] == obs;
    ObservedNext(f, vs, obs, i);
    ObserveLeaves(f, ObserveAll(f, vs, obs[..i]), obs[i]);
    NewestWithin(f, vs, obs, i + 1, t);
    NewestAnswers(ObserveAll(f, vs, obs[..i + 1]), t);
  }

  /** Although only changed states are written, and late ones not at all, every lookup
      returns what was last observed, exactly when no observation that still has slots of
      its own collided or came too late. Slots may repeat and step back. */
  lemma AnsweredIff(f: Foreign, vs: seq<Version>, obs: seq<Observation>)
    ensures Answered(ObserveAll(f, vs, obs), vs, obs)
       <==> forall i :: 0 <= i < |obs| && Reigns(vs, obs, i) ==> TakenIn(f, vs, obs, i)
  {
    hide FaithfulAt, ObserveAll, TakenIn, InReign;
    forall i, t: u64 | 0 <= i < |obs| && InReign(vs, obs, i, t)
      ensures FaithfulAt(ObserveAll(f, vs, obs), obs[i], t) <==> TakenIn(f, vs, obs, i)
    {
      AnsweredAt(f, vs, obs, i, t);
    }
  }

  // ---------------------------------------------------------------------------
  // Observations in order

  /** Observations in time order, all newer than what was recorded before. */
  predicate InOrder(vs: seq<Version>, obs: seq<Observation>) {
    && (forall i, j :: 0 <= i < j < |obs| ==> obs[i].slot < obs[j].slot)
    && (vs != [] ==> forall i :: 0 <= i < |obs| ==> vs[|vs| - 1].slot < obs[i].slot)
  }

  predicate NoCollision(f: Foreign, vs: seq<Version>, obs: seq<Observation>) {
    forall i :: 0 <= i < |obs| ==> !Collides(f, ObserveAll(f, vs, obs[..i]), obs[i])
  }

  /** From each observation up to the next, lookups return the state observed. */
  predicate Faithful(vs: seq<Version>, obs: seq<Observation>) {
    forall i, t: u64 :: 0 <= i < |obs| && obs[i].slot <= t && (i + 1 < |obs| ==> t < obs[i + 1].slot) ==>
      FaithfulAt(vs, obs[i], t)
  }

  lemma {:induction false} ObservedShape(f: Foreign, vs: seq<Version>, obs: seq<Observation>)
    requires Ascending(vs) && InOrder(vs, obs)
    ensures var out := ObserveAll(f, vs, obs);
            && Ascending(out)
            && (obs != [] ==> out != [] && out[|out| - 1].slot <= obs[|obs| - 1].slot)
            && (obs == [] ==> out == vs)
  {
    if obs != [] {
      hide Observe, Ascending, Collides, NotNewer, LastState;
      var n := |obs| - 1;
      ObservedShape(f, vs, obs[..n]);
      var before := ObserveAll(f, vs, obs[..n]);
      ObserveLeaves(f, before, obs[n]);
      NewerAscends(before, Version(obs[n].slot, obs[n].state, true));
    }
  }

  lemma NewerAscends(vs: seq<Version>, v: Version)
    requires Ascending(vs) && (vs != [] ==> vs[|vs| - 1].slot < v.slot)
    ensures Ascending(vs + [v])
  {
  }

  lemma AnswerAfter(f: Foreign, vs: seq<Version>, obs: seq<Observation>, i: nat, t: u64)
    requires Ascending(vs) && InOrder(vs, obs) && i < |obs|
    requires obs[i].slot <= t && (i + 1 < |obs| ==> t < obs[i + 1].slot)
    ensures FaithfulAt(ObserveAll(f, vs, obs), obs[i], t) <==>
            !Collides(f, ObserveAll(f, vs, obs[..i]), obs[i])
  {
    hide ObserveAll, Ascending, Collides, FaithfulAt;
    AnsweredAt(f, vs, obs, i, t);
    ObservedShape(f, vs, obs[..i]);
  }

  /** Although only changed states are written, every lookup from one observation up
      to the next returns the state observed, exactly when no digest collided. */
  lemma FaithfulIffNoCollision(f: Foreign, vs: seq<Version>, obs: seq<Observation>)
    requires Ascending(vs) && InOrder(vs, obs)
    ensures Faithful(ObserveAll(f, vs, obs), obs) <==> NoCollision(f, vs, obs)
  {
    hide Ascending, Collides, FaithfulAt, ObserveAll;
    var out := ObserveAll(f, vs, obs);
    if NoCollision(f, vs, obs) {
      forall i, t: u64 | 0 <= i < |obs| && obs[i].slot <= t && (i + 1 < |obs| ==> t < obs[i + 1].slot)
        ensures FaithfulAt(out, obs[i], t)
      {
        AnswerAfter(f, vs, obs, i, t);
      }
    }
    if Faithful(out, obs) {
      forall i | 0 <= i < |obs|
        ensures !Collides(f, ObserveAll(f, vs, obs[..i]), obs[i])
      {
        AnswerAfter(f, vs, obs, i, obs[i].slot);
        assert FaithfulAt(out, obs[i], obs[i].slot);
      }
    }
  }

  /** A digest that tells states apart never collides. */
  lemma InjectiveDigestIsFaithful(f: Foreign, vs: seq<Version>, obs: seq<Observation>)
    requires Ascending(vs) && InOrder(vs, obs)
    requires forall i, s :: 0 <= i < |obs| && f.digest(s) == f.digest(obs[i].state) ==> s == obs[i].state
    ensures Faithful(ObserveAll(f, vs, obs), obs)
  {
    FaithfulIffNoCollision(f, vs, obs);
    forall i | 0 <= i < |obs|
      ensures !Collides(f, ObserveAll(f, vs, obs[..i]), obs[i])
    {
      var s := LastState(ObserveAll(f, vs, obs[..i]));
      assert f.digest(s) == f.digest(obs[i].state) ==> s == obs[i].state;
    }
  }

  /** A collision misleads: an account seen absent and then with a state of the same
      digest is still answered as absent. */
  lemma CollisionMisleads(f: Foreign, s: AccountState)
    requires f.digest(None) == f.digest(Some(s))
    ensures var obs := [Observation(1, None), Observation(2, Some(s))];
            && Lookup(ObserveAll(f, [], obs), 2) == Some(Version(1, None, true))
            && !Faithful(ObserveAll(f, [], obs), obs)
  {
    var obs := [Observation(1, None), Observation(2, Some(s))];
    assert obs[..1] == [obs[0]] && obs[..1][..0] == [];
    assert ObserveAll(f, [], obs[..1]) == [Version(1, None, true)];
    var out := ObserveAll(f, [], obs);
    assert out == [Version(1, None, true)];
    assert !FaithfulAt(out, obs[1], 2);
  }

  /** A second state seen at a slot already recorded is dropped: every lookup from that
      slot on still answers with the first. */
  lemma LateIsDropped(f: Foreign, s: AccountState)
    requires f.digest(None) != f.digest(Some(s))
    ensures var obs := [Observation(2, None), Observation(2, Some(s))];
            && Lookup(ObserveAll(f, [], obs), 2) == Some(Version(2, None, true))
            && !Answered(ObserveAll(f, [], obs), [], obs)
  {
    var obs := [Observation(2, None), Observation(2, Some(s))];
    assert obs[..1] == [obs[0]] && obs[..1][..0] == [];
    assert ObserveAll(f, [], obs[..1]) == [Version(2, None, true)];
    var out := ObserveAll(f, [], obs);
    assert out == [Version(2, None, true)];
    assert InReign([], obs, 1, 2) && !FaithfulAt(out, obs[1], 2);
  }

  /** An observation of the account itself, at or after the target and before the next
      version, saw the state held at the target. */
  lemma RoundProvesHeld(f: Foreign, vs: seq<Version>, obs: seq<Observation>, i: nat, target: u64)
    requires Ascending(vs) && InOrder(vs, obs) && NoCollision(f, vs, obs) && i < |obs|
    requires target <= obs[i].slot
    requires Lookup(ObserveAll(f, vs, obs), target).Some?
    requires forall v :: v in ObserveAll(f, vs, obs) && v.slot > Lookup(ObserveAll(f, vs, obs), target).value.slot
                         ==> v.slot > obs[i].slot
    ensures Lookup(ObserveAll(f, vs, obs), target).value.state == obs[i].state
  {
    var out := ObserveAll(f, vs, obs);
    ObservedShape(f, vs, obs);
    LookupAnswers(out, target);
    AnswerIsLookup(out, obs[i].slot, Lookup(out, target));
    AnswerAfter(f, vs, obs, i, obs[i].slot);
  }
}
