/** When a recorded version is claimed exact at a slot, and when the claim can be wrong
    (src/scope.rs, src/records.rs). */
module Claims {
  import opened Bytes
  import opened Chain
  import opened Coverage
  import opened Packs
  import opened Poll
  import opened RecordStore
  import opened Rounds
  import opened StateCodec
  import opened StoreSpec
  import opened Timeline
  import opened Wrappers

  // ---------------------------------------------------------------------------
  // The rule

  /** A polling round is held at or after the target, and nothing newer was recorded up
      to it. */
  ghost predicate StillHeld(vs: seq<Version>, rounds: seq<u64>, target: u64) {
    exists r <- rounds :: target <= r && Lookup(vs, r) == Lookup(vs, target)
  }

  /** The newest version at or before the target is claimed to be exact there. */
  ghost predicate Claimed(vs: seq<Version>, rounds: seq<u64>, cov: seq<Span>, target: u64) {
    Lookup(vs, target).Some? && StillHeld(vs, rounds, target) && Covered(cov, target)
  }

  /** The version claimed exact at the target, if any is. */
  method ExactAt(store: LogStore, a: Address, target: u64) returns (r: Option<Version>)
    requires store.Valid()
    ensures r == if Claimed(Of(store.book, a), store.rounds, store.coverage, target)
                 then Lookup(Of(store.book, a), target) else None
  {
    hide LogStore.Valid, Lookup, Covered, Ascending;
    ghost var vs := Of(store.book, a);
    r := None;
    var start := store.VersionAt(a, target);
    if start.Ok? && start.value.Some? {
      var next := store.NextVersionSlotAfter(a, start.value.value.slot);
      OrderedHere(store, a);
      UpToNext(vs, target, next);
      var held := false;
      if next.None? {
        held := store.RoundWithin(target, U64_MAX);
        HeldUpTo(vs, store.rounds, target, U64_MAX);
      } else if next.value > target {
        held := store.RoundWithin(target, next.value - 1);
        HeldUpTo(vs, store.rounds, target, next.value - 1);
      }
      var covered := store.Covers(target);
      if held && covered {
        r := start.value;
      }
    }
  }

  lemma OrderedHere(store: LogStore, a: Address)
    requires store.Valid()
    ensures Ascending(Of(store.book, a))
  {
    hide LogStore.Valid;
    store.AccountIsLog(a);
  }

  /** Up to the next version's slot, and no further, lookups answer as at the target. */
  lemma UpToNext(vs: seq<Version>, target: u64, next: Option<u64>)
    requires Ascending(vs) && Lookup(vs, target).Some?
    requires var from := Lookup(vs, target).value.slot;
             && (next.None? ==> forall v :: v in vs ==> v.slot <= from)
             && (next.Some? ==> next.value > from && HasSlot(vs, next.value)
                                && forall v :: v in vs && v.slot > from ==> v.slot >= next.value)
    ensures next.Some? ==> next.value > target
    ensures forall r: u64 :: target <= r ==>
              (Lookup(vs, r) == Lookup(vs, target) <==> next.None? || r < next.value)
  {
    hide Lookup, Ascending;
    LookupAnswers(vs, target);
    forall r: u64 | target <= r
      ensures Lookup(vs, r) == Lookup(vs, target) <==> next.None? || r < next.value
    {
      LookupAnswers(vs, r);
      if next.None? || r < next.value {
        AnswerIsLookup(vs, r, Lookup(vs, target));
      }
    }
  }

  lemma HeldUpTo(vs: seq<Version>, rounds: seq<u64>, target: u64, to: u64)
    requires forall r: u64 :: target <= r ==> (Lookup(vs, r) == Lookup(vs, target) <==> r <= to)
    ensures StillHeld(vs, rounds, target) <==> exists k :: 0 <= k < |rounds| && target <= rounds[k] <= to
  {
    hide Lookup;
    if StillHeld(vs, rounds, target) {
      var r :| r in rounds && target <= r && Lookup(vs, r) == Lookup(vs, target);
      var k :| 0 <= k < |rounds| && rounds[k] == r;
    }
    if k :| 0 <= k < |rounds| && target <= rounds[k] <= to {
      assert rounds[k] in rounds;
    }
  }

  // ---------------------------------------------------------------------------
  // What was seen, and what may have been

  /** An account's state at the end of each slot. */
  type History = u64 -> Option<AccountState>

  predicate Tells(h: History, obs: seq<Observation>) {
    forall i :: 0 <= i < |obs| ==> h(obs[i].slot) == obs[i].state
  }

  /** No change flipped back between two observations. */
  ghost predicate Steady(h: History, obs: seq<Observation>) {
    forall i, t: u64 :: 0 <= i < |obs| - 1 && obs[i].slot <= t <= obs[i + 1].slot && obs[i].state == obs[i + 1].state
      ==> h(t) == obs[i].state
  }

  /** Whatever happened, what was seen says the account had this state at the target. */
  ghost predicate Proven(obs: seq<Observation>, target: u64, state: Option<AccountState>) {
    forall h: History :: Tells(h, obs) && Steady(h, obs) ==> h(target) == state
  }

  /** The observations around the target both saw the state. */
  predicate Pinned(obs: seq<Observation>, target: u64, state: Option<AccountState>) {
    exists i :: 0 <= i < |obs| && PinnedBy(obs, i, target, state)
  }

  predicate PinnedBy(obs: seq<Observation>, i: nat, target: u64, state: Option<AccountState>)
    requires i < |obs|
  {
    && obs[i].slot <= target && obs[i].state == state
    && (obs[i].slot == target
        || (i + 1 < |obs| && target <= obs[i + 1].slot && obs[i + 1].state == state))
  }

  predicate InTime(obs: seq<Observation>) {
    forall i, j :: 0 <= i < j < |obs| ==> obs[i].slot < obs[j].slot
  }

  /** The state last seen by slot `t`. */
  function LastSeen(obs: seq<Observation>, t: u64): Option<AccountState> {
    if obs == [] then None
    else if obs[|obs| - 1].slot <= t then obs[|obs| - 1].state
    else LastSeen(obs[..|obs| - 1], t)
  }

  lemma {:induction false} LastSeenAt(obs: seq<Observation>, i: nat, t: u64)
    requires InTime(obs) && i < |obs| && obs[i].slot <= t && (i + 1 < |obs| ==> t < obs[i + 1].slot)
    ensures LastSeen(obs, t) == obs[i].state
  {
    if i + 1 < |obs| {
      var n := |obs| - 1;
      assert i + 1 < n ==> obs[i + 1].slot < obs[n].slot;
      LastSeenAt(obs[..n], i, t);
    }
  }

  function Another(state: Option<AccountState>): Option<AccountState> {
    if state.None? then Some(AccountState([], 0, [])) else None
  }

  /** What was last seen, everywhere but perhaps at the target. */
  function Doubt(obs: seq<Observation>, target: u64, state: Option<AccountState>): History {
    (t: u64) => if t == target && LastSeen(obs, t) == state then Another(state) else LastSeen(obs, t)
  }

  lemma DoubtIsPossible(obs: seq<Observation>, target: u64, state: Option<AccountState>)
    requires InTime(obs) && !Pinned(obs, target, state)
    ensures var h := Doubt(obs, target, state); Tells(h, obs) && Steady(h, obs) && h(target) != state
  {
    hide LastSeen, Pinned;
    var h := Doubt(obs, target, state);
    forall i | 0 <= i < |obs| ensures h(obs[i].slot) == obs[i].state {
      LastSeenAt(obs, i, obs[i].slot);
      NotPinnedBy(obs, i, target, state);
    }
    forall i, t: u64 | 0 <= i < |obs| - 1 && obs[i].slot <= t <= obs[i + 1].slot && obs[i].state == obs[i + 1].state
      ensures h(t) == obs[i].state
    {
      NotPinnedBy(obs, i, target, state);
      LastSeenAt(obs, if t < obs[i + 1].slot then i else i + 1, t);
      NotPinnedBy(obs, i + 1, target, state);
    }
  }

  lemma NotPinnedBy(obs: seq<Observation>, i: nat, target: u64, state: Option<AccountState>)
    requires i < |obs| && !Pinned(obs, target, state)
    ensures !PinnedBy(obs, i, target, state)
  {
  }

  /** A state is proven at a slot exactly when the observations around it both saw it. */
  lemma ProvenIffPinned(obs: seq<Observation>, target: u64, state: Option<AccountState>)
    requires InTime(obs)
    ensures Proven(obs, target, state) <==> Pinned(obs, target, state)
  {
    hide LastSeen;
    if !Pinned(obs, target, state) {
      DoubtIsPossible(obs, target, state);
    } else {
      var i :| 0 <= i < |obs| && PinnedBy(obs, i, target, state);
      forall h: History | Tells(h, obs) && Steady(h, obs) ensures h(target) == state {
        assert h(obs[i].slot) == obs[i].state;
      }
    }
  }

  // ---------------------------------------------------------------------------
  // When the rule is right

  /** Every claim is proven by what was seen of the account. */
  ghost predicate NeverWrong(vs: seq<Version>, rounds: seq<u64>, cov: seq<Span>, obs: seq<Observation>) {
    forall target: u64 :: Claimed(vs, rounds, cov, target) ==> Proven(obs, target, Lookup(vs, target).value.state)
  }

  /** The first observation at or after `r` exists, and saw what is recorded by `r`. */
  predicate NextSaw(vs: seq<Version>, obs: seq<Observation>, r: u64) {
    exists j :: 0 <= j < |obs| && NextIs(obs, j, r) && Some(obs[j].state) == StateOf(Lookup(vs, r))
  }

  predicate NextIs(obs: seq<Observation>, j: nat, r: u64)
    requires j < |obs|
  {
    r <= obs[j].slot && (j > 0 ==> obs[j - 1].slot < r)
  }

  function StateOf(v: Option<Version>): Option<Option<AccountState>> {
    if v.None? then None else Some(v.value.state)
  }

  /** After every held round, from the first version on, the account was next seen
      unchanged. */
  ghost predicate SeenAfterRounds(vs: seq<Version>, rounds: seq<u64>, obs: seq<Observation>) {
    forall r <- rounds :: Lookup(vs, r).Some? ==> NextSaw(vs, obs, r)
  }

  /** The last observation by slot `t`, once there was one. */
  lemma {:induction false} LastBy(obs: seq<Observation>, t: u64) returns (i: nat)
    requires InTime(obs) && obs != [] && obs[0].slot <= t
    ensures i < |obs| && obs[i].slot <= t && (i + 1 < |obs| ==> t < obs[i + 1].slot)
  {
    i := 0;
    while i + 1 < |obs| && obs[i + 1].slot <= t
      invariant i < |obs| && obs[i].slot <= t
    {
      i := i + 1;
    }
  }

  lemma {:induction false} LookupIsPast(vs: seq<Version>, t: u64)
    ensures Lookup(vs, t).Some? ==> Lookup(vs, t).value.slot <= t
  {
    if vs != [] {
      LookupIsPast(vs[..|vs| - 1], t);
    }
  }

  lemma {:induction false} LookupBetween(vs: seq<Version>, t: u64, m: u64, r: u64)
    requires t <= m <= r && Lookup(vs, t).Some? && Lookup(vs, t) == Lookup(vs, r)
    ensures Lookup(vs, m) == Lookup(vs, t)
  {
    LookupIsPast(vs, t);
    if vs != [] && vs[|vs| - 1].slot > r {
      LookupBetween(vs[..|vs| - 1], t, m, r);
    }
  }

  /** What polling leaves of an account nothing was recorded of. */
  function Left(f: Foreign, obs: seq<Observation>): seq<Version> { ObserveAll(f, [], obs) }

  lemma LeftAnswers(f: Foreign, obs: seq<Observation>, i: nat, t: u64)
    requires InOrder([], obs) && NoCollision(f, [], obs) && i < |obs|
    requires obs[i].slot <= t && (i + 1 < |obs| ==> t < obs[i + 1].slot)
    ensures StateOf(Lookup(Left(f, obs), t)) == Some(obs[i].state)
  {
    hide ObserveAll, Lookup, Collides;
    AnswerAfter(f, [], obs, i, t);
  }

  lemma NothingBefore(f: Foreign, obs: seq<Observation>, t: u64)
    requires InOrder([], obs) && (obs == [] || t < obs[0].slot)
    ensures Lookup(Left(f, obs), t) == None
  {
    hide Observe;
    LaterUnseen(f, [], obs, 0, |obs|, t);
    assert obs[..|obs|] == obs && obs[..0] == [];
  }

  /** A claim whose round was followed by an unchanged observation is pinned. */
  lemma ClaimIsPinned(f: Foreign, obs: seq<Observation>, target: u64, r: u64)
    requires InOrder([], obs) && NoCollision(f, [], obs)
    requires target <= r && Lookup(Left(f, obs), target).Some?
    requires Lookup(Left(f, obs), r) == Lookup(Left(f, obs), target) && NextSaw(Left(f, obs), obs, r)
    ensures Pinned(obs, target, Lookup(Left(f, obs), target).value.state)
  {
    hide Left, Lookup, NoCollision;
    var vs := Left(f, obs);
    if obs == [] || target < obs[0].slot {
      NothingBefore(f, obs, target);
    } else {
      var i := LastBy(obs, target);
      LeftAnswers(f, obs, i, target);
      var j :| 0 <= j < |obs| && NextIs(obs, j, r) && Some(obs[j].state) == StateOf(Lookup(vs, r));
      if obs[i].slot < target && i + 1 < j {
        var m := obs[i + 1].slot;
        LookupBetween(vs, target, m, r);
        LeftAnswers(f, obs, i + 1, m);
      }
      assert PinnedBy(obs, i, target, Lookup(vs, target).value.state);
    }
  }

  /** A round at which the state recorded is pinned was followed by an unchanged
      observation. */
  lemma PinnedIsSeen(vs: seq<Version>, obs: seq<Observation>, r: u64)
    requires InTime(obs) && Lookup(vs, r).Some? && Pinned(obs, r, Lookup(vs, r).value.state)
    ensures NextSaw(vs, obs, r)
  {
    hide Lookup;
    var i :| 0 <= i < |obs| && PinnedBy(obs, i, r, Lookup(vs, r).value.state);
    var j := if obs[i].slot == r then i else i + 1;
    assert NextIs(obs, j, r);
  }

  /** No claim is wrong exactly when, after every held round from the first version on,
      the account was next seen unchanged. */
  lemma NeverWrongIff(f: Foreign, obs: seq<Observation>, rounds: seq<u64>, cov: seq<Span>)
    requires InOrder([], obs) && NoCollision(f, [], obs)
    requires forall r <- rounds :: Covered(cov, r)
    ensures NeverWrong(Left(f, obs), rounds, cov, obs) <==> SeenAfterRounds(Left(f, obs), rounds, obs)
  {
    hide Left, Lookup, NoCollision, Covered, Proven, Pinned, NextSaw;
    var vs := Left(f, obs);
    if NeverWrong(vs, rounds, cov, obs) {
      forall r <- rounds | Lookup(vs, r).Some? ensures NextSaw(vs, obs, r) {
        assert Claimed(vs, rounds, cov, r);
        ProvenIffPinned(obs, r, Lookup(vs, r).value.state);
        PinnedIsSeen(vs, obs, r);
      }
    }
    if SeenAfterRounds(vs, rounds, obs) {
      forall target: u64 | Claimed(vs, rounds, cov, target)
        ensures Proven(obs, target, Lookup(vs, target).value.state)
      {
        var r :| r in rounds && target <= r && Lookup(vs, r) == Lookup(vs, target);
        ClaimIsPinned(f, obs, target, r);
        ProvenIffPinned(obs, target, Lookup(vs, target).value.state);
      }
    }
  }

  // ---------------------------------------------------------------------------
  // Over any run of polls

  /** What a run of polls from an empty store leaves. */
  function PolledBook(f: Foreign, answers: seq<Answer>): Book { PollAll(f, map[], answers) }
  function PolledRounds(answers: seq<Answer>): seq<u64> { RoundsAfter([], SlotsOf(answers)) }
  function PolledCover(answers: seq<Answer>): seq<Span> { NoteAll([], SlotsOf(answers)) }

  lemma PolledLeft(f: Foreign, answers: seq<Answer>, a: Address)
    ensures Of(PolledBook(f, answers), a) == Left(f, ObservationsOf(answers, a))
  {
    hide PollAll, ObserveAll, ObservationsOf;
    PollAllOf(f, map[], answers, a);
  }

  /** Every held round lies in the coverage, in its dense window. */
  lemma HeldIsCovered(slots: seq<u64>, r: u64)
    requires r in RoundsAfter([], slots)
    ensures r in slots && Covered(NoteAll([], slots), r)
  {
    hide RoundsAfter, NoteAll, Fresh;
    if slots == [] {
      NothingHeld(0);
    } else {
      assert [] + slots == slots;
      RoundsHeld([], slots);
      FreshIff(slots, r);
      var k :| 0 <= k < |Fresh(slots)| && Fresh(slots)[k] == r;
      assert Between(Fresh(slots), k, k, r);
      CoveredIffBridged([], slots, r);
      NotedEnds([], slots);
    }
  }

  /** Over any run of polls that saw an account in time order and without a collision, no
      claim about it is wrong exactly when, after every round held from its first version
      on, it was next seen unchanged. */
  lemma ClaimsRightIff(f: Foreign, answers: seq<Answer>, a: Address)
    requires var obs := ObservationsOf(answers, a); InOrder([], obs) && NoCollision(f, [], obs)
    ensures var vs := Of(PolledBook(f, answers), a);
            var obs := ObservationsOf(answers, a);
            NeverWrong(vs, PolledRounds(answers), PolledCover(answers), obs)
            <==> SeenAfterRounds(vs, PolledRounds(answers), obs)
  {
    hide ObservationsOf, InOrder, NoCollision, Left, NeverWrong, SeenAfterRounds, Covered, RoundsAfter, NoteAll,
         PollAll;
    PolledLeft(f, answers, a);
    forall r <- PolledRounds(answers) ensures Covered(PolledCover(answers), r) {
      HeldIsCovered(SlotsOf(answers), r);
    }
    NeverWrongIff(f, ObservationsOf(answers, a), PolledRounds(answers), PolledCover(answers));
  }

  /** Every answer carries the account, as when all that is watched fits one chunk. */
  predicate AlwaysSeen(answers: seq<Answer>, a: Address) {
    forall i :: 0 <= i < |answers| ==> exists s <- answers[i].seen :: s.address == a
  }

  lemma {:induction false} SeenInChunk(slot: u64, seen: seq<Seen>, a: Address)
    requires exists s <- seen :: s.address == a
    ensures exists o <- SeenOf(slot, seen, a) :: o.slot == slot
  {
    var last := seen[|seen| - 1];
    var rest := SeenOf(slot, seen[..|seen| - 1], a);
    if last.address == a {
      assert (rest + [Observation(slot, last.state)])[|rest|].slot == slot;
      assert Observation(slot, last.state) in SeenOf(slot, seen, a);
    } else {
      var s :| s in seen && s.address == a;
      assert s in seen[..|seen| - 1];
      SeenInChunk(slot, seen[..|seen| - 1], a);
    }
  }

  lemma {:induction false} SeenAtRound(answers: seq<Answer>, a: Address, r: u64)
    requires AlwaysSeen(answers, a) && r in SlotsOf(answers)
    ensures exists o <- ObservationsOf(answers, a) :: o.slot == r
  {
    var n := |answers| - 1;
    var last := answers[n];
    if last.slot == r {
      SeenInChunk(last.slot, last.seen, a);
      var o :| o in SeenOf(last.slot, last.seen, a) && o.slot == r;
      assert o in ObservationsOf(answers, a);
    } else {
      SeenAtRound(answers[..n], a, r);
      var o :| o in ObservationsOf(answers[..n], a) && o.slot == r;
      assert o in ObservationsOf(answers, a);
    }
  }

  /** So when every answer carries the account, no claim about it is ever wrong. */
  lemma OneChunkIsRight(f: Foreign, answers: seq<Answer>, a: Address)
    requires var obs := ObservationsOf(answers, a); InOrder([], obs) && NoCollision(f, [], obs)
    requires AlwaysSeen(answers, a)
    ensures NeverWrong(Of(PolledBook(f, answers), a), PolledRounds(answers), PolledCover(answers),
                       ObservationsOf(answers, a))
  {
    hide ObservationsOf, NoCollision, Left, NeverWrong, Covered, RoundsAfter, NoteAll, PollAll, Lookup, AlwaysSeen,
         PolledBook, PolledCover;
    var obs := ObservationsOf(answers, a);
    var vs := Of(PolledBook(f, answers), a);
    PolledLeft(f, answers, a);
    forall r <- PolledRounds(answers) | Lookup(vs, r).Some? ensures NextSaw(vs, obs, r) {
      HeldIsCovered(SlotsOf(answers), r);
      SeenAtRound(answers, a, r);
      var o :| o in obs && o.slot == r;
      var j :| 0 <= j < |obs| && obs[j] == o;
      LeftAnswers(f, obs, j, r);
      assert NextIs(obs, j, r);
    }
    ClaimsRightIff(f, answers, a);
  }

  // ---------------------------------------------------------------------------
  // A claim that is wrong

  /** Two chunks in turn: one account seen at 100 and 104, another at 102. */
  function TwoChunks(x: Address, y: Address, s: AccountState, t: AccountState): seq<Answer> {
    [Answer(100, [Seen(x, Some(s))]), Answer(102, [Seen(y, None)]), Answer(104, [Seen(x, Some(t))])]
  }

  lemma TwoChunksNote(x: Address, y: Address, s: AccountState, t: AccountState)
    ensures PolledRounds(TwoChunks(x, y, s, t)) == [100, 102, 104]
    ensures PolledCover(TwoChunks(x, y, s, t)) == [Span(100, 104)]
  {
    var answers := TwoChunks(x, y, s, t);
    assert answers[..2][..1] == answers[..1] && answers[..1][..0] == [];
    assert SlotsOf(answers[..1]) == [100];
    assert SlotsOf(answers[..2]) == [100, 102];
    assert SlotsOf(answers) == [100, 102, 104];
    ThreeRounds();
  }

  lemma ThreeRounds()
    ensures RoundsAfter([], [100, 102, 104]) == [100, 102, 104]
    ensures NoteAll([], [100, 102, 104]) == [Span(100, 104)]
  {
    hide RoundsAfter, NoteAll, AtOrAfter;
    var none, one, two, three: seq<u64> := [], [100], [100, 102], [100, 102, 104];
    NothingNoted([], none);
    NotedNext([], [], none, 100);
    NotedNext([], [], one, 102);
    NotedNext([], [], two, 104);
    assert none + [100] == one && one + [102] == two && two + [104] == three;
  }

  lemma SeesOne(slot: u64, s: Seen, a: Address)
    ensures SeenOf(slot, [s], a) == if s.address == a then [Observation(slot, s.state)] else []
  {
    assert [s][..0] == [];
    assert SeenOf(slot, [], a) == [];
  }

  lemma TwoChunksSee(x: Address, y: Address, s: AccountState, t: AccountState)
    requires x != y
    ensures ObservationsOf(TwoChunks(x, y, s, t), x) == [Observation(100, Some(s)), Observation(104, Some(t))]
  {
    hide SeenOf;
    var answers := TwoChunks(x, y, s, t);
    assert answers[..2][..1] == answers[..1] && answers[..1][..0] == [];
    SeesOne(100, Seen(x, Some(s)), x);
    SeesOne(102, Seen(y, None), x);
    SeesOne(104, Seen(x, Some(t)), x);
    assert ObservationsOf(answers[..1], x) == [Observation(100, Some(s))];
    assert ObservationsOf(answers[..2], x) == [Observation(100, Some(s))];
  }

  /** The round at 102 never saw the account, which may have changed at 101: what is
      claimed exact there is not what it held. */
  lemma AnotherChunksRound(f: Foreign, x: Address, y: Address, s: AccountState, t: AccountState)
    requires x != y && f.digest(Some(s)) != f.digest(Some(t))
    ensures var answers := TwoChunks(x, y, s, t);
            var vs := Of(PolledBook(f, answers), x);
            && Claimed(vs, PolledRounds(answers), PolledCover(answers), 101)
            && Lookup(vs, 101) == Some(Version(100, Some(s), true))
            && exists h: History ::
                 Tells(h, ObservationsOf(answers, x)) && Steady(h, ObservationsOf(answers, x)) && h(101) == Some(t)
  {
    hide TwoChunks, PolledBook, PolledRounds, PolledCover, ObservationsOf;
    var answers := TwoChunks(x, y, s, t);
    var obs := [Observation(100, Some(s)), Observation(104, Some(t))];
    TwoChunksSee(x, y, s, t);
    TwoChunksNote(x, y, s, t);
    PolledLeft(f, answers, x);
    ChangeIsKept(f, s, t);
    var vs := Left(f, obs);
    var rounds: seq<u64> := [100, 102, 104];
    assert 102 == rounds[1] && Lookup(vs, 102) == Lookup(vs, 101);
    assert Coverage.Holds([Span(100, 104)][0], Span(101, 101));
    var h: History := (u: u64) => if u <= 100 then Some(s) else Some(t);
    assert Tells(h, obs) && Steady(h, obs) && h(101) == Some(t);
  }

  lemma ChangeIsKept(f: Foreign, s: AccountState, t: AccountState)
    requires f.digest(Some(s)) != f.digest(Some(t))
    ensures var vs := Left(f, [Observation(100, Some(s)), Observation(104, Some(t))]);
            Lookup(vs, 101) == Lookup(vs, 102) == Some(Version(100, Some(s), true))
  {
    var obs := [Observation(100, Some(s)), Observation(104, Some(t))];
    assert obs[..1] == [obs[0]] && obs[..1][..0] == [];
    assert ObserveAll(f, [], obs[..1]) == [Version(100, Some(s), true)];
    var vs := Left(f, obs);
    assert vs == [Version(100, Some(s), true), Version(104, Some(t), true)];
    assert vs[..1] == [Version(100, Some(s), true)];
  }
}
