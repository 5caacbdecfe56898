/** Every traced instruction is counted once: conservation over a frame's profile, and
    what the attributed stack keeps (src/profile.rs). */
module ProfileLaws {
  import opened Profile

  // ---------------------------------------------------------------------------
  // Weighted sums over a map

  /** Every entry's count times its key's weight. */
  ghost function SumBy<K(!new)>(m: map<K, nat>, w: K -> nat): nat {
    if m == map[] then 0
    else
      var k :| k in m;
      m[k] * w(k) + SumBy(m - {k}, w)
  }

  lemma {:induction false} SumWithout<K(!new)>(m: map<K, nat>, w: K -> nat, k: K)
    requires k in m
    ensures SumBy(m, w) == m[k] * w(k) + SumBy(m - {k}, w)
    decreases |m|
  {
    var j :| j in m && SumBy(m, w) == m[j] * w(j) + SumBy(m - {j}, w);
    if j != k {
      SumWithout(m - {j}, w, k);
      SumWithout(m - {k}, w, j);
      assert m - {j} - {k} == m - {k} - {j};
    }
  }

  lemma SumBumped<K(!new)>(m: map<K, nat>, w: K -> nat, k: K)
    ensures SumBy(Bump(m, k), w) == SumBy(m, w) + w(k)
  {
    var b := Bump(m, k);
    SumWithout(b, w, k);
    if k in m {
      SumWithout(m, w, k);
      assert b - {k} == m - {k};
      assert (m[k] + 1) * w(k) == m[k] * w(k) + w(k);
    } else {
      assert b - {k} == m;
    }
  }

  // ---------------------------------------------------------------------------
  // Conservation

  function One<K>(): K -> nat { _ => 1 }

  /** Whether a stack ends in a function. */
  function EndsIn(f: nat): Stack -> nat { (s: Stack) => if s != [] && s[|s| - 1] == f then 1 else 0 }

  function CopiesIn(s: Stack, f: nat): nat {
    if s == [] then 0 else CopiesIn(s[..|s| - 1], f) + if s[|s| - 1] == f then 1 else 0
  }

  /** How often a function is on a stack. */
  function Copies(f: nat): Stack -> nat { (s: Stack) => CopiesIn(s, f) }

  function Get(m: map<nat, nat>, k: nat): nat { if k in m then m[k] else 0 }

  /** What a function's counts are, told by the folded stacks alone. */
  ghost predicate Told(c: Counts, f: nat) {
    Get(c.self, f) == SumBy(c.stacks, EndsIn(f)) && Get(c.total, f) == SumBy(c.stacks, Copies(f))
  }

  lemma {:induction false} BumpAllCounts(m: map<nat, nat>, s: Stack, f: nat)
    ensures Get(BumpAll(m, s), f) == Get(m, f) + CopiesIn(s, f)
  {
    if s != [] {
      BumpAllCounts(m, s[..|s| - 1], f);
    }
  }

  /** Each instruction is counted in one function and one stack, and once for every
      copy of every function on it. */
  lemma StepCounts(code: Code, trace: seq<nat>, n: nat)
    requires 0 < n <= |trace| && InText(code, trace)
    ensures var here, s := Enclosing(code.functions, trace[n - 1]), CountedUnder(code, trace, n - 1);
            Counted(After(code, trace, n - 1).counts, After(code, trace, n).counts, here, s)
  {
    hide After, Step, Enclosing, Align, Counted;
    AfterNext(code, trace, n - 1, n);
    StepCountsOne(code, After(code, trace, n - 1), trace[n - 1]);
  }

  predicate Counted(c: Counts, d: Counts, here: nat, s: Stack) {
    && d.self == Bump(c.self, here) && d.total == BumpAll(c.total, s) && d.stacks == Bump(c.stacks, s)
    && s != [] && s[|s| - 1] == here
  }

  lemma StepCountsOne(code: Code, st: State, pc: nat)
    requires pc < |code.text|
    ensures var here := Enclosing(code.functions, pc);
            Counted(st.counts, Step(code, st, pc).counts, here, Align(st.stack, here))
  {
    hide Enclosing, BumpAll, Bump, Pushes, EffectOf, Align;
  }

  /** The stack instruction `n` is counted under. */
  function CountedUnder(code: Code, trace: seq<nat>, n: nat): Stack
    requires n < |trace| && InText(code, trace)
  {
    Align(After(code, trace, n).stack, Enclosing(code.functions, trace[n]))
  }

  lemma {:induction false} CountedOnce(code: Code, trace: seq<nat>, n: nat)
    requires trace != [] && n <= |trace| && InText(code, trace)
    ensures var c := After(code, trace, n).counts;
            SumBy(c.self, One()) == n && SumBy(c.stacks, One()) == n
  {
    hide After, CountedUnder, InText, Bump, BumpAll;
    if n > 0 {
      hide SumBy;
      CountedOnce(code, trace, n - 1);
      StepCounts(code, trace, n);
      var was := After(code, trace, n - 1).counts;
      SumBumped(was.self, One(), Enclosing(code.functions, trace[n - 1]));
      SumBumped(was.stacks, One(), CountedUnder(code, trace, n - 1));
    } else {
      AfterNone(code, trace);
    }
  }

  /** A function's self count is the total of the stacks ending in it, and its total
      count their sum weighted by how often each holds it. */
  lemma {:induction false} CountsToldByStacks(code: Code, trace: seq<nat>, n: nat, f: nat)
    requires trace != [] && n <= |trace| && InText(code, trace)
    ensures Told(After(code, trace, n).counts, f)
  {
    hide After, CountedUnder, InText, BumpAll;
    if n > 0 {
      hide SumBy, CopiesIn, Enclosing;
      CountsToldByStacks(code, trace, n - 1, f);
      StepCounts(code, trace, n);
      var was, s := After(code, trace, n - 1).counts, CountedUnder(code, trace, n - 1);
      SumBumped(was.stacks, EndsIn(f), s);
      SumBumped(was.stacks, Copies(f), s);
      BumpAllCounts(was.total, s, f);
    } else {
      AfterNone(code, trace);
    }
  }

  /** So no function has more to itself than in total. */
  lemma {:induction false} SelfWithinTotal(code: Code, trace: seq<nat>, n: nat, f: nat)
    requires trace != [] && n <= |trace| && InText(code, trace)
    ensures Get(After(code, trace, n).counts.self, f) <= Get(After(code, trace, n).counts.total, f)
  {
    hide After, CountedUnder, InText, BumpAll;
    if n > 0 {
      hide Enclosing;
      SelfWithinTotal(code, trace, n - 1, f);
      StepCounts(code, trace, n);
      BumpAllCounts(After(code, trace, n - 1).counts.total, CountedUnder(code, trace, n - 1), f);
    } else {
      AfterNone(code, trace);
    }
  }

  /** Every syscall counted is an event, and the other way round. */
  lemma {:induction false} SyscallsAreEvents(code: Code, trace: seq<nat>, n: nat)
    requires trace != [] && n <= |trace| && InText(code, trace)
    ensures SumBy(After(code, trace, n).counts.syscalls, One()) == |After(code, trace, n).counts.events|
  {
    hide After, Bump, BumpAll, Enclosing, Align, EffectOf;
    if n > 0 {
      hide SumBy;
      SyscallsAreEvents(code, trace, n - 1);
      AfterNext(code, trace, n - 1, n);
      match EffectOf(code, trace[n - 1])
      case Syscall(name) => SumBumped(After(code, trace, n - 1).counts.syscalls, One(), name);
      case _ =>
    } else {
      AfterNone(code, trace);
    }
  }

  /** Every function on the stack was entered, by a call or a realignment. */
  predicate AllEntered(st: State) {
    && (forall f <- st.stack :: Get(st.counts.calls, f) > 0)
    && (forall f <- st.counts.self :: Get(st.counts.calls, f) > 0)
  }

  lemma StepEnters(code: Code, st: State, pc: nat)
    requires pc < |code.text| && AllEntered(st)
    ensures AllEntered(Step(code, st, pc))
  {
    hide Enclosing, BumpAll, EffectOf, Align, AllEntered, Apply;
    var here, c := Enclosing(code.functions, pc), st.counts;
    var s := Align(st.stack, here);
    var calls := if Pushes(st.stack, here) then Bump(c.calls, here) else c.calls;
    var counted := c.(self := Bump(c.self, here), total := BumpAll(c.total, s), stacks := Bump(c.stacks, s),
          calls := calls);
    AlignEnters(st, here, counted);
    ApplyEnters(EffectOf(code, pc), here, State(s, counted));
  }

  lemma AlignEnters(st: State, here: nat, counted: Counts)
    requires AllEntered(st)
    requires counted.calls == if Pushes(st.stack, here) then Bump(st.counts.calls, here) else st.counts.calls
    requires counted.self == Bump(st.counts.self, here)
    ensures AllEntered(State(Align(st.stack, here), counted))
  {
    hide Align;
    AlignStays(st.stack, here);
  }

  lemma ApplyEnters(e: Effect, here: nat, st: State)
    requires AllEntered(st)
    ensures AllEntered(Apply(e, here, st))
  {
  }

  lemma AlignStays(s: Stack, here: nat)
    ensures forall f <- Align(s, here) :: f in s || f == here
  {
  }

  /** No function has instructions of its own without having been entered. */
  lemma {:induction false} NoneRunUnentered(code: Code, trace: seq<nat>, n: nat)
    requires trace != [] && n <= |trace| && InText(code, trace)
    ensures AllEntered(After(code, trace, n))
  {
    hide After, Step, InText, AllEntered;
    if n > 0 {
      NoneRunUnentered(code, trace, n - 1);
      AfterNext(code, trace, n - 1, n);
      StepEnters(code, After(code, trace, n - 1), trace[n - 1]);
    } else {
      AfterNone(code, trace);
      FirstIsEntered(code, trace[0]);
    }
  }

  lemma FirstIsEntered(code: Code, first: nat)
    ensures AllEntered(Start(code, first))
  {
    hide Enclosing;
  }

  // ---------------------------------------------------------------------------
  // The stack

  /** The stack's lowest `d` entries, where it has that many. */
  predicate Keeps(s: Stack, base: Stack) { base <= s }

  lemma AlignKeeps(s: Stack, here: nat, base: Stack)
    requires Keeps(s, base) && |Align(s, here)| >= |base|
    ensures Keeps(Align(s, here), base)
  {
  }

  /** As long as the stack never gets shorter than a frame's own, that frame and its
      callers stay where they are, whatever is called, returns or is realigned above. */
  lemma {:induction false} CallersStay(code: Code, trace: seq<nat>, i: nat, n: nat, base: Stack)
    requires i <= n <= |trace| && trace != [] && InText(code, trace)
    requires Keeps(After(code, trace, i).stack, base)
    requires forall k :: i <= k < n ==> LongEnough(code, trace, k, base)
    ensures Keeps(After(code, trace, n).stack, base)
    ensures forall k :: i <= k < n ==> Keeps(CountedUnder(code, trace, k), base)
  {
    hide After, InText, Align, Enclosing, BumpAll, EffectOf;
    if i < n {
      CallersStay(code, trace, i, n - 1, base);
      assert LongEnough(code, trace, n - 1, base);
      AlignKeeps(After(code, trace, n - 1).stack, Enclosing(code.functions, trace[n - 1]), base);
      AfterNext(code, trace, n - 1, n);
    }
  }

  /** Instruction `k` is counted under, and leaves, a stack no shorter than `base`. */
  predicate LongEnough(code: Code, trace: seq<nat>, k: nat, base: Stack)
    requires k < |trace| && InText(code, trace)
  {
    |CountedUnder(code, trace, k)| >= |base| && |After(code, trace, k + 1).stack| >= |base|
  }

  /** A call whose callee runs and exits with the stack never shorter meanwhile gives
      the caller its stack back. */
  lemma ReturnsToCaller(code: Code, trace: seq<nat>, i: nat, n: nat)
    requires i < n <= |trace| && InText(code, trace)
    requires EffectOf(code, trace[i]).Call?
    requires forall k :: i < k < n ==> LongEnough(code, trace, k, CountedUnder(code, trace, i))
    requires |After(code, trace, n).stack| == |CountedUnder(code, trace, i)|
    ensures After(code, trace, n).stack == CountedUnder(code, trace, i)
  {
    hide After, InText, Align, Enclosing, BumpAll, EffectOf, LongEnough;
    var base := CountedUnder(code, trace, i);
    AfterNext(code, trace, i, i + 1);
    CallersStay(code, trace, i + 1, n, base);
  }
}
