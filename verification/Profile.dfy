/** Attributing a frame's instruction trace to functions and folded stacks
    (src/profile.rs). */
module Profile {
  import opened Bytes
  import opened Wrappers

  datatype Opcode = CallImm | Exit | Other

  datatype Insn = Insn(opc: Opcode, src: nat, imm: int)

  /** The executable: its text, where its functions start, and its registries. */
  datatype Code = Code(text: seq<Insn>, functions: set<nat>, staticSyscalls: bool,
                       syscalls: map<u32, string>, registry: map<u32, nat>)

  /** The start of the function a program counter lies in. */
  function Enclosing(fs: set<nat>, pc: nat): (r: nat)
    ensures r <= pc && (r == 0 || r in fs)
    ensures forall f :: r < f <= pc ==> f !in fs
  {
    if pc in fs || pc == 0 then pc else Enclosing(fs, pc - 1)
  }

  datatype Effect = Syscall(name: string) | Call(target: nat) | Return | Nothing

  function AsU32(n: int): u32 { n % U32_LIMIT }

  /** What an instruction does to the stack, resolved as the interpreter does. */
  function EffectOf(code: Code, pc: nat): Effect
    requires pc < |code.text|
  {
    var insn := code.text[pc];
    match insn.opc
    case CallImm =>
      var key := AsU32(insn.imm);
      if (!code.staticSyscalls || insn.src == 0) && key in code.syscalls then Syscall(code.syscalls[key])
      else if code.staticSyscalls then
        if insn.src == 1 then Call((pc + 1 + insn.imm) % U64_LIMIT) else Nothing
      else if key in code.registry then Call(code.registry[key])
      else Nothing
    case Exit => Return
    case Other => Nothing
  }

  // ---------------------------------------------------------------------------
  // One instruction

  type Stack = seq<nat>

  /** Every map the profile counts in. */
  datatype Counts = Counts(self: map<nat, nat>, total: map<nat, nat>, calls: map<nat, nat>,
                           stacks: map<Stack, nat>, syscalls: map<string, nat>, events: seq<(nat, string)>)

  datatype State = State(stack: Stack, counts: Counts)

  function Bump<K>(m: map<K, nat>, k: K): map<K, nat> { m[k := (if k in m then m[k] else 0) + 1] }

  function LastIndex(s: Stack, f: nat): (r: Option<nat>)
    ensures r.Some? ==> r.value < |s| && s[r.value] == f && forall i :: r.value < i < |s| ==> s[i] != f
    ensures r.None? <==> f !in s
  {
    if s == [] then None else if s[|s| - 1] == f then Some(|s| - 1) else LastIndex(s[..|s| - 1], f)
  }

  /** The stack made to end in the function the program counter is in. */
  function Align(s: Stack, here: nat): (r: Stack)
    ensures r != [] && r[|r| - 1] == here
  {
    if s != [] && s[|s| - 1] == here then s
    else
      match LastIndex(s, here)
      case Some(pos) => s[..pos + 1]
      case None => s + [here]
  }

  predicate Pushes(s: Stack, here: nat) { here !in s }

  /** One more instruction in each function on the stack, as often as it is there. */
  function BumpAll(m: map<nat, nat>, s: Stack): map<nat, nat> {
    if s == [] then m else Bump(BumpAll(m, s[..|s| - 1]), s[|s| - 1])
  }

  function Step(code: Code, st: State, pc: nat): State
    requires pc < |code.text|
  {
    var here := Enclosing(code.functions, pc);
    var s, c := Align(st.stack, here), st.counts;
    var counted := c.(self := Bump(c.self, here), total := BumpAll(c.total, s), stacks := Bump(c.stacks, s),
                      calls := if Pushes(st.stack, here) then Bump(c.calls, here) else c.calls);
    Apply(EffectOf(code, pc), here, State(s, counted))
  }

  /** What the instruction itself does, once counted. */
  function Apply(e: Effect, here: nat, st: State): State {
    match e
    case Syscall(name) =>
      st.(counts := st.counts.(syscalls := Bump(st.counts.syscalls, name), events := st.counts.events + [(here, name)]))
    case Call(t) => State(st.stack + [t], st.counts.(calls := Bump(st.counts.calls, t)))
    case Return => if st.stack == [] then st else st.(stack := st.stack[..|st.stack| - 1])
    case Nothing => st
  }

  predicate InText(code: Code, trace: seq<nat>) { forall i :: 0 <= i < |trace| ==> trace[i] < |code.text| }

  function Start(code: Code, first: nat): State {
    var f := Enclosing(code.functions, first);
    State([f], Counts(map[], map[], map[f := 1], map[], map[], []))
  }

  /** The state after the first `n` instructions. */
  function After(code: Code, trace: seq<nat>, n: nat): State
    requires trace != [] && n <= |trace| && InText(code, trace)
  {
    if n == 0 then Start(code, trace[0]) else Step(code, After(code, trace, n - 1), trace[n - 1])
  }

  lemma AfterNext(code: Code, trace: seq<nat>, n: nat, next: nat)
    requires next == n + 1 <= |trace| && InText(code, trace)
    ensures trace[n] < |code.text|
    ensures After(code, trace, next) == Step(code, After(code, trace, n), trace[n])
  {
    hide Step;
  }

  lemma AfterNone(code: Code, trace: seq<nat>)
    requires trace != [] && InText(code, trace)
    ensures After(code, trace, 0) == Start(code, trace[0])
  {
  }

  method ProfileFrame(code: Code, trace: seq<nat>) returns (r: Option<Counts>)
    requires InText(code, trace)
    ensures r == if trace == [] then None else Some(After(code, trace, |trace|).counts)
  {
    if trace == [] {
      r := None;
    } else {
      var counts := CountTrace(code, trace);
      r := Some(counts);
    }
  }

  method CountTrace(code: Code, trace: seq<nat>) returns (counts: Counts)
    requires trace != [] && InText(code, trace)
    ensures counts == After(code, trace, |trace|).counts
  {
    hide After, Step;
    AfterNone(code, trace);
    var stack: Stack := [Enclosing(code.functions, trace[0])];
    counts := Counts(map[], map[], map[stack[0] := 1], map[], map[], []);
    for n := 0 to |trace|
      invariant After(code, trace, n) == State(stack, counts)
    {
      AfterNext(code, trace, n, n + 1);
      stack, counts := CountOne(code, stack, counts, trace[n]);
    }
  }

  /** One instruction counted, and its effect on the stack. */
  method CountOne(code: Code, stack: Stack, counts: Counts, pc: nat) returns (s: Stack, c: Counts)
    requires pc < |code.text|
    ensures State(s, c) == Step(code, State(stack, counts), pc)
  {
    hide Bump, BumpAll, Enclosing, EffectOf, Align, Pushes;
    c := counts;
    var here := Enclosing(code.functions, pc);
    var pushed;
    s, pushed := AlignTo(stack, here);
    if pushed {
      c := c.(calls := Bump(c.calls, here));
    }
    var total := CountAll(c.total, s);
    c := c.(self := Bump(c.self, here), total := total, stacks := Bump(c.stacks, s));
    match EffectOf(code, pc)
    case Syscall(name) => c := c.(syscalls := Bump(c.syscalls, name), events := c.events + [(here, name)]);
    case Call(t) => s, c := s + [t], c.(calls := Bump(c.calls, t));
    case Return => s := s[..|s| - 1];
    case Nothing =>
  }

  /** The stack kept honest against the trace: the function of the program counter
      wins. */
  method AlignTo(s: Stack, here: nat) returns (r: Stack, pushed: bool)
    ensures r == Align(s, here) && pushed == Pushes(s, here)
  {
    r, pushed := s, false;
    if s == [] || s[|s| - 1] != here {
      var pos := LastIndex(s, here);
      if pos.Some? {
        r := s[..pos.value + 1];
      } else {
        r, pushed := s + [here], true;
      }
    }
  }

  method CountAll(m: map<nat, nat>, s: Stack) returns (r: map<nat, nat>)
    ensures r == BumpAll(m, s)
  {
    r := m;
    for i := 0 to |s|
      invariant r == BumpAll(m, s[..i])
    {
      assert s[..i + 1][..i] == s[..i];
      r := Bump(r, s[i]);
    }
    assert s[..|s|] == s;
  }
}
