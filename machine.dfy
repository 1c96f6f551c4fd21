/**
 * The virtual machine of `interpret` (src/main.rs:118-218): one iteration of its loop as
 * the function Exec, and the loop itself as the fuel-bounded function Run.
 */
module Machine {
  import opened Wrappers
  import opened Tokens
  import opened Instructions
  import opened Division

  /** What Ochr and Onum print: a character (the byte `to_u8` yields) or a number. */
  datatype Out = Chr(code: byte) | Num(value: int)

  /** Why the loop panics, one constructor per kind of failed `unwrap`, index or division. */
  datatype Fault =
    | StackUnderflow            // a pop or a stack index past the bottom of the stack
    | NotUsize(arg: int)        // `to_usize().unwrap()` on a Copy or Slide argument
    | UndefinedLabel(name: int)
    | EmptyCallStack            // Ret with no pending Call
    | MissingHeapKey(key: int)  // Load of a key never stored
    | DivisionByZero
    | NotAByte(value: int)      // `to_u8().unwrap()` in Ochr
    | BadNumber(line: seq<byte>) // the line read by Inum does not parse

  /**
   * The loop's locals (`stack`, `calls`, `heap`, `ip`, `n`) together with the part of
   * stdin not yet read and what has been printed so far.
   */
  datatype State = State(
    stack: seq<int>, calls: seq<nat>, heap: map<int, int>, ip: nat, n: nat,
    input: seq<byte>, output: seq<Out>)

  /** How the text of a line read by Inum becomes a number (`trim_end().parse::<Num>()`). */
  type LineParser = seq<byte> -> Option<int>

  /** The end of one iteration: go on, leave the loop at Exit, or panic. */
  datatype Step = Next(next: State) | Stop(last: State) | Fail(fault: Fault)

  /**
   * The end of a run: the loop finished (Exit, or `ip` past the last instruction), a
   * panic in the instruction at `at.ip`, or the fuel ran out first.
   */
  datatype Outcome = Halted(final: State) | Crashed(fault: Fault, at: State) | OutOfFuel(paused: State)

  /** `usize` on a 64-bit target: what `to_usize` accepts. */
  const UsizeLimit: int := 0x1_0000_0000_0000_0000

  predicate IsUsize(v: int) {
    0 <= v < UsizeLimit
  }

  /** The state `interpret` starts from, with `input` the whole of stdin. */
  function Start(input: seq<byte>): State {
    State([], [], map[], 0, 0, input, [])
  }

  /** Label and `Insn::None` undo the loop's `n += 1`; every other instruction is counted. */
  function Counted(insn: Insn): nat {
    if insn.Label? || insn == NoInsn then 0 else 1
  }

  function Top(stack: seq<int>): int
    requires stack != []
  {
    stack[|stack| - 1]
  }

  function Popped(stack: seq<int>): seq<int>
    requires stack != []
  {
    stack[..|stack| - 1]
  }

  /** Where the line `read_line` takes from `input[i..]` ends: one past its newline byte, or the end. */
  function LineEnd(input: seq<byte>, i: nat): (e: nat)
    requires i <= |input|
    ensures i <= e <= |input|
    ensures forall j :: i <= j < e - 1 ==> input[j] != 10
    ensures e == |input| || (i < e && input[e - 1] == 10)
    decreases |input| - i
  {
    if i == |input| then i
    else if input[i] == 10 then i + 1
    else LineEnd(input, i + 1)
  }

  /** The line `read_line` takes from `input`: up to and including the first newline byte. */
  function Line(input: seq<byte>): (line: seq<byte>)
    ensures line <= input
    ensures 10 in line ==> line[|line| - 1] == 10 && 10 !in line[..|line| - 1]
    ensures 10 !in line ==> line == input
  {
    input[..LineEnd(input, 0)]
  }

  /** The arithmetic instructions, which pop `r` and combine it into the new top. */
  predicate IsArith(insn: Insn) {
    insn == Add || insn == Sub || insn == Mul || insn == Div || insn == Mod
  }

  /** `l op r` as BigInt computes it; None where BigInt panics (a zero divisor). */
  function Arith(insn: Insn, l: int, r: int): (v: Option<int>)
    requires IsArith(insn)
    ensures v.None? <==> (insn == Div || insn == Mod) && r == 0
  {
    match insn
    case Add => Some(l + r)
    case Sub => Some(l - r)
    case Mul => Some(l * r)
    case Div => if r == 0 then None else Some(TDiv(l, r))
    case Mod => if r == 0 then None else Some(TMod(l, r))
  }

  /**
   * What the arm of `match insn` for one instruction does: go on from the instruction
   * after `target` with the stack, call stack, heap and streams of `after`; break out of
   * the loop (Exit); or panic.
   */
  datatype Effect = Continue(after: State, target: nat) | Break | Panic(fault: Fault)

  /** The instructions that only rearrange the operand stack. */
  predicate IsShuffle(insn: Insn) {
    insn.Push? || insn.Copy? || insn.Slide? || insn == Pop || insn == Dup || insn == Swap
  }

  /** The instructions that move `ip`, leave the loop, or do nothing. */
  predicate IsControl(insn: Insn) {
    insn.Label? || insn == NoInsn || insn.Call? || insn.Jump? || insn.Jz? || insn.Jn? || insn == Ret || insn == Exit
  }

  /** The instructions that write or read the heap. */
  predicate IsMemory(insn: Insn) {
    insn == Store || insn == Load || insn == Ichr || insn == Inum
  }

  /** The instructions that print. */
  predicate IsOutput(insn: Insn) {
    insn == Ochr || insn == Onum
  }

  /** The arms of Push, Copy, Slide, Pop, Dup and Swap (src/main.rs:128-136, 153-160). */
  function ShuffleArm(insn: Insn, s: State): Effect
    requires IsShuffle(insn)
  {
    var st := s.stack;
    match insn
    case Push(v) => Continue(s.(stack := st + [v]), s.ip)
    case Copy(k) =>
      if !IsUsize(k) then Panic(NotUsize(k))
      else if k >= |st| then Panic(StackUnderflow)
      else Continue(s.(stack := st + [st[|st| - 1 - k]]), s.ip)
    case Slide(k) =>
      if !IsUsize(k) then Panic(NotUsize(k))
      else if k >= |st| then Panic(StackUnderflow)
      else Continue(s.(stack := st[..|st| - 1 - k] + [Top(st)]), s.ip)
    case Pop => Continue(s.(stack := if st == [] then [] else Popped(st)), s.ip)
    case Dup =>
      if st == [] then Panic(StackUnderflow)
      else Continue(s.(stack := st + [Top(st)]), s.ip)
    case Swap =>
      if |st| < 2 then Panic(StackUnderflow)
      else Continue(s.(stack := st[|st| - 1 := st[|st| - 2]][|st| - 2 := st[|st| - 1]]), s.ip)
  }

  /** The arms of Add, Sub, Mul, Div and Mod (src/main.rs:161-185). */
  function ArithArm(insn: Insn, s: State): Effect
    requires IsArith(insn)
  {
    var st := s.stack;
    if |st| < 2 then Panic(StackUnderflow)
    else
      var v := Arith(insn, st[|st| - 2], st[|st| - 1]);
      if v.None? then Panic(DivisionByZero)
      else Continue(s.(stack := Popped(st)[|st| - 2 := v.value]), s.ip)
  }

  /** The arms of Label, None, Call, Jump, Jz, Jn, Ret and Exit (src/main.rs:137-152, 195, 212). */
  function ControlArm(insn: Insn, labels: map<int, nat>, s: State): Effect
    requires IsControl(insn)
  {
    var st := s.stack;
    match insn
    case Label(_) => Continue(s, s.ip)
    case NoInsn => Continue(s, s.ip)
    case Call(v) =>
      if v !in labels then Panic(UndefinedLabel(v))
      else Continue(s.(calls := s.calls + [s.ip]), labels[v])
    case Jump(v) =>
      if v !in labels then Panic(UndefinedLabel(v))
      else Continue(s, labels[v])
    case Jz(v) =>
      if st == [] then Panic(StackUnderflow)
      else if Top(st) != 0 then Continue(s.(stack := Popped(st)), s.ip)
      else if v !in labels then Panic(UndefinedLabel(v))
      else Continue(s.(stack := Popped(st)), labels[v])
    case Jn(v) =>
      if st == [] then Panic(StackUnderflow)
      else if Top(st) >= 0 then Continue(s.(stack := Popped(st)), s.ip)
      else if v !in labels then Panic(UndefinedLabel(v))
      else Continue(s.(stack := Popped(st)), labels[v])
    case Ret =>
      if s.calls == [] then Panic(EmptyCallStack)
      else Continue(s.(calls := s.calls[..|s.calls| - 1]), s.calls[|s.calls| - 1])
    case Exit => Break
  }

  /** The arms of Store, Load, Ichr and Inum (src/main.rs:186-194, 196-207). */
  function MemoryArm(insn: Insn, parse: LineParser, s: State): Effect
    requires IsMemory(insn)
  {
    var st := s.stack;
    match insn
    case Store =>
      if |st| < 2 then Panic(StackUnderflow)
      else Continue(s.(stack := st[..|st| - 2], heap := s.heap[st[|st| - 2] := st[|st| - 1]]), s.ip)
    case Load =>
      if st == [] then Panic(StackUnderflow)
      else if Top(st) !in s.heap then Panic(MissingHeapKey(Top(st)))
      else Continue(s.(stack := Popped(st) + [s.heap[Top(st)]]), s.ip)
    case Ichr =>
      if st == [] then Panic(StackUnderflow)
      else
        var b := if s.input == [] then 0 else s.input[0];
        var rest := if s.input == [] then [] else s.input[1..];
        Continue(s.(stack := Popped(st), heap := s.heap[Top(st) := b], input := rest), s.ip)
    case Inum =>
      if st == [] then Panic(StackUnderflow)
      else
        var line := Line(s.input);
        var v := parse(line);
        if v.None? then Panic(BadNumber(line))
        else Continue(s.(stack := Popped(st), heap := s.heap[Top(st) := v.value], input := s.input[|line|..]), s.ip)
  }

  /** The arms of Ochr and Onum (src/main.rs:208-211). */
  function OutputArm(insn: Insn, s: State): Effect
    requires IsOutput(insn)
  {
    var st := s.stack;
    if st == [] then Panic(StackUnderflow)
    else if insn == Ochr then
      if !(0 <= Top(st) < 256) then Panic(NotAByte(Top(st)))
      else Continue(s.(stack := Popped(st), output := s.output + [Chr(Top(st))]), s.ip)
    else Continue(s.(stack := Popped(st), output := s.output + [Num(Top(st))]), s.ip)
  }

  /** The arm of `match insn` for the instruction at `s.ip` (src/main.rs:127-213). */
  function Arm(insns: seq<Insn>, labels: map<int, nat>, parse: LineParser, s: State): Effect
    requires s.ip < |insns|
  {
    var insn := insns[s.ip];
    if IsShuffle(insn) then ShuffleArm(insn, s)
    else if IsArith(insn) then ArithArm(insn, s)
    else if IsControl(insn) then ControlArm(insn, labels, s)
    else if IsMemory(insn) then MemoryArm(insn, parse, s)
    else OutputArm(insn, s)
  }

  /**
   * One iteration of the loop (src/main.rs:124-215): `n += 1` (undone by Label), the arm,
   * then `ip += 1` unless the arm broke out of the loop.
   */
  function Exec(insns: seq<Insn>, labels: map<int, nat>, parse: LineParser, s: State): Step
    requires s.ip < |insns|
  {
    match Arm(insns, labels, parse, s)
    case Continue(u, target) => Next(u.(ip := target + 1, n := s.n + Counted(insns[s.ip])))
    case Break => Stop(s.(n := s.n + 1))
    case Panic(f) => Fail(f)
  }

  /**
   * The loop `while let Some(insn) = insns.get(ip)` for at most `fuel` iterations; a
   * crash reports the state before the instruction that panicked.
   */
  function Run(insns: seq<Insn>, labels: map<int, nat>, parse: LineParser, s: State, fuel: nat): Outcome
    decreases fuel, 1
  {
    if s.ip >= |insns| then Halted(s)
    else if fuel == 0 then OutOfFuel(s)
    else Advance(insns, labels, parse, s, fuel)
  }

  /** A run from an instruction of the program with fuel left: one iteration, then the rest. */
  function Advance(insns: seq<Insn>, labels: map<int, nat>, parse: LineParser, s: State, fuel: nat): Outcome
    requires s.ip < |insns| && fuel > 0
    decreases fuel, 0
  {
    match Exec(insns, labels, parse, s)
    case Next(t) => Run(insns, labels, parse, t, fuel - 1)
    case Stop(t) => Halted(t)
    case Fail(f) => Crashed(f, s)
  }

  /** The first iteration of a run: what it leads to once it completes, breaks or panics. */
  lemma Iterate(insns: seq<Insn>, labels: map<int, nat>, parse: LineParser, s: State, fuel: nat, r: Step)
    requires s.ip < |insns| && fuel > 0 && r == Exec(insns, labels, parse, s)
    ensures (r.Next? ==> Run(insns, labels, parse, s, fuel) == Run(insns, labels, parse, r.next, fuel - 1)) &&
      (r.Stop? ==> Run(insns, labels, parse, s, fuel) == Halted(r.last)) &&
      (r.Fail? ==> Run(insns, labels, parse, s, fuel) == Crashed(r.fault, s))
  {
  }

  /** An iteration goes on exactly when its arm continues, at the arm's target plus one. */
  lemma ExecArm(insns: seq<Insn>, labels: map<int, nat>, parse: LineParser, s: State)
    requires s.ip < |insns|
    ensures var r, e := Exec(insns, labels, parse, s), Arm(insns, labels, parse, s);
      (r.Next? <==> e.Continue?) &&
      (r.Next? ==> r.next == e.after.(ip := e.target + 1, n := s.n + Counted(insns[s.ip])))
  {
  }

  /** A run halts once `ip` leaves the program, and pauses where the fuel runs out. */
  lemma Ended(insns: seq<Insn>, labels: map<int, nat>, parse: LineParser, s: State, fuel: nat)
    requires s.ip >= |insns| || fuel == 0
    ensures Run(insns, labels, parse, s, fuel) == if s.ip >= |insns| then Halted(s) else OutOfFuel(s)
  {
  }
}
