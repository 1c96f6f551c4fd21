/**
 * `interpret` (src/main.rs:118-218) as the source writes it: a loop whose arms update the
 * stack, call stack, heap and instruction pointer in place. Each group of arms is a
 * method proved to do what Machine.Exec says; the loop is proved to compute Machine.Run.
 */
module Interpreter {
  import opened Wrappers
  import opened Tokens
  import opened Instructions
  import opened Machine

  /** Push, Pop, Dup and Swap (src/main.rs:128, 153-160). */
  method Shuffle(insns: seq<Insn>, labels: map<int, nat>, parse: LineParser, s: State) returns (step: Step)
    requires s.ip < |insns| && IsShuffle(insns[s.ip]) && !insns[s.ip].Copy? && !insns[s.ip].Slide?
    ensures step == Exec(insns, labels, parse, s)
  {
    hide ArithArm, ControlArm, MemoryArm, OutputArm;
    assert Arm(insns, labels, parse, s) == ShuffleArm(insns[s.ip], s);
    var insn, stack := insns[s.ip], s.stack;
    if insn.Push? {
      stack := stack + [insn.arg];
    } else if insn == Pop {
      if stack != [] {
        stack := stack[..|stack| - 1];
      }
    } else if insn == Dup {
      if stack == [] {
        return Fail(StackUnderflow);
      }
      stack := stack + [stack[|stack| - 1]];
    } else {
      assert insn == Swap;
      if |stack| < 2 {
        return Fail(StackUnderflow);
      }
      var len := |stack|;
      stack := stack[len - 1 := stack[len - 2]][len - 2 := stack[len - 1]];
    }
    return Next(s.(stack := stack, ip := s.ip + 1, n := s.n + 1));
  }

  /** Copy and Slide, whose argument counts down from the top of the stack (src/main.rs:129-136). */
  method Pick(insns: seq<Insn>, labels: map<int, nat>, parse: LineParser, s: State) returns (step: Step)
    requires s.ip < |insns| && (insns[s.ip].Copy? || insns[s.ip].Slide?)
    ensures step == Exec(insns, labels, parse, s)
  {
    hide ArithArm, ControlArm, MemoryArm, OutputArm;
    assert Arm(insns, labels, parse, s) == ShuffleArm(insns[s.ip], s);
    var insn, stack := insns[s.ip], s.stack;
    var arg := insn.arg;
    if !IsUsize(arg) {
      return Fail(NotUsize(arg));
    }
    if arg >= |stack| {
      return Fail(StackUnderflow);
    }
    var top := |stack| - 1;
    if insn.Copy? {
      stack := stack + [stack[top - arg]];
    } else {
      stack := stack[..top - arg] + stack[top..];
    }
    return Next(s.(stack := stack, ip := s.ip + 1, n := s.n + 1));
  }

  /** Add, Sub, Mul, Div and Mod: pop `r`, then combine it into the new top (src/main.rs:161-185). */
  method Arithmetic(insns: seq<Insn>, labels: map<int, nat>, parse: LineParser, s: State) returns (step: Step)
    requires s.ip < |insns| && IsArith(insns[s.ip])
    ensures step == Exec(insns, labels, parse, s)
  {
    hide ShuffleArm, ControlArm, MemoryArm, OutputArm;
    assert Arm(insns, labels, parse, s) == ArithArm(insns[s.ip], s);
    var stack := s.stack;
    if |stack| < 2 {
      return Fail(StackUnderflow);
    }
    var r := stack[|stack| - 1];
    stack := stack[..|stack| - 1];
    var top := |stack| - 1;
    var v := Arith(insns[s.ip], stack[top], r);
    if v.None? {
      return Fail(DivisionByZero);
    }
    stack := stack[top := v.value];
    return Next(s.(stack := stack, ip := s.ip + 1, n := s.n + 1));
  }

  /** The arms that move `ip`, leave the loop or do nothing (src/main.rs:137-152, 195, 212). */
  method Control(insns: seq<Insn>, labels: map<int, nat>, parse: LineParser, s: State) returns (step: Step)
    requires s.ip < |insns| && IsControl(insns[s.ip])
    ensures step == Exec(insns, labels, parse, s)
  {
    hide ShuffleArm, ArithArm, MemoryArm, OutputArm;
    assert Arm(insns, labels, parse, s) == ControlArm(insns[s.ip], labels, s);
    var stack, calls, ip, n := s.stack, s.calls, s.ip, s.n + 1;
    var insn := insns[s.ip];
    if insn.Label? || insn == NoInsn {
      n := n - 1;
    } else if insn.Call? || insn.Jump? {
      var arg := insn.arg;
      if insn.Call? {
        calls := calls + [ip];
      }
      if arg !in labels {
        return Fail(UndefinedLabel(arg));
      }
      ip := labels[arg];
    } else if insn.Jz? || insn.Jn? {
      var arg := insn.arg;
      if stack == [] {
        return Fail(StackUnderflow);
      }
      var v := stack[|stack| - 1];
      stack := stack[..|stack| - 1];
      if (insn.Jz? && v == 0) || (insn.Jn? && v < 0) {
        if arg !in labels {
          return Fail(UndefinedLabel(arg));
        }
        ip := labels[arg];
      }
    } else if insn == Ret {
      if calls == [] {
        return Fail(EmptyCallStack);
      }
      ip := calls[|calls| - 1];
      calls := calls[..|calls| - 1];
    } else {
      assert insn == Exit;
      return Stop(s.(n := n));
    }
    return Next(s.(stack := stack, calls := calls, ip := ip + 1, n := n));
  }

  /** Store, Load and the two reads from stdin into the heap (src/main.rs:186-207). */
  method Memory(insns: seq<Insn>, labels: map<int, nat>, parse: LineParser, s: State) returns (step: Step)
    requires s.ip < |insns| && IsMemory(insns[s.ip])
    ensures step == Exec(insns, labels, parse, s)
  {
    hide ShuffleArm, ArithArm, ControlArm, OutputArm;
    assert Arm(insns, labels, parse, s) == MemoryArm(insns[s.ip], parse, s);
    var stack, heap, input := s.stack, s.heap, s.input;
    var insn := insns[s.ip];
    if insn == Store {
      if |stack| < 2 {
        return Fail(StackUnderflow);
      }
      var v := stack[|stack| - 1];
      var k := stack[|stack| - 2];
      stack := stack[..|stack| - 2];
      heap := heap[k := v];
    } else if insn == Load {
      if stack == [] {
        return Fail(StackUnderflow);
      }
      var k := stack[|stack| - 1];
      if k !in heap {
        return Fail(MissingHeapKey(k));
      }
      stack := stack[..|stack| - 1] + [heap[k]];
    } else if insn == Ichr {
      if stack == [] {
        return Fail(StackUnderflow);
      }
      var k := stack[|stack| - 1];
      stack := stack[..|stack| - 1];
      var b: byte := 0;
      if input != [] {
        b := input[0];
        input := input[1..];
      }
      heap := heap[k := b];
    } else {
      assert insn == Inum;
      if stack == [] {
        return Fail(StackUnderflow);
      }
      var k := stack[|stack| - 1];
      stack := stack[..|stack| - 1];
      var line := Line(input);
      input := input[|line|..];
      var v := parse(line);
      if v.None? {
        return Fail(BadNumber(line));
      }
      heap := heap[k := v.value];
    }
    return Next(s.(stack := stack, heap := heap, input := input, ip := s.ip + 1, n := s.n + 1));
  }

  /** Ochr and Onum: pop the top and print it (src/main.rs:208-211). */
  method Output(insns: seq<Insn>, labels: map<int, nat>, parse: LineParser, s: State) returns (step: Step)
    requires s.ip < |insns| && IsOutput(insns[s.ip])
    ensures step == Exec(insns, labels, parse, s)
  {
    hide ShuffleArm, ArithArm, ControlArm, MemoryArm;
    assert Arm(insns, labels, parse, s) == OutputArm(insns[s.ip], s);
    var stack := s.stack;
    if stack == [] {
      return Fail(StackUnderflow);
    }
    var v := stack[|stack| - 1];
    stack := stack[..|stack| - 1];
    var printed: Out;
    if insns[s.ip] == Ochr {
      if !(0 <= v < 256) {
        return Fail(NotAByte(v));
      }
      printed := Chr(v);
    } else {
      printed := Num(v);
    }
    return Next(s.(stack := stack, output := s.output + [printed], ip := s.ip + 1, n := s.n + 1));
  }

  /** One pass of the loop body: the arm of `match insn` for the instruction at `s.ip`. */
  method Execute(insns: seq<Insn>, labels: map<int, nat>, parse: LineParser, s: State) returns (step: Step)
    requires s.ip < |insns|
    ensures step == Exec(insns, labels, parse, s)
  {
    var insn := insns[s.ip];
    if insn.Copy? || insn.Slide? {
      step := Pick(insns, labels, parse, s);
    } else if IsShuffle(insn) {
      step := Shuffle(insns, labels, parse, s);
    } else if IsArith(insn) {
      step := Arithmetic(insns, labels, parse, s);
    } else if IsControl(insn) {
      step := Control(insns, labels, parse, s);
    } else if IsMemory(insn) {
      step := Memory(insns, labels, parse, s);
    } else {
      step := Output(insns, labels, parse, s);
    }
  }

  /**
   * Runs `insns` against `labels` with `stdin` as input for at most `fuel` iterations:
   * the final state after Exit or after `ip` leaves the program, the panic with the
   * state before the instruction that raised it, or the state where the fuel ran out.
   */
  method Interpret(insns: seq<Insn>, labels: map<int, nat>, parse: LineParser, stdin: seq<byte>, fuel: nat)
    returns (r: Outcome)
    ensures r == Run(insns, labels, parse, Start(stdin), fuel)
  {
    hide *;
    var s := Start(stdin);
    var left := fuel;
    ghost var outcome := Run(insns, labels, parse, s, left);
    while s.ip < |insns| && left > 0
      invariant Run(insns, labels, parse, s, left) == outcome
      decreases left
    {
      var step := Execute(insns, labels, parse, s);
      Iterate(insns, labels, parse, s, left, step);
      if step.Stop? {
        return Halted(step.last);
      } else if step.Fail? {
        return Crashed(step.fault, s);
      }
      s, left := step.next, left - 1;
    }
    Ended(insns, labels, parse, s, left);
    r := if s.ip < |insns| then OutOfFuel(s) else Halted(s);
  }
}
