/**
 * Whole runs of the loop of `interpret` (src/main.rs:118-218): what the counter `n`
 * counts, what more fuel changes, what a run does to stdin and stdout, where `ip` can go
 * under the decoder's label table, and the outcome of a few complete programs.
 */
module Runs {
  import opened Wrappers
  import opened Tokens
  import opened Instructions
  import opened Machine
  import opened Semantics
  import opened Decoder

  /** The state a run ends in: final, before the panicking instruction, or where fuel ran out. */
  function Reached(o: Outcome): State {
    match o
    case Halted(s) => s
    case Crashed(_, s) => s
    case OutOfFuel(s) => s
  }

  /** The instructions a run executes to completion, in order; a panicking one is not among them. */
  function Trace(insns: seq<Insn>, labels: map<int, nat>, parse: LineParser, s: State, fuel: nat): seq<Insn>
    decreases fuel
  {
    if s.ip >= |insns| || fuel == 0 then []
    else
      match Exec(insns, labels, parse, s)
      case Next(t) => [insns[s.ip]] + Trace(insns, labels, parse, t, fuel - 1)
      case Stop(_) => [insns[s.ip]]
      case Fail(_) => []
  }

  /** How many instructions of a trace are not Labels (nor the decoder's `NoInsn`). */
  function NonLabels(trace: seq<Insn>): nat {
    if trace == [] then 0
    else (if trace[0].Label? || trace[0] == NoInsn then 0 else 1) + NonLabels(trace[1..])
  }

  /** `n` grows by the number of non-Label instructions executed, Exit included. */
  lemma {:induction false} RunCounts(insns: seq<Insn>, labels: map<int, nat>, parse: LineParser, s: State, fuel: nat)
    ensures Reached(Run(insns, labels, parse, s, fuel)).n == s.n + NonLabels(Trace(insns, labels, parse, s, fuel))
    decreases fuel
  {
    hide Exec, Run, Trace;
    if s.ip >= |insns| || fuel == 0 {
      Ended(insns, labels, parse, s, fuel);
      TraceEnded(insns, labels, parse, s, fuel);
    } else {
      var r := Exec(insns, labels, parse, s);
      if !r.Fail? {
        Counts(insns, labels, parse, s);
      }
      if r.Next? {
        RunCounts(insns, labels, parse, r.next, fuel - 1);
      } else if r.Stop? {
        ExitStops(insns, labels, parse, s);
      }
      TraceStep(insns, labels, parse, s, fuel);
      Iterate(insns, labels, parse, s, fuel, r);
    }
  }

  /** A run that did not run out of fuel comes to the same end with any more fuel. */
  lemma {:induction false} MoreFuel(insns: seq<Insn>, labels: map<int, nat>, parse: LineParser, s: State, fuel: nat, more: nat)
    requires !Run(insns, labels, parse, s, fuel).OutOfFuel? && fuel <= more
    ensures Run(insns, labels, parse, s, more) == Run(insns, labels, parse, s, fuel)
    decreases fuel
  {
    hide Exec, Run;
    if s.ip >= |insns| || fuel == 0 {
      Ended(insns, labels, parse, s, fuel);
      Ended(insns, labels, parse, s, more);
    } else {
      var r := Exec(insns, labels, parse, s);
      Iterate(insns, labels, parse, s, fuel, r);
      if r.Next? {
        MoreFuel(insns, labels, parse, r.next, fuel - 1, more - 1);
      }
      Iterate(insns, labels, parse, s, more, r);
    }
  }

  predicate IsSuffix(tail: seq<byte>, whole: seq<byte>) {
    |tail| <= |whole| && tail == whole[|whole| - |tail|..]
  }

  /** One iteration appends at most one item to the output and reads stdin from the front. */
  lemma StepHistory(insns: seq<Insn>, labels: map<int, nat>, parse: LineParser, s: State)
    requires s.ip < |insns| && Exec(insns, labels, parse, s).Next?
    ensures History(s, Exec(insns, labels, parse, s).next)
  {
    OutputFrame(insns, labels, parse, s);
    if insns[s.ip] == Ichr || insns[s.ip] == Inum {
      Reads(insns, labels, parse, s);
    }
  }

  lemma SuffixTransitive(a: seq<byte>, b: seq<byte>, c: seq<byte>)
    requires IsSuffix(a, b) && IsSuffix(b, c)
    ensures IsSuffix(a, c)
  {
    assert c[|c| - |b|..][|b| - |a|..] == c[|c| - |a|..];
  }

  /** What a stretch of the run can do to the streams: append output, consume input from the front. */
  predicate History(before: State, after: State) {
    before.output <= after.output && IsSuffix(after.input, before.input)
  }

  lemma HistoryTransitive(a: State, b: State, c: State)
    requires History(a, b) && History(b, c)
    ensures History(a, c)
  {
    SuffixTransitive(c.input, b.input, a.input);
  }

  /** A run only appends to the output and only consumes stdin from the front. */
  lemma {:induction false} RunHistory(insns: seq<Insn>, labels: map<int, nat>, parse: LineParser, s: State, fuel: nat)
    ensures History(s, Reached(Run(insns, labels, parse, s, fuel)))
    decreases fuel
  {
    hide Exec, Run;
    if s.ip >= |insns| || fuel == 0 {
      Ended(insns, labels, parse, s, fuel);
      assert IsSuffix(s.input, s.input);
    } else {
      var r := Exec(insns, labels, parse, s);
      if r.Next? {
        StepHistory(insns, labels, parse, s);
        RunHistory(insns, labels, parse, r.next, fuel - 1);
        HistoryTransitive(s, r.next, Reached(Run(insns, labels, parse, r.next, fuel - 1)));
      } else if r.Stop? {
        ExitStops(insns, labels, parse, s);
        assert IsSuffix(s.input, s.input);
      }
      Iterate(insns, labels, parse, s, fuel, r);
    }
  }

  /** `ip` is at most one past the last instruction and every saved index is an instruction's. */
  predicate InBounds(insns: seq<Insn>, s: State) {
    s.ip <= |insns| && forall i :: 0 <= i < |s.calls| ==> s.calls[i] < |insns|
  }

  /** With the label table the decoder builds, an iteration keeps `ip` and the call stack in bounds. */
  lemma StepInBounds(insns: seq<Insn>, parse: LineParser, s: State)
    requires s.ip < |insns| && InBounds(insns, s)
    requires Exec(insns, LabelTable(insns), parse, s).Next?
    ensures InBounds(insns, Exec(insns, LabelTable(insns), parse, s).next)
  {
    LabelTableInRange(insns);
    NextIp(insns, LabelTable(insns), parse, s);
  }

  /**
   * Under the decoder's label table a run stays in bounds, so a run that halts has left
   * the program exactly at its end or stopped on an Exit.
   */
  lemma {:induction false} RunInBounds(insns: seq<Insn>, parse: LineParser, s: State, fuel: nat)
    requires InBounds(insns, s)
    ensures InBounds(insns, Reached(Run(insns, LabelTable(insns), parse, s, fuel)))
    ensures var r := Run(insns, LabelTable(insns), parse, s, fuel);
      r.Halted? ==> r.final.ip == |insns| || insns[r.final.ip] == Exit
    decreases fuel
  {
    hide Exec, Run, LabelTable;
    var labels := LabelTable(insns);
    if s.ip >= |insns| || fuel == 0 {
      Ended(insns, labels, parse, s, fuel);
    } else {
      var r := Exec(insns, labels, parse, s);
      if r.Next? {
        StepInBounds(insns, parse, s);
        RunInBounds(insns, parse, r.next, fuel - 1);
      } else {
        ExitStops(insns, labels, parse, s);
      }
      Iterate(insns, labels, parse, s, fuel, r);
    }
  }

  /**
   * Call and Jump with the decoder's label table: they go ahead exactly when the program
   * has a Label of their value, and land one past the last such Label (a redefinition
   * wins over an earlier one).
   */
  lemma JumpsToLastLabel(insns: seq<Insn>, parse: LineParser, s: State)
    requires s.ip < |insns| && (insns[s.ip].Call? || insns[s.ip].Jump?)
    ensures var v, r := insns[s.ip].arg, Exec(insns, LabelTable(insns), parse, s);
      (r.Next? <==> Label(v) in insns) &&
      (r.Next? ==> 1 <= r.next.ip <= |insns| && insns[r.next.ip - 1] == Label(v) && Label(v) !in insns[r.next.ip..])
  {
    hide ShuffleArm, ArithArm, MemoryArm, OutputArm, LabelTable;
    LabelTableSpec(insns, insns[s.ip].arg);
    assert Arm(insns, LabelTable(insns), parse, s) == ControlArm(insns[s.ip], LabelTable(insns), s);
  }

  /** Push of each value in turn. */
  function PushAll(vs: seq<int>): (p: seq<Insn>)
    ensures |p| == |vs| && forall i :: 0 <= i < |vs| ==> p[i] == Push(vs[i])
  {
    seq(|vs|, i requires 0 <= i < |vs| => Push(vs[i]))
  }

  lemma {:induction false} PushesFrom(vs: seq<int>, labels: map<int, nat>, parse: LineParser, s: State, fuel: nat)
    requires s.ip <= |vs| && fuel > |vs| - s.ip
    ensures Run(PushAll(vs) + [Exit], labels, parse, s, fuel) ==
      Halted(s.(stack := s.stack + vs[s.ip..], ip := |vs|, n := s.n + |vs| - s.ip + 1))
    decreases |vs| - s.ip
  {
    var insns := PushAll(vs) + [Exit];
    if s.ip == |vs| {
      assert insns[s.ip] == Exit;
      ExitStops(insns, labels, parse, s);
      Iterate(insns, labels, parse, s, fuel, Exec(insns, labels, parse, s));
      assert s.stack + vs[s.ip..] == s.stack;
    } else {
      assert insns[s.ip] == Push(vs[s.ip]);
      var t := s.(stack := s.stack + [vs[s.ip]], ip := s.ip + 1, n := s.n + 1);
      assert Arm(insns, labels, parse, s) == ShuffleArm(Push(vs[s.ip]), s);
      PushesFrom(vs, labels, parse, t, fuel - 1);
      assert t.stack + vs[t.ip..] == s.stack + vs[s.ip..];
      Iterate(insns, labels, parse, s, fuel, Next(t));
    }
  }

  /** A program of Pushes and an Exit ends with the pushed values on the stack, in order. */
  lemma PushesThenExit(vs: seq<int>, labels: map<int, nat>, parse: LineParser, input: seq<byte>, fuel: nat)
    requires fuel > |vs|
    ensures Run(PushAll(vs) + [Exit], labels, parse, Start(input), fuel) ==
      Halted(State(vs, [], map[], |vs|, |vs| + 1, input, []))
  {
    PushesFrom(vs, labels, parse, Start(input), fuel);
    assert [] + vs[0..] == vs;
  }

  /** Dup then Add turns a top `v` into `2 * v`. */
  lemma DupAddDoubles(insns: seq<Insn>, labels: map<int, nat>, parse: LineParser, s: State)
    requires s.ip + 1 < |insns| && insns[s.ip] == Dup && insns[s.ip + 1] == Add && s.stack != []
    ensures Exec(insns, labels, parse, s).Next?
    ensures var t := Exec(insns, labels, parse, s).next;
      t.ip == s.ip + 1 && Exec(insns, labels, parse, t).Next? &&
      Exec(insns, labels, parse, t).next.stack == s.stack[..|s.stack| - 1] + [2 * s.stack[|s.stack| - 1]]
  {
    hide Exec;
    var v := s.stack[|s.stack| - 1];
    DupStep(insns, labels, parse, s);
    var t := Exec(insns, labels, parse, s).next;
    AddStep(insns, labels, parse, t);
    assert t.stack[..|t.stack| - 2] + [v + v] == s.stack[..|s.stack| - 1] + [2 * v];
  }

  lemma DupStep(insns: seq<Insn>, labels: map<int, nat>, parse: LineParser, s: State)
    requires s.ip < |insns| && insns[s.ip] == Dup && s.stack != []
    ensures Exec(insns, labels, parse, s) == Next(s.(stack := s.stack + [Top(s.stack)], ip := s.ip + 1, n := s.n + 1))
  {
    hide ArithArm, ControlArm, MemoryArm, OutputArm;
    assert Arm(insns, labels, parse, s) == ShuffleArm(Dup, s);
  }

  lemma AddStep(insns: seq<Insn>, labels: map<int, nat>, parse: LineParser, t: State)
    requires t.ip < |insns| && insns[t.ip] == Add && |t.stack| >= 2
    ensures var st := t.stack;
      Exec(insns, labels, parse, t) == Next(t.(stack := st[..|st| - 2] + [st[|st| - 2] + st[|st| - 1]], ip := t.ip + 1, n := t.n + 1))
  {
    hide ShuffleArm, ControlArm, MemoryArm, OutputArm;
    assert Arm(insns, labels, parse, t) == ArithArm(Add, t);
    var st := t.stack;
    assert Popped(st)[|st| - 2 := st[|st| - 2] + st[|st| - 1]] == st[..|st| - 2] + [st[|st| - 2] + st[|st| - 1]];
  }

  lemma PushStep(insns: seq<Insn>, labels: map<int, nat>, parse: LineParser, s: State)
    requires s.ip < |insns| && insns[s.ip].Push?
    ensures Exec(insns, labels, parse, s) == Next(s.(stack := s.stack + [insns[s.ip].arg], ip := s.ip + 1, n := s.n + 1))
  {
    hide ArithArm, ControlArm, MemoryArm, OutputArm;
    assert Arm(insns, labels, parse, s) == ShuffleArm(insns[s.ip], s);
  }

  lemma StoreStep(insns: seq<Insn>, labels: map<int, nat>, parse: LineParser, s: State)
    requires s.ip < |insns| && insns[s.ip] == Store && |s.stack| >= 2
    ensures var st := s.stack;
      Exec(insns, labels, parse, s) ==
      Next(s.(stack := st[..|st| - 2], heap := s.heap[st[|st| - 2] := st[|st| - 1]], ip := s.ip + 1, n := s.n + 1))
  {
    hide ShuffleArm, ArithArm, ControlArm, OutputArm;
    assert Arm(insns, labels, parse, s) == MemoryArm(Store, parse, s);
  }

  lemma LoadStep(insns: seq<Insn>, labels: map<int, nat>, parse: LineParser, s: State)
    requires s.ip < |insns| && insns[s.ip] == Load && s.stack != [] && s.stack[|s.stack| - 1] in s.heap
    ensures var st := s.stack;
      Exec(insns, labels, parse, s) == Next(s.(stack := st[..|st| - 1] + [s.heap[st[|st| - 1]]], ip := s.ip + 1, n := s.n + 1))
  {
    hide ShuffleArm, ArithArm, ControlArm, OutputArm;
    assert Arm(insns, labels, parse, s) == MemoryArm(Load, parse, s);
  }

  lemma OnumStep(insns: seq<Insn>, labels: map<int, nat>, parse: LineParser, s: State)
    requires s.ip < |insns| && insns[s.ip] == Onum && s.stack != []
    ensures var st := s.stack;
      Exec(insns, labels, parse, s) ==
      Next(s.(stack := st[..|st| - 1], output := s.output + [Num(st[|st| - 1])], ip := s.ip + 1, n := s.n + 1))
  {
    hide ShuffleArm, ArithArm, ControlArm, MemoryArm;
    assert Arm(insns, labels, parse, s) == OutputArm(Onum, s);
  }

  lemma StartState(input: seq<byte>)
    ensures Start(input) == State([], [], map[], 0, 0, input, [])
  {
  }

  /** Push 1, Push 2, Add, Onum prints 3 and leaves the stack empty. */
  lemma AddAndPrint(labels: map<int, nat>, parse: LineParser, input: seq<byte>, fuel: nat)
    requires fuel >= 4
    ensures Run([Push(1), Push(2), Add, Onum], labels, parse, Start(input), fuel) ==
      Halted(State([], [], map[], 4, 4, input, [Num(3)]))
  {
    hide *;
    StartState(input);
    var p := [Push(1), Push(2), Add, Onum];
    var s0, s1 := Start(input), State([1], [], map[], 1, 1, input, []);
    var s2, s3 := State([1, 2], [], map[], 2, 2, input, []), State([3], [], map[], 3, 3, input, []);
    var s4 := State([], [], map[], 4, 4, input, [Num(3)]);
    assert Run(p, labels, parse, s0, fuel) == Run(p, labels, parse, s1, fuel - 1) by {
      PushStep(p, labels, parse, s0);
      Iterate(p, labels, parse, s0, fuel, Next(s1));
    }
    assert Run(p, labels, parse, s1, fuel - 1) == Run(p, labels, parse, s2, fuel - 2) by {
      PushStep(p, labels, parse, s1);
      Iterate(p, labels, parse, s1, fuel - 1, Next(s2));
    }
    assert Run(p, labels, parse, s2, fuel - 2) == Run(p, labels, parse, s3, fuel - 3) by {
      AddStep(p, labels, parse, s2);
      Iterate(p, labels, parse, s2, fuel - 2, Next(s3));
    }
    assert Run(p, labels, parse, s3, fuel - 3) == Run(p, labels, parse, s4, fuel - 4) by {
      OnumStep(p, labels, parse, s3);
      Iterate(p, labels, parse, s3, fuel - 3, Next(s4));
    }
    Ended(p, labels, parse, s4, fuel - 4);
  }

  /** A value stored under a key is what a later Load of that key pushes. */
  lemma StoreThenLoad(k: int, v: int, labels: map<int, nat>, parse: LineParser, input: seq<byte>, fuel: nat)
    requires fuel >= 5
    ensures Run([Push(k), Push(v), Store, Push(k), Load], labels, parse, Start(input), fuel) ==
      Halted(State([v], [], map[k := v], 5, 5, input, []))
  {
    hide *;
    StartState(input);
    var p := [Push(k), Push(v), Store, Push(k), Load];
    var s0, s1 := Start(input), State([k], [], map[], 1, 1, input, []);
    var s2, s3 := State([k, v], [], map[], 2, 2, input, []), State([], [], map[k := v], 3, 3, input, []);
    var s4, s5 := State([k], [], map[k := v], 4, 4, input, []), State([v], [], map[k := v], 5, 5, input, []);
    assert Run(p, labels, parse, s0, fuel) == Run(p, labels, parse, s1, fuel - 1) by {
      PushStep(p, labels, parse, s0);
      Iterate(p, labels, parse, s0, fuel, Next(s1));
    }
    assert Run(p, labels, parse, s1, fuel - 1) == Run(p, labels, parse, s2, fuel - 2) by {
      PushStep(p, labels, parse, s1);
      Iterate(p, labels, parse, s1, fuel - 1, Next(s2));
    }
    assert Run(p, labels, parse, s2, fuel - 2) == Run(p, labels, parse, s3, fuel - 3) by {
      StoreStep(p, labels, parse, s2);
      Iterate(p, labels, parse, s2, fuel - 2, Next(s3));
    }
    assert Run(p, labels, parse, s3, fuel - 3) == Run(p, labels, parse, s4, fuel - 4) by {
      PushStep(p, labels, parse, s3);
      Iterate(p, labels, parse, s3, fuel - 3, Next(s4));
    }
    assert Run(p, labels, parse, s4, fuel - 4) == Run(p, labels, parse, s5, fuel - 5) by {
      LoadStep(p, labels, parse, s4);
      Iterate(p, labels, parse, s4, fuel - 4, Next(s5));
    }
    Ended(p, labels, parse, s5, fuel - 5);
  }

  /** The trace of a run starts with its first instruction, unless that one panics. */
  lemma TraceStep(insns: seq<Insn>, labels: map<int, nat>, parse: LineParser, s: State, fuel: nat)
    requires s.ip < |insns| && fuel > 0
    ensures var r, tr := Exec(insns, labels, parse, s), Trace(insns, labels, parse, s, fuel);
      (r.Next? ==> tr == [insns[s.ip]] + Trace(insns, labels, parse, r.next, fuel - 1)) &&
      (r.Stop? ==> tr == [insns[s.ip]]) &&
      (r.Fail? ==> tr == [])
  {
  }

  /** A run that has left the program or has no fuel executes nothing. */
  lemma TraceEnded(insns: seq<Insn>, labels: map<int, nat>, parse: LineParser, s: State, fuel: nat)
    requires s.ip >= |insns| || fuel == 0
    ensures Trace(insns, labels, parse, s, fuel) == []
  {
  }

  /** Loading a key that was never stored panics, with the key in the report. */
  lemma LoadUnset(k: int, labels: map<int, nat>, parse: LineParser, input: seq<byte>, fuel: nat)
    requires fuel >= 2
    ensures Run([Push(k), Load], labels, parse, Start(input), fuel) ==
      Crashed(MissingHeapKey(k), State([k], [], map[], 1, 1, input, []))
  {
    var s1 := State([k], [], map[], 1, 1, input, []);
    assert Exec([Push(k), Load], labels, parse, Start(input)) == Next(s1);
    Iterate([Push(k), Load], labels, parse, Start(input), fuel, Next(s1));
    Iterate([Push(k), Load], labels, parse, s1, fuel - 1, Exec([Push(k), Load], labels, parse, s1));
  }
}
