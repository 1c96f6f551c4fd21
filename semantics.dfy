/**
 * What one iteration of `interpret` does (src/main.rs:124-215), stated per concern:
 * the stack, the heap, the call stack and `ip`, the panics. Each lemma speaks about
 * Machine.Exec, which Interpreter.Execute is proved to compute.
 */
module Semantics {
  import opened Wrappers
  import opened Tokens
  import opened Instructions
  import opened Division
  import opened Machine
  import opened Decoder

  /** How many values below the top an instruction reads or removes, given the depth it finds. */
  function Consumed(insn: Insn, depth: nat): nat {
    match insn
    case Slide(k) => if 0 <= k < depth then k + 1 else 0
    case Pop => if depth == 0 then 0 else 1
    case Swap => 2
    case Add => 2
    case Sub => 2
    case Mul => 2
    case Div => 2
    case Mod => 2
    case Store => 2
    case Load => 1
    case Jz(_) => 1
    case Jn(_) => 1
    case Ichr => 1
    case Inum => 1
    case Ochr => 1
    case Onum => 1
    case _ => 0
  }

  /** The change in stack depth of an instruction that does not panic. */
  function Delta(insn: Insn, depth: nat): int {
    match insn
    case Push(_) => 1
    case Dup => 1
    case Copy(_) => 1
    case Slide(k) => -k
    case Pop => if depth == 0 then 0 else -1
    case Add => -1
    case Sub => -1
    case Mul => -1
    case Div => -1
    case Mod => -1
    case Store => -2
    case Jz(_) => -1
    case Jn(_) => -1
    case Ichr => -1
    case Inum => -1
    case Ochr => -1
    case Onum => -1
    case _ => 0
  }

  /**
   * Every instruction that does not panic changes the depth by Delta and leaves the
   * stack untouched below the entries it consumes.
   */
  lemma StackFrame(insns: seq<Insn>, labels: map<int, nat>, parse: LineParser, s: State)
    requires s.ip < |insns| && Exec(insns, labels, parse, s).Next?
    ensures var t, d := Exec(insns, labels, parse, s).next, |s.stack|;
      Consumed(insns[s.ip], d) <= d &&
      |t.stack| == d + Delta(insns[s.ip], d) &&
      t.stack[..d - Consumed(insns[s.ip], d)] == s.stack[..d - Consumed(insns[s.ip], d)]
  {
    Effects(insns, labels, parse, s);
  }

  /** Push, Dup and Copy(k) add one value: the argument, the top, the value k below the top. */
  lemma Pushes(insns: seq<Insn>, labels: map<int, nat>, parse: LineParser, s: State)
    requires s.ip < |insns| && Exec(insns, labels, parse, s).Next?
    ensures var insn, t, st := insns[s.ip], Exec(insns, labels, parse, s).next, s.stack;
      (insn.Push? ==> t.stack == st + [insn.arg]) &&
      (insn == Dup ==> st != [] && t.stack == st + [st[|st| - 1]]) &&
      (insn.Copy? ==> 0 <= insn.arg < |st| && t.stack == st + [st[|st| - 1 - insn.arg]])
  {
  }

  /** Slide(k) removes exactly the k values below the top and keeps the top. */
  lemma Slides(insns: seq<Insn>, labels: map<int, nat>, parse: LineParser, s: State)
    requires s.ip < |insns| && insns[s.ip].Slide? && Exec(insns, labels, parse, s).Next?
    ensures var k, t, st := insns[s.ip].arg, Exec(insns, labels, parse, s).next.stack, s.stack;
      0 <= k < |st| && |t| == |st| - k &&
      t[|t| - 1] == st[|st| - 1] && t[..|t| - 1] == st[..|st| - 1 - k]
  {
    var k, t, st := insns[s.ip].arg, Exec(insns, labels, parse, s).next.stack, s.stack;
    assert t[..|t| - 1] == st[..|st| - 1 - k];
  }

  /** Swap exchanges the top two values. */
  lemma Swaps(insns: seq<Insn>, labels: map<int, nat>, parse: LineParser, s: State)
    requires s.ip < |insns| && insns[s.ip] == Swap && Exec(insns, labels, parse, s).Next?
    ensures var t, st := Exec(insns, labels, parse, s).next.stack, s.stack;
      |st| >= 2 && t == st[..|st| - 2] + [st[|st| - 1], st[|st| - 2]]
  {
    var t, st := Exec(insns, labels, parse, s).next.stack, s.stack;
    assert t == st[..|st| - 2] + [st[|st| - 1], st[|st| - 2]];
  }

  /**
   * The arithmetic instructions pop the right operand and replace the left one with
   * `left op right`; division and remainder truncate and never see a zero divisor.
   */
  lemma Arithmetic(insns: seq<Insn>, labels: map<int, nat>, parse: LineParser, s: State)
    requires s.ip < |insns| && IsArith(insns[s.ip]) && Exec(insns, labels, parse, s).Next?
    ensures var insn, t, st := insns[s.ip], Exec(insns, labels, parse, s).next.stack, s.stack;
      |st| >= 2 && |t| == |st| - 1 && t[..|t| - 1] == st[..|st| - 2] &&
      var l, r, v := st[|st| - 2], st[|st| - 1], t[|t| - 1];
      (insn == Add ==> v == l + r) &&
      (insn == Sub ==> v == l - r) &&
      (insn == Mul ==> v == l * r) &&
      (insn == Div ==> r != 0 && v == TDiv(l, r)) &&
      (insn == Mod ==> r != 0 && v == TMod(l, r))
  {
    var t, st := Exec(insns, labels, parse, s).next.stack, s.stack;
    assert t[..|t| - 1] == st[..|st| - 2];
  }

  /** Store pops the value, then the key, and binds the key to the value. */
  lemma Stores(insns: seq<Insn>, labels: map<int, nat>, parse: LineParser, s: State)
    requires s.ip < |insns| && insns[s.ip] == Store && Exec(insns, labels, parse, s).Next?
    ensures var t, st := Exec(insns, labels, parse, s).next, s.stack;
      |st| >= 2 && t.stack == st[..|st| - 2] && t.heap == s.heap[st[|st| - 2] := st[|st| - 1]]
  {
  }

  /** Load replaces the key on top with the value bound to it, which must exist. */
  lemma Loads(insns: seq<Insn>, labels: map<int, nat>, parse: LineParser, s: State)
    requires s.ip < |insns| && insns[s.ip] == Load && Exec(insns, labels, parse, s).Next?
    ensures var t, st := Exec(insns, labels, parse, s).next, s.stack;
      st != [] && st[|st| - 1] in s.heap &&
      t.stack == st[..|st| - 1] + [s.heap[st[|st| - 1]]] && t.heap == s.heap
  {
  }

  /** The heap writers: Store, and the two reads from stdin. */
  predicate WritesHeap(insn: Insn) {
    insn == Store || insn == Ichr || insn == Inum
  }

  /**
   * Only Store, Ichr and Inum change the heap, and each of them changes the entry of the
   * key it popped and no other.
   */
  lemma HeapFrame(insns: seq<Insn>, labels: map<int, nat>, parse: LineParser, s: State)
    requires s.ip < |insns| && Exec(insns, labels, parse, s).Next?
    ensures var insn, t := insns[s.ip], Exec(insns, labels, parse, s).next;
      (!WritesHeap(insn) ==> t.heap == s.heap) &&
      (WritesHeap(insn) ==>
        var key := if insn == Store then s.stack[|s.stack| - 2] else s.stack[|s.stack| - 1];
        key in t.heap && t.heap == s.heap[key := t.heap[key]])
  {
    Effects(insns, labels, parse, s);
  }

  /**
   * Ichr stores the next byte of stdin, or 0 at its end; Inum stores the number the
   * parser reads from the next line; both consume what they read and nothing more.
   */
  lemma Reads(insns: seq<Insn>, labels: map<int, nat>, parse: LineParser, s: State)
    requires s.ip < |insns| && (insns[s.ip] == Ichr || insns[s.ip] == Inum)
    requires Exec(insns, labels, parse, s).Next?
    ensures var t, key := Exec(insns, labels, parse, s).next, s.stack[|s.stack| - 1];
      var line := Line(s.input);
      (insns[s.ip] == Ichr && s.input == [] ==> t.heap[key] == 0 && t.input == []) &&
      (insns[s.ip] == Ichr && s.input != [] ==> t.heap[key] == s.input[0] && t.input == s.input[1..]) &&
      (insns[s.ip] == Inum ==> parse(line) == Some(t.heap[key]) && s.input == line + t.input)
  {
    assert Arm(insns, labels, parse, s) == MemoryArm(insns[s.ip], parse, s);
    ReadArm(insns[s.ip], parse, s);
  }

  /** The arms of Ichr and Inum, on the state they continue with. */
  lemma ReadArm(insn: Insn, parse: LineParser, s: State)
    requires insn == Ichr || insn == Inum
    ensures var e := MemoryArm(insn, parse, s);
      e.Continue? ==> (
        s.stack != [] &&
        var t, key, line := e.after, s.stack[|s.stack| - 1], Line(s.input);
        (insn == Ichr && s.input == [] ==> t.heap[key] == 0 && t.input == []) &&
        (insn == Ichr && s.input != [] ==> t.heap[key] == s.input[0] && t.input == s.input[1..]) &&
        (insn == Inum ==> parse(line) == Some(t.heap[key]) && s.input == line + t.input))
  {
    if insn == Inum && s.stack != [] {
      var line := Line(s.input);
      assert s.input == line + s.input[|line|..];
    }
  }

  /** Only Ochr and Onum print, one item each; nothing but Ichr and Inum reads stdin. */
  lemma OutputFrame(insns: seq<Insn>, labels: map<int, nat>, parse: LineParser, s: State)
    requires s.ip < |insns| && Exec(insns, labels, parse, s).Next?
    ensures var insn, t, st := insns[s.ip], Exec(insns, labels, parse, s).next, s.stack;
      (insn == Ochr ==> 0 <= st[|st| - 1] < 256 && t.output == s.output + [Chr(st[|st| - 1])]) &&
      (insn == Onum ==> t.output == s.output + [Num(st[|st| - 1])]) &&
      (insn != Ochr && insn != Onum ==> t.output == s.output) &&
      (insn != Ichr && insn != Inum ==> t.input == s.input)
  {
    Effects(insns, labels, parse, s);
  }

  /**
   * Where the next iteration starts: one past the target of the instruction, which is
   * the label's index for Call, Jump and a taken Jz or Jn, the saved index for Ret, and
   * the instruction itself otherwise. Only Call and Ret touch the call stack.
   */
  lemma NextIp(insns: seq<Insn>, labels: map<int, nat>, parse: LineParser, s: State)
    requires s.ip < |insns| && Exec(insns, labels, parse, s).Next?
    ensures var insn, t := insns[s.ip], Exec(insns, labels, parse, s).next;
      (insn.Call? ==> insn.arg in labels && t.ip == labels[insn.arg] + 1 && t.calls == s.calls + [s.ip]) &&
      (insn.Jump? ==> insn.arg in labels && t.ip == labels[insn.arg] + 1) &&
      (insn == Ret ==> s.calls != [] && t.ip == s.calls[|s.calls| - 1] + 1 && t.calls == s.calls[..|s.calls| - 1]) &&
      (!insn.Call? && insn != Ret ==> t.calls == s.calls) &&
      (!insn.Call? && !insn.Jump? && !insn.Jz? && !insn.Jn? && insn != Ret ==> t.ip == s.ip + 1) &&
      ((insn.Jz? || insn.Jn?) ==> t.ip == s.ip + 1 || (insn.arg in labels && t.ip == labels[insn.arg] + 1))
  {
    Effects(insns, labels, parse, s);
    if insns[s.ip].Jz? || insns[s.ip].Jn? {
      ConditionalJump(insns, labels, parse, s);
    }
  }

  /** Jz and Jn always pop, and jump exactly when the popped value is zero, or negative. */
  lemma ConditionalJump(insns: seq<Insn>, labels: map<int, nat>, parse: LineParser, s: State)
    requires s.ip < |insns| && (insns[s.ip].Jz? || insns[s.ip].Jn?) && Exec(insns, labels, parse, s).Next?
    ensures var insn, t, st := insns[s.ip], Exec(insns, labels, parse, s).next, s.stack;
      st != [] && t.stack == st[..|st| - 1] &&
      var taken := if insn.Jz? then st[|st| - 1] == 0 else st[|st| - 1] < 0;
      (taken ==> insn.arg in labels && t.ip == labels[insn.arg] + 1) &&
      (!taken ==> t.ip == s.ip + 1)
  {
  }

  /**
   * A Call pushes its own index; a Ret executed while that entry is on top of the call
   * stack resumes one past the Call and restores the call stack it found.
   */
  lemma CallThenRet(insns: seq<Insn>, labels: map<int, nat>, parse: LineParser, s: State, u: State)
    requires s.ip < |insns| && insns[s.ip].Call? && Exec(insns, labels, parse, s).Next?
    requires u.ip < |insns| && insns[u.ip] == Ret && u.calls == Exec(insns, labels, parse, s).next.calls
    ensures Exec(insns, labels, parse, u).Next?
    ensures Exec(insns, labels, parse, u).next.ip == s.ip + 1
    ensures Exec(insns, labels, parse, u).next.calls == s.calls
  {
    assert u.calls == s.calls + [s.ip];
    assert u.calls[..|u.calls| - 1] == s.calls;
  }

  /** Exit, and only Exit, leaves the loop: it is counted and `ip` does not move. */
  lemma ExitStops(insns: seq<Insn>, labels: map<int, nat>, parse: LineParser, s: State)
    requires s.ip < |insns|
    ensures Exec(insns, labels, parse, s).Stop? <==> insns[s.ip] == Exit
    ensures Exec(insns, labels, parse, s).Stop? ==> Exec(insns, labels, parse, s).last == s.(n := s.n + 1)
  {
  }

  /** Every iteration that completes counts its instruction unless it is a Label. */
  lemma Counts(insns: seq<Insn>, labels: map<int, nat>, parse: LineParser, s: State)
    requires s.ip < |insns| && !Exec(insns, labels, parse, s).Fail?
    ensures var r := Exec(insns, labels, parse, s);
      (r.Next? ==> r.next.n == s.n + Counted(insns[s.ip])) &&
      (r.Stop? ==> r.last.n == s.n + 1)
  {
  }

  /** The depth an instruction needs to find on the stack. */
  function Needs(insn: Insn): int {
    match insn
    case Copy(k) => k + 1
    case Slide(k) => k + 1
    case Dup => 1
    case Jz(_) => 1
    case Jn(_) => 1
    case Load => 1
    case Ichr => 1
    case Inum => 1
    case Ochr => 1
    case Onum => 1
    case Swap => 2
    case Add => 2
    case Sub => 2
    case Mul => 2
    case Div => 2
    case Mod => 2
    case Store => 2
    case _ => 0
  }

  /** Whether the instruction consults the label table, given what it pops. */
  predicate JumpsTo(insn: Insn, stack: seq<int>) {
    insn.Call? || insn.Jump? ||
    (insn.Jz? && stack != [] && stack[|stack| - 1] == 0) ||
    (insn.Jn? && stack != [] && stack[|stack| - 1] < 0)
  }

  /**
   * The panics of the loop, by cause: an argument `to_usize` rejects, too shallow a
   * stack, an undefined label, Ret without a Call, a Load of an unbound key, a zero
   * divisor, a value Ochr cannot print, a line Inum cannot parse.
   */
  predicate Panics(insns: seq<Insn>, labels: map<int, nat>, parse: LineParser, s: State)
    requires s.ip < |insns|
  {
    var insn, st := insns[s.ip], s.stack;
    ((insn.Copy? || insn.Slide?) && !IsUsize(insn.arg)) ||
    |st| < Needs(insn) ||
    (|st| >= Needs(insn) && JumpsTo(insn, st) && insn.arg !in labels) ||
    (insn == Ret && s.calls == []) ||
    (insn == Load && st != [] && st[|st| - 1] !in s.heap) ||
    ((insn == Div || insn == Mod) && |st| >= 2 && st[|st| - 1] == 0) ||
    (insn == Ochr && st != [] && !(0 <= st[|st| - 1] < 256)) ||
    (insn == Inum && st != [] && parse(Line(s.input)).None?)
  }

  /** An iteration panics exactly in the cases Panics lists. */
  lemma PanicsExactly(insns: seq<Insn>, labels: map<int, nat>, parse: LineParser, s: State)
    requires s.ip < |insns|
    ensures Exec(insns, labels, parse, s).Fail? <==> Panics(insns, labels, parse, s)
  {
    Effects(insns, labels, parse, s);
  }

  /** StackFrame as a property of one iteration. */
  predicate KeepsStack(insns: seq<Insn>, labels: map<int, nat>, parse: LineParser, s: State)
    requires s.ip < |insns|
  {
    var r, d, insn := Exec(insns, labels, parse, s), |s.stack|, insns[s.ip];
    r.Next? ==>
      Consumed(insn, d) <= d && |r.next.stack| == d + Delta(insn, d) &&
      r.next.stack[..d - Consumed(insn, d)] == s.stack[..d - Consumed(insn, d)]
  }

  /** HeapFrame as a property of one iteration. */
  predicate KeepsHeap(insns: seq<Insn>, labels: map<int, nat>, parse: LineParser, s: State)
    requires s.ip < |insns|
  {
    var r, insn := Exec(insns, labels, parse, s), insns[s.ip];
    r.Next? ==>
      (!WritesHeap(insn) ==> r.next.heap == s.heap) &&
      (WritesHeap(insn) ==>
        var key := if insn == Store then s.stack[|s.stack| - 2] else s.stack[|s.stack| - 1];
        key in r.next.heap && r.next.heap == s.heap[key := r.next.heap[key]])
  }

  /** OutputFrame as a property of one iteration. */
  predicate KeepsStreams(insns: seq<Insn>, labels: map<int, nat>, parse: LineParser, s: State)
    requires s.ip < |insns|
  {
    var r, insn, st := Exec(insns, labels, parse, s), insns[s.ip], s.stack;
    r.Next? ==>
      (insn == Ochr ==> 0 <= st[|st| - 1] < 256 && r.next.output == s.output + [Chr(st[|st| - 1])]) &&
      (insn == Onum ==> r.next.output == s.output + [Num(st[|st| - 1])]) &&
      (insn != Ochr && insn != Onum ==> r.next.output == s.output) &&
      (insn != Ichr && insn != Inum ==> r.next.input == s.input)
  }

  /** NextIp as a property of one iteration. */
  predicate KeepsFlow(insns: seq<Insn>, labels: map<int, nat>, parse: LineParser, s: State)
    requires s.ip < |insns|
  {
    var r, insn := Exec(insns, labels, parse, s), insns[s.ip];
    r.Next? ==>
      (insn.Call? ==> insn.arg in labels && r.next.ip == labels[insn.arg] + 1 && r.next.calls == s.calls + [s.ip]) &&
      (insn.Jump? ==> insn.arg in labels && r.next.ip == labels[insn.arg] + 1) &&
      (insn == Ret ==> s.calls != [] && r.next.ip == s.calls[|s.calls| - 1] + 1 && r.next.calls == s.calls[..|s.calls| - 1]) &&
      (!insn.Call? && insn != Ret ==> r.next.calls == s.calls) &&
      (!insn.Call? && !insn.Jump? && !insn.Jz? && !insn.Jn? && insn != Ret ==> r.next.ip == s.ip + 1)
  }

  /** The frame properties of one iteration and its panics, shown group by group of arms. */
  lemma Effects(insns: seq<Insn>, labels: map<int, nat>, parse: LineParser, s: State)
    requires s.ip < |insns|
    ensures KeepsStack(insns, labels, parse, s) && KeepsHeap(insns, labels, parse, s)
    ensures KeepsStreams(insns, labels, parse, s) && KeepsFlow(insns, labels, parse, s)
    ensures Exec(insns, labels, parse, s).Fail? <==> Panics(insns, labels, parse, s)
  {
    var insn := insns[s.ip];
    if IsShuffle(insn) {
      ShuffleData(insns, labels, parse, s);
      ShuffleFlow(insns, labels, parse, s);
      ShuffleFaults(insns, labels, parse, s);
    } else if IsArith(insn) {
      ArithData(insns, labels, parse, s);
      ArithFlow(insns, labels, parse, s);
      ArithFaults(insns, labels, parse, s);
    } else if IsControl(insn) {
      ControlData(insns, labels, parse, s);
      ControlFlow(insns, labels, parse, s);
      ControlFaults(insns, labels, parse, s);
    } else if IsMemory(insn) {
      MemoryData(insns, labels, parse, s);
      MemoryFlow(insns, labels, parse, s);
      MemoryFaults(insns, labels, parse, s);
    } else {
      OutputData(insns, labels, parse, s);
      OutputFlow(insns, labels, parse, s);
      OutputFaults(insns, labels, parse, s);
    }
  }

  lemma ShuffleData(insns: seq<Insn>, labels: map<int, nat>, parse: LineParser, s: State)
    requires s.ip < |insns| && IsShuffle(insns[s.ip])
    ensures KeepsStack(insns, labels, parse, s) && KeepsHeap(insns, labels, parse, s)
  {
    hide Exec, ShuffleArm, ArithArm, ControlArm, MemoryArm, OutputArm;
    ExecArm(insns, labels, parse, s);
    assert Arm(insns, labels, parse, s) == ShuffleArm(insns[s.ip], s);
    ShuffleKeeps(insns[s.ip], s);
  }

  /** The shuffling arms change the stack by Delta below the consumed entries and leave the heap. */
  lemma ShuffleKeeps(insn: Insn, s: State)
    requires IsShuffle(insn)
    ensures var e, d := ShuffleArm(insn, s), |s.stack|;
      e.Continue? ==>
        Consumed(insn, d) <= d && |e.after.stack| == d + Delta(insn, d) && e.after.heap == s.heap &&
        e.after.stack[..d - Consumed(insn, d)] == s.stack[..d - Consumed(insn, d)]
  {
    var e, d := ShuffleArm(insn, s), |s.stack|;
    if e.Continue? {
      if insn.Push? || insn == Dup || insn.Copy? {
        assert e.after.stack[..d] == s.stack;
      } else {
        assert e.after.stack[..d - Consumed(insn, d)] == s.stack[..d - Consumed(insn, d)];
      }
    }
  }

  lemma ShuffleFlow(insns: seq<Insn>, labels: map<int, nat>, parse: LineParser, s: State)
    requires s.ip < |insns| && IsShuffle(insns[s.ip])
    ensures KeepsStreams(insns, labels, parse, s) && KeepsFlow(insns, labels, parse, s)
  {
    hide ArithArm, ControlArm, MemoryArm, OutputArm;
    assert Arm(insns, labels, parse, s) == ShuffleArm(insns[s.ip], s);
  }

  lemma ShuffleFaults(insns: seq<Insn>, labels: map<int, nat>, parse: LineParser, s: State)
    requires s.ip < |insns| && IsShuffle(insns[s.ip])
    ensures Exec(insns, labels, parse, s).Fail? <==> Panics(insns, labels, parse, s)
  {
    hide ArithArm, ControlArm, MemoryArm, OutputArm;
    assert Arm(insns, labels, parse, s) == ShuffleArm(insns[s.ip], s);
    var st := s.stack;
    match insns[s.ip] {
      case Push(_) => assert !Panics(insns, labels, parse, s);
      case Pop => assert !Panics(insns, labels, parse, s);
      case Dup => assert Panics(insns, labels, parse, s) <==> st == [];
      case Swap => assert Panics(insns, labels, parse, s) <==> |st| < 2;
      case Copy(k) => assert Panics(insns, labels, parse, s) <==> !IsUsize(k) || |st| <= k;
      case Slide(k) => assert Panics(insns, labels, parse, s) <==> !IsUsize(k) || |st| <= k;
    }
  }

  lemma ArithData(insns: seq<Insn>, labels: map<int, nat>, parse: LineParser, s: State)
    requires s.ip < |insns| && IsArith(insns[s.ip])
    ensures KeepsStack(insns, labels, parse, s) && KeepsHeap(insns, labels, parse, s)
  {
    hide Exec, ShuffleArm, ControlArm, MemoryArm, OutputArm;
    ExecArm(insns, labels, parse, s);
    assert Arm(insns, labels, parse, s) == ArithArm(insns[s.ip], s);
    var r, d := Exec(insns, labels, parse, s), |s.stack|;
    if r.Next? {
      assert r.next.stack[..d - 2] == s.stack[..d - 2];
    }
  }

  lemma ArithFlow(insns: seq<Insn>, labels: map<int, nat>, parse: LineParser, s: State)
    requires s.ip < |insns| && IsArith(insns[s.ip])
    ensures KeepsStreams(insns, labels, parse, s) && KeepsFlow(insns, labels, parse, s)
  {
    hide ShuffleArm, ControlArm, MemoryArm, OutputArm;
    assert Arm(insns, labels, parse, s) == ArithArm(insns[s.ip], s);
  }

  lemma ArithFaults(insns: seq<Insn>, labels: map<int, nat>, parse: LineParser, s: State)
    requires s.ip < |insns| && IsArith(insns[s.ip])
    ensures Exec(insns, labels, parse, s).Fail? <==> Panics(insns, labels, parse, s)
  {
    hide ShuffleArm, ControlArm, MemoryArm, OutputArm;
    assert Arm(insns, labels, parse, s) == ArithArm(insns[s.ip], s);
  }

  lemma ControlData(insns: seq<Insn>, labels: map<int, nat>, parse: LineParser, s: State)
    requires s.ip < |insns| && IsControl(insns[s.ip])
    ensures KeepsStack(insns, labels, parse, s) && KeepsHeap(insns, labels, parse, s)
  {
    hide Exec, ShuffleArm, ArithArm, MemoryArm, OutputArm;
    ExecArm(insns, labels, parse, s);
    assert Arm(insns, labels, parse, s) == ControlArm(insns[s.ip], labels, s);
  }

  lemma ControlFlow(insns: seq<Insn>, labels: map<int, nat>, parse: LineParser, s: State)
    requires s.ip < |insns| && IsControl(insns[s.ip])
    ensures KeepsStreams(insns, labels, parse, s) && KeepsFlow(insns, labels, parse, s)
  {
    hide ShuffleArm, ArithArm, MemoryArm, OutputArm;
    assert Arm(insns, labels, parse, s) == ControlArm(insns[s.ip], labels, s);
  }

  lemma ControlFaults(insns: seq<Insn>, labels: map<int, nat>, parse: LineParser, s: State)
    requires s.ip < |insns| && IsControl(insns[s.ip])
    ensures Exec(insns, labels, parse, s).Fail? <==> Panics(insns, labels, parse, s)
  {
    hide ShuffleArm, ArithArm, MemoryArm, OutputArm;
    assert Arm(insns, labels, parse, s) == ControlArm(insns[s.ip], labels, s);
  }

  lemma MemoryData(insns: seq<Insn>, labels: map<int, nat>, parse: LineParser, s: State)
    requires s.ip < |insns| && IsMemory(insns[s.ip])
    ensures KeepsStack(insns, labels, parse, s) && KeepsHeap(insns, labels, parse, s)
  {
    hide Exec, ShuffleArm, ArithArm, ControlArm, OutputArm;
    ExecArm(insns, labels, parse, s);
    assert Arm(insns, labels, parse, s) == MemoryArm(insns[s.ip], parse, s);
  }

  lemma MemoryFlow(insns: seq<Insn>, labels: map<int, nat>, parse: LineParser, s: State)
    requires s.ip < |insns| && IsMemory(insns[s.ip])
    ensures KeepsStreams(insns, labels, parse, s) && KeepsFlow(insns, labels, parse, s)
  {
    hide ShuffleArm, ArithArm, ControlArm, OutputArm;
    assert Arm(insns, labels, parse, s) == MemoryArm(insns[s.ip], parse, s);
  }

  lemma MemoryFaults(insns: seq<Insn>, labels: map<int, nat>, parse: LineParser, s: State)
    requires s.ip < |insns| && IsMemory(insns[s.ip])
    ensures Exec(insns, labels, parse, s).Fail? <==> Panics(insns, labels, parse, s)
  {
    hide ShuffleArm, ArithArm, ControlArm, OutputArm;
    assert Arm(insns, labels, parse, s) == MemoryArm(insns[s.ip], parse, s);
  }

  lemma OutputData(insns: seq<Insn>, labels: map<int, nat>, parse: LineParser, s: State)
    requires s.ip < |insns| && IsOutput(insns[s.ip])
    ensures KeepsStack(insns, labels, parse, s) && KeepsHeap(insns, labels, parse, s)
  {
    hide Exec, ShuffleArm, ArithArm, ControlArm, MemoryArm;
    ExecArm(insns, labels, parse, s);
    assert Arm(insns, labels, parse, s) == OutputArm(insns[s.ip], s);
  }

  lemma OutputFlow(insns: seq<Insn>, labels: map<int, nat>, parse: LineParser, s: State)
    requires s.ip < |insns| && IsOutput(insns[s.ip])
    ensures KeepsStreams(insns, labels, parse, s) && KeepsFlow(insns, labels, parse, s)
  {
    hide ShuffleArm, ArithArm, ControlArm, MemoryArm;
    assert Arm(insns, labels, parse, s) == OutputArm(insns[s.ip], s);
  }

  lemma OutputFaults(insns: seq<Insn>, labels: map<int, nat>, parse: LineParser, s: State)
    requires s.ip < |insns| && IsOutput(insns[s.ip])
    ensures Exec(insns, labels, parse, s).Fail? <==> Panics(insns, labels, parse, s)
  {
    hide ShuffleArm, ArithArm, ControlArm, MemoryArm;
    assert Arm(insns, labels, parse, s) == OutputArm(insns[s.ip], s);
  }
}
