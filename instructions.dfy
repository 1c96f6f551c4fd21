/**
 * The instruction set (src/main.rs:11-42) and the opcode table of the decoder
 * (src/main.rs:77-106).
 */
module Instructions {
  import opened Wrappers
  import opened Tokens

  /** `enum Insn`; `NoInsn` is the decoder's `Insn::None`, "no instruction yet". */
  datatype Insn =
    | NoInsn
    | Push(arg: int) | Pop | Dup | Swap | Copy(arg: int) | Slide(arg: int)
    | Add | Sub | Mul | Div | Mod
    | Label(arg: int) | Call(arg: int) | Jump(arg: int) | Jz(arg: int) | Jn(arg: int) | Ret
    | Store | Load | Ichr | Inum | Ochr | Onum | Exit

  /** The opcodes of the table, one per arm of the `match code` that yields an instruction. */
  datatype Opcode =
    | OpPush | OpCopy | OpSlide | OpCall | OpJump | OpJz | OpJn | OpLabel
    | OpPop | OpDup | OpSwap
    | OpAdd | OpSub | OpMul | OpDiv | OpMod
    | OpStore | OpLoad | OpRet
    | OpIchr | OpInum | OpOchr | OpOnum | OpExit

  /** The instructions that carry a number. */
  predicate HasArg(insn: Insn) {
    insn.Push? || insn.Copy? || insn.Slide? || insn.Call? || insn.Jump? || insn.Jz? || insn.Jn? || insn.Label?
  }

  /** The arms that call `parse_arg` before building their instruction. */
  predicate TakesArg(op: Opcode) {
    op in {OpPush, OpCopy, OpSlide, OpCall, OpJump, OpJz, OpJn, OpLabel}
  }

  /**
   * The accumulator values of main.rs:78-105 (written there in binary, two bits per
   * token); every other value is the `_ => Insn::None` arm.
   */
  function Table(code: int): Option<Opcode> {
    match code
    case 5 => Some(OpPush)      // 01_01
    case 25 => Some(OpCopy)     // 01_10_01
    case 27 => Some(OpSlide)    // 01_10_11
    case 54 => Some(OpCall)     // 11_01_10
    case 55 => Some(OpJump)     // 11_01_11
    case 57 => Some(OpJz)       // 11_10_01
    case 58 => Some(OpJn)       // 11_10_10
    case 53 => Some(OpLabel)    // 11_01_01
    case 31 => Some(OpPop)      // 01_11_11
    case 29 => Some(OpDup)      // 01_11_01
    case 30 => Some(OpSwap)     // 01_11_10
    case 149 => Some(OpAdd)     // 10_01_01_01
    case 150 => Some(OpSub)     // 10_01_01_10
    case 151 => Some(OpMul)     // 10_01_01_11
    case 153 => Some(OpDiv)     // 10_01_10_01
    case 154 => Some(OpMod)     // 10_01_10_10
    case 41 => Some(OpStore)    // 10_10_01
    case 42 => Some(OpLoad)     // 10_10_10
    case 59 => Some(OpRet)      // 11_10_11
    case 185 => Some(OpIchr)    // 10_11_10_01
    case 186 => Some(OpInum)    // 10_11_10_10
    case 181 => Some(OpOchr)    // 10_11_01_01
    case 182 => Some(OpOnum)    // 10_11_01_10
    case 63 => Some(OpExit)     // 11_11_11
    case _ => None
  }

  /** The instruction an arm builds; `arg` is the value `parse_arg` returned, if the arm reads one. */
  function Build(op: Opcode, arg: int): (insn: Insn)
    ensures insn != NoInsn
    ensures insn.Label? <==> op == OpLabel
    ensures TakesArg(op) <==> HasArg(insn)
    ensures HasArg(insn) ==> insn.arg == arg
  {
    match op
    case OpPush => Push(arg)
    case OpCopy => Copy(arg)
    case OpSlide => Slide(arg)
    case OpCall => Call(arg)
    case OpJump => Jump(arg)
    case OpJz => Jz(arg)
    case OpJn => Jn(arg)
    case OpLabel => Label(arg)
    case OpPop => Pop
    case OpDup => Dup
    case OpSwap => Swap
    case OpAdd => Add
    case OpSub => Sub
    case OpMul => Mul
    case OpDiv => Div
    case OpMod => Mod
    case OpStore => Store
    case OpLoad => Load
    case OpRet => Ret
    case OpIchr => Ichr
    case OpInum => Inum
    case OpOchr => Ochr
    case OpOnum => Onum
    case OpExit => Exit
  }

  /** The opcode of a decoded instruction. */
  function OpcodeOf(insn: Insn): Opcode
    requires insn != NoInsn
  {
    match insn
    case Push(_) => OpPush
    case Copy(_) => OpCopy
    case Slide(_) => OpSlide
    case Call(_) => OpCall
    case Jump(_) => OpJump
    case Jz(_) => OpJz
    case Jn(_) => OpJn
    case Label(_) => OpLabel
    case Pop => OpPop
    case Dup => OpDup
    case Swap => OpSwap
    case Add => OpAdd
    case Sub => OpSub
    case Mul => OpMul
    case Div => OpDiv
    case Mod => OpMod
    case Store => OpStore
    case Load => OpLoad
    case Ret => OpRet
    case Ichr => OpIchr
    case Inum => OpInum
    case Ochr => OpOchr
    case Onum => OpOnum
    case Exit => OpExit
  }

  /** Every instruction but `NoInsn` is rebuilt from its opcode and its argument. */
  lemma BuildOpcodeOf(insn: Insn)
    requires insn != NoInsn
    ensures TakesArg(OpcodeOf(insn)) <==> HasArg(insn)
    ensures Build(OpcodeOf(insn), if TakesArg(OpcodeOf(insn)) then insn.arg else 0) == insn
  {
  }

  /**
   * The token pattern of each opcode in the Whitespace language: the instruction
   * modification parameter (space: stack, tab space: arithmetic, tab tab: heap, LF: flow,
   * tab LF: I/O) followed by the command.
   */
  function Pattern(op: Opcode): (p: seq<Token>)
    ensures 2 <= |p| <= 4
  {
    match op
    case OpPush => [Space, Space]
    case OpCopy => [Space, Tab, Space]
    case OpSlide => [Space, Tab, LF]
    case OpDup => [Space, LF, Space]
    case OpSwap => [Space, LF, Tab]
    case OpPop => [Space, LF, LF]
    case OpAdd => [Tab, Space, Space, Space]
    case OpSub => [Tab, Space, Space, Tab]
    case OpMul => [Tab, Space, Space, LF]
    case OpDiv => [Tab, Space, Tab, Space]
    case OpMod => [Tab, Space, Tab, Tab]
    case OpStore => [Tab, Tab, Space]
    case OpLoad => [Tab, Tab, Tab]
    case OpLabel => [LF, Space, Space]
    case OpCall => [LF, Space, Tab]
    case OpJump => [LF, Space, LF]
    case OpJz => [LF, Tab, Space]
    case OpJn => [LF, Tab, Tab]
    case OpRet => [LF, Tab, LF]
    case OpExit => [LF, LF, LF]
    case OpOchr => [Tab, LF, Space, Space]
    case OpOnum => [Tab, LF, Space, Tab]
    case OpIchr => [Tab, LF, Tab, Space]
    case OpInum => [Tab, LF, Tab, Tab]
  }

  lemma Acc2(a: Token, b: Token)
    ensures Acc([a, b]) == Digit(a) * 4 + Digit(b)
  {
    AccSnoc([], a);
    assert [] + [a] == [a];
    AccSnoc([a], b);
    assert [a] + [b] == [a, b];
  }

  lemma Acc3(a: Token, b: Token, c: Token)
    ensures Acc([a, b, c]) == (Digit(a) * 4 + Digit(b)) * 4 + Digit(c)
  {
    AccSnoc([a, b], c);
    assert [a, b] + [c] == [a, b, c];
    Acc2(a, b);
  }

  lemma Acc4(a: Token, b: Token, c: Token, d: Token)
    ensures Acc([a, b, c, d]) == ((Digit(a) * 4 + Digit(b)) * 4 + Digit(c)) * 4 + Digit(d)
  {
    AccSnoc([a, b, c], d);
    assert [a, b, c] + [d] == [a, b, c, d];
    Acc3(a, b, c);
  }

  /** The table value of each opcode. */
  function Code(op: Opcode): (c: nat)
    ensures c < 256
  {
    match op
    case OpPush => 5
    case OpCopy => 25
    case OpSlide => 27
    case OpDup => 29
    case OpSwap => 30
    case OpPop => 31
    case OpAdd => 149
    case OpSub => 150
    case OpMul => 151
    case OpDiv => 153
    case OpMod => 154
    case OpStore => 41
    case OpLoad => 42
    case OpLabel => 53
    case OpCall => 54
    case OpJump => 55
    case OpJz => 57
    case OpJn => 58
    case OpRet => 59
    case OpExit => 63
    case OpOchr => 181
    case OpOnum => 182
    case OpIchr => 185
    case OpInum => 186
  }

  /** Each opcode's pattern accumulates to its table value. */
  lemma CodeOfPattern(op: Opcode)
    ensures Acc(Pattern(op)) == Code(op)
  {
    match op
    case OpPush => Acc2(Space, Space);
    case OpCopy => Acc3(Space, Tab, Space);
    case OpSlide => Acc3(Space, Tab, LF);
    case OpDup => Acc3(Space, LF, Space);
    case OpSwap => Acc3(Space, LF, Tab);
    case OpPop => Acc3(Space, LF, LF);
    case OpAdd => Acc4(Tab, Space, Space, Space);
    case OpSub => Acc4(Tab, Space, Space, Tab);
    case OpMul => Acc4(Tab, Space, Space, LF);
    case OpDiv => Acc4(Tab, Space, Tab, Space);
    case OpMod => Acc4(Tab, Space, Tab, Tab);
    case OpStore => Acc3(Tab, Tab, Space);
    case OpLoad => Acc3(Tab, Tab, Tab);
    case OpLabel => Acc3(LF, Space, Space);
    case OpCall => Acc3(LF, Space, Tab);
    case OpJump => Acc3(LF, Space, LF);
    case OpJz => Acc3(LF, Tab, Space);
    case OpJn => Acc3(LF, Tab, Tab);
    case OpRet => Acc3(LF, Tab, LF);
    case OpExit => Acc3(LF, LF, LF);
    case OpOchr => Acc4(Tab, LF, Space, Space);
    case OpOnum => Acc4(Tab, LF, Space, Tab);
    case OpIchr => Acc4(Tab, LF, Tab, Space);
    case OpInum => Acc4(Tab, LF, Tab, Tab);
  }

  /** The table and Code are inverse: a value selects an opcode exactly when it is that opcode's code. */
  lemma TableInverse(code: int, op: Opcode)
    ensures Table(code) == Some(op) <==> code == Code(op)
  {
    match op
    case OpPush =>
    case OpCopy =>
    case OpSlide =>
    case OpDup =>
    case OpSwap =>
    case OpPop =>
    case OpAdd =>
    case OpSub =>
    case OpMul =>
    case OpDiv =>
    case OpMod =>
    case OpStore =>
    case OpLoad =>
    case OpLabel =>
    case OpCall =>
    case OpJump =>
    case OpJz =>
    case OpJn =>
    case OpRet =>
    case OpExit =>
    case OpOchr =>
    case OpOnum =>
    case OpIchr =>
    case OpInum =>
  }

  /** Reading an opcode's pattern from a zero accumulator reaches its table entry. */
  lemma TableReachesPattern(op: Opcode)
    ensures Table(Acc(Pattern(op))) == Some(op)
  {
    CodeOfPattern(op);
    TableInverse(Code(op), op);
  }

  /** Every entry of the table is the code of its opcode's pattern. */
  lemma TableCode(code: int)
    requires Table(code).Some?
    ensures code == Acc(Pattern(Table(code).value))
  {
    TableInverse(code, Table(code).value);
    CodeOfPattern(Table(code).value);
  }

  /**
   * An entry of the table is reached from a zero accumulator by exactly one token run:
   * its opcode's pattern.
   */
  lemma TableExactly(ts: seq<Token>, op: Opcode)
    ensures Table(Acc(ts)) == Some(op) <==> ts == Pattern(op)
  {
    if Table(Acc(ts)) == Some(op) {
      TableCode(Acc(ts));
      AccInjective(ts, Pattern(op));
    }
    if ts == Pattern(op) {
      TableReachesPattern(op);
    }
  }

  /**
   * The same for the `u8` accumulator itself, on runs of at most four tokens, where it does
   * not wrap. Longer runs can reach the table through their last four tokens.
   */
  lemma TableExactlyWrapped(ts: seq<Token>, op: Opcode)
    requires |ts| <= 4
    ensures Table(Fold(ts)) == Some(op) <==> ts == Pattern(op)
  {
    FoldWindow(ts);
    TableExactly(ts, op);
  }

  /** No proper prefix of a pattern (the empty one included) is in the table. */
  lemma PrefixMisses(op: Opcode, j: nat)
    requires j < |Pattern(op)|
    ensures Table(Acc(Pattern(op)[..j])) == None
  {
    var p := Pattern(op);
    if j == 0 {
      assert p[..0] == [];
      PrefixCodesMiss(op);
    } else if j == 1 {
      Prefix1Misses(op);
    } else if j == 2 {
      Prefix2Misses(op);
    } else {
      Prefix3Misses(op);
    }
  }

  lemma Prefix1Misses(op: Opcode)
    ensures Table(Acc(Pattern(op)[..1])) == None
  {
    AccPrefix1(Pattern(op));
    PrefixCodesMiss(op);
  }

  lemma Prefix2Misses(op: Opcode)
    requires 2 < |Pattern(op)|
    ensures Table(Acc(Pattern(op)[..2])) == None
  {
    AccPrefix2(Pattern(op));
    PrefixCodesMiss(op);
  }

  lemma Prefix3Misses(op: Opcode)
    requires 3 < |Pattern(op)|
    ensures Table(Acc(Pattern(op)[..3])) == None
  {
    AccPrefix3(Pattern(op));
    PrefixCodesMiss(op);
  }

  lemma AccPrefix1(p: seq<Token>)
    requires 1 <= |p|
    ensures Acc(p[..1]) == Digit(p[0])
  {
    AccSnoc([], p[0]);
    assert [] + [p[0]] == p[..1];
  }

  lemma AccPrefix2(p: seq<Token>)
    requires 2 <= |p|
    ensures Acc(p[..2]) == Digit(p[0]) * 4 + Digit(p[1])
  {
    assert p[..2] == [p[0], p[1]];
    Acc2(p[0], p[1]);
  }

  lemma AccPrefix3(p: seq<Token>)
    requires 3 <= |p|
    ensures Acc(p[..3]) == (Digit(p[0]) * 4 + Digit(p[1])) * 4 + Digit(p[2])
  {
    assert p[..3] == [p[0], p[1], p[2]];
    Acc3(p[0], p[1], p[2]);
  }

  /** The codes of the proper prefixes of each pattern, opcode by opcode. */
  lemma PrefixCodesMiss(op: Opcode)
    ensures var p := Pattern(op);
      && Table(0) == None
      && Table(Digit(p[0])) == None
      && (|p| > 2 ==> Table(Digit(p[0]) * 4 + Digit(p[1])) == None)
      && (|p| > 3 ==> Table((Digit(p[0]) * 4 + Digit(p[1])) * 4 + Digit(p[2])) == None)
  {
    match op
    case OpPush =>
    case OpCopy =>
    case OpSlide =>
    case OpCall =>
    case OpJump =>
    case OpJz =>
    case OpJn =>
    case OpLabel =>
    case OpPop =>
    case OpDup =>
    case OpSwap =>
    case OpAdd =>
    case OpSub =>
    case OpMul =>
    case OpDiv =>
    case OpMod =>
    case OpStore =>
    case OpLoad =>
    case OpRet =>
    case OpIchr =>
    case OpInum =>
    case OpOchr =>
    case OpOnum =>
    case OpExit =>
  }

  /**
   * The patterns form a prefix-free code: no pattern is a proper prefix of another, and
   * different opcodes have different patterns.
   */
  lemma PrefixFree(a: Opcode, b: Opcode)
    ensures |Pattern(a)| < |Pattern(b)| ==> Pattern(a) != Pattern(b)[..|Pattern(a)|]
    ensures a != b ==> Pattern(a) != Pattern(b)
  {
    if |Pattern(a)| < |Pattern(b)| && Pattern(a) == Pattern(b)[..|Pattern(a)|] {
      PrefixMisses(b, |Pattern(a)|);
      TableReachesPattern(a);
      assert false;
    }
    TableReachesPattern(a);
    TableReachesPattern(b);
  }
}
