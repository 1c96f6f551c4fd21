/** The program decoder `parse` (src/main.rs:66-116). */
module Decoder {
  import opened Wrappers
  import opened Tokens
  import opened Instructions
  import opened Arguments

  /** The locals of `parse` between two tokens: stream position, `code`, `insns`, `labels`. */
  datatype DState = DState(pos: nat, code: byte, insns: seq<Insn>, labels: map<int, nat>)

  /** What `parse` returns: the instruction list and the label table. */
  datatype Decoded = Decoded(insns: seq<Insn>, labels: map<int, nat>)

  /**
   * The `match code` of main.rs:77-107: the instruction that the accumulator selects,
   * with the stream position after its argument; `NoInsn` when the code is not in the
   * table. None when an argument has no sign token (`parse_arg` panics).
   */
  function Select(code: byte, ts: seq<Token>, pos: nat): (r: Option<(Insn, nat)>)
    requires pos <= |ts|
    ensures r.Some? ==> pos <= r.value.1 <= |ts|
  {
    match Table(code)
    case None => Some((NoInsn, pos))
    case Some(op) =>
      if TakesArg(op) then
        match ArgSpec(ts[pos..])
        case None => None
        case Some(a) => Some((Build(op, a.value), pos + a.used))
      else
        Some((Build(op, 0), pos))
  }

  /** `labels.insert(arg, insns.len())` of main.rs:87, done for Label instructions only. */
  function Record(labels: map<int, nat>, insn: Insn, index: nat): map<int, nat> {
    if insn.Label? then labels[insn.arg := index] else labels
  }

  /** One iteration of the loop of main.rs:75-113. */
  function DecodeStep(ts: seq<Token>, s: DState): (r: Option<DState>)
    requires s.pos < |ts|
    ensures r.Some? ==> s.pos < r.value.pos <= |ts|
  {
    var code := Accumulate(s.code, ts[s.pos]);
    match Select(code, ts, s.pos + 1)
    case None => None
    case Some((insn, next)) =>
      if insn != NoInsn then Some(Emitted(s, insn, next))
      else Some(DState(next, code, s.insns, s.labels))
  }

  /**
   * What one iteration does: it fails only when an instruction that takes an argument is
   * completed by the last token (no sign token is left). Otherwise either an instruction
   * is emitted and the accumulator reset to zero, or, for a code outside the table,
   * nothing is emitted and the accumulator keeps its (wrapped) value, so the next token
   * extends the run: an unrecognised run is never reset. An emitted instruction carries
   * the value `parse_arg` read after the opcode's last token, and the stream resumes
   * after the argument's tokens, or right after the opcode when it takes none.
   */
  lemma DecodeStepEffect(ts: seq<Token>, s: DState)
    requires s.pos < |ts|
    ensures var code := Accumulate(s.code, ts[s.pos]);
      DecodeStep(ts, s).None? <==> Table(code).Some? && TakesArg(Table(code).value) && s.pos + 1 == |ts|
    ensures DecodeStep(ts, s).Some? ==> var t := DecodeStep(ts, s).value;
      || (Table(Accumulate(s.code, ts[s.pos])).None?
          && t == DState(s.pos + 1, Accumulate(s.code, ts[s.pos]), s.insns, s.labels))
      || (Table(Accumulate(s.code, ts[s.pos])).Some? && t.code == 0
          && |t.insns| == |s.insns| + 1 && t.insns[..|s.insns|] == s.insns
          && t.insns[|s.insns|] != NoInsn
          && OpcodeOf(t.insns[|s.insns|]) == Table(Accumulate(s.code, ts[s.pos])).value
          && t.labels == Record(s.labels, t.insns[|s.insns|], |s.insns|))
    ensures DecodeStep(ts, s).Some? && Table(Accumulate(s.code, ts[s.pos])).Some? ==>
      var t, op := DecodeStep(ts, s).value, Table(Accumulate(s.code, ts[s.pos])).value;
      (TakesArg(op) ==>
        ArgSpec(ts[s.pos + 1..]).Some? &&
        var a := ArgSpec(ts[s.pos + 1..]).value;
        t.insns[|s.insns|] == Build(op, a.value) && t.pos == s.pos + 1 + a.used) &&
      (!TakesArg(op) ==> t.insns[|s.insns|] == Build(op, 0) && t.pos == s.pos + 1)
  {
  }

  /** Pushing `insn` onto `insns` and resetting `code` (main.rs:109-112), the stream resuming at `pos`. */
  function Emitted(s: DState, insn: Insn, pos: nat): DState {
    DState(pos, 0, s.insns + [insn], Record(s.labels, insn, |s.insns|))
  }

  /** The rest of the loop from state `s`. */
  function DecodeFrom(ts: seq<Token>, s: DState): Option<Decoded>
    requires s.pos <= |ts|
    decreases |ts| - s.pos
  {
    if s.pos == |ts| then Some(Decoded(s.insns, s.labels))
    else
      match DecodeStep(ts, s)
      case None => None
      case Some(next) => DecodeFrom(ts, next)
  }

  /** `parse` as a function of the source text; None when it panics. */
  function Decode(src: string): Option<Decoded> {
    DecodeFrom(Strip(src), DState(0, 0, [], map[]))
  }

  /**
   * An unmatched run is not reset: LF LF Space Tab is in no table entry and none of its
   * prefixes is, and the three spaces after it bring the wrapped accumulator to 149, so
   * the seven tokens decode to Add although they are not Add's pattern.
   */
  lemma UnmatchedRunDecodes()
    ensures var run := [LF, LF, Space, Tab, Space, Space, Space];
      run != Pattern(OpAdd) && Fold(run) == Code(OpAdd) &&
      Decode("\n\n \t   ") == Some(Decoded([Add], map[]))
  {
    hide Strip, Fold, DecodeFrom, DecodeStep, Select;
    var run := [LF, LF, Space, Tab, Space, Space, Space];
    RunStrip();
    RunFolds(run);
    assert run[..7] == run;
    RunDecodes(run);
  }

  /** The text of the example strips to its seven tokens. */
  lemma RunStrip()
    ensures Strip("\n\n \t   ") == [LF, LF, Space, Tab, Space, Space, Space]
  {
    assert Strip("\n\n \t   ") == [LF] + Strip("\n \t   ");
  }

  /** The wrapped accumulator after each prefix of the example run. */
  lemma RunFolds(run: seq<Token>)
    requires run == [LF, LF, Space, Tab, Space, Space, Space]
    ensures Fold(run[..0]) == 0
    ensures forall k | 1 <= k <= 7 :: Fold(run[..k]) == [3, 15, 61, 246, 217, 101, 149][k - 1]
  {
    assert run[..0] == [];
    forall k | 1 <= k <= 7 ensures Fold(run[..k]) == [3, 15, 61, 246, 217, 101, 149][k - 1] {
      FoldPrefix(run, [3, 15, 61, 246, 217, 101, 149], k);
    }
  }

  /** The first six tokens only grow the accumulator; the seventh completes Add. */
  lemma RunDecodes(run: seq<Token>)
    requires run == [LF, LF, Space, Tab, Space, Space, Space]
    requires Fold(run[..0]) == 0
    requires forall k | 1 <= k <= 7 :: Fold(run[..k]) == [3, 15, 61, 246, 217, 101, 149][k - 1]
    ensures DecodeFrom(run, DState(0, 0, [], map[])) == Some(Decoded([Add], map[]))
  {
    hide Fold, Decode, Strip, DecodeFrom, DecodeStep;
    RunMiss(run, 0);
    RunMiss(run, 1);
    RunMiss(run, 2);
    RunMiss(run, 3);
    RunMiss(run, 4);
    RunMiss(run, 5);
    RunLast(run);
  }

  /** Each of the first six tokens misses the table and only grows the accumulator. */
  lemma RunMiss(run: seq<Token>, k: nat)
    requires run == [LF, LF, Space, Tab, Space, Space, Space] && k < 6
    requires forall k | 1 <= k <= 7 :: Fold(run[..k]) == [3, 15, 61, 246, 217, 101, 149][k - 1]
    ensures var s := DState(0, 0, [], map[]);
      DecodeFrom(run, s.(pos := k, code := Fold(run[..k]))) == DecodeFrom(run, s.(pos := k + 1, code := Fold(run[..k + 1])))
  {
    var s := DState(k, Fold(run[..k]), [], map[]);
    assert run[..k + 1] == run[..k] + [run[k]];
    assert Fold(run[..k + 1]) == Accumulate(Fold(run[..k]), run[k]);
    StepMiss(run, s);
    DecodeFromNext(run, s, s.(pos := k + 1, code := Fold(run[..k + 1])));
  }

  /** The seventh token brings the accumulator to 149 and emits Add. */
  lemma RunLast(run: seq<Token>)
    requires run == [LF, LF, Space, Tab, Space, Space, Space]
    requires Fold(run[..6]) == 101
    ensures DecodeFrom(run, DState(6, Fold(run[..6]), [], map[])) == Some(Decoded([Add], map[]))
  {
    var s := DState(6, 101, [], map[]);
    assert Accumulate(101, Space) == 149;
    assert Select(149, run, 7) == Some((Add, 7));
    StepEmits(run, s, Add, 7);
    assert Emitted(s, Add, 7) == DState(7, 0, [Add], map[]);
    assert DecodeFrom(run, DState(7, 0, [Add], map[])) == Some(Decoded([Add], map[]));
  }

  /** The wrapped accumulator after the first `k` tokens of `run`, from a table of its values. */
  lemma {:induction false} FoldPrefix(run: seq<Token>, codes: seq<int>, k: nat)
    requires run == [LF, LF, Space, Tab, Space, Space, Space] && codes == [3, 15, 61, 246, 217, 101, 149]
    requires 1 <= k <= 7
    ensures Fold(run[..k]) == codes[k - 1]
  {
    assert run[..k][..k - 1] == run[..k - 1];
    if k > 1 {
      FoldPrefix(run, codes, k - 1);
    } else {
      assert run[..0] == [];
    }
  }

  /** `parse` (main.rs:66-116). */
  method Parse(src: string) returns (r: Option<Decoded>)
    ensures r == Decode(src)
  {
    var ts := Strip(src);
    var insns: seq<Insn> := [];
    var labels: map<int, nat> := map[];
    var code: byte := 0;
    var pos := 0;
    while pos < |ts|
      invariant pos <= |ts|
      invariant DecodeFrom(ts, DState(pos, code, insns, labels)) == Decode(src)
      decreases |ts| - pos
    {
      ghost var before := DState(pos, code, insns, labels);
      code := Accumulate(code, ts[pos]);
      var selected := SelectInsn(code, ts, pos + 1);
      if selected.None? {
        DecodeStepNone(ts, before);
        return None;
      }
      var insn;
      insn, pos := selected.value.0, selected.value.1;
      DecodeStepSelect(ts, before, insn, pos);
      DecodeFromNext(ts, before, DecodeStep(ts, before).value);
      if insn.Label? {
        labels := labels[insn.arg := |insns|];
      }
      if insn != NoInsn {
        insns := insns + [insn];
        code := 0;
      }
    }
    return Some(Decoded(insns, labels));
  }

  /**
   * The `insn = match code { ... }` of main.rs:77-107: the arm for the accumulator's
   * value, which reads the argument from the stream when it takes one.
   */
  method SelectInsn(code: byte, ts: seq<Token>, pos: nat) returns (r: Option<(Insn, nat)>)
    requires pos <= |ts|
    ensures r == Select(code, ts, pos)
  {
    match Table(code)
    case None =>
      r := Some((NoInsn, pos));
    case Some(op) =>
      if TakesArg(op) {
        var arg := ParseArg(ts, pos);
        if arg.None? {
          return None;
        }
        r := Some((Build(op, arg.value.value), pos + arg.value.used));
      } else {
        r := Some((Build(op, 0), pos));
      }
  }

  lemma DecodeStepNone(ts: seq<Token>, s: DState)
    requires s.pos < |ts|
    requires Select(Accumulate(s.code, ts[s.pos]), ts, s.pos + 1).None?
    ensures DecodeFrom(ts, s) == None
  {
    assert DecodeStep(ts, s) == None;
  }

  lemma DecodeStepSelect(ts: seq<Token>, s: DState, insn: Insn, next: nat)
    requires s.pos < |ts|
    requires Select(Accumulate(s.code, ts[s.pos]), ts, s.pos + 1) == Some((insn, next))
    ensures DecodeStep(ts, s) == Some(
      if insn != NoInsn then Emitted(s, insn, next)
      else DState(next, Accumulate(s.code, ts[s.pos]), s.insns, s.labels))
  {
  }

  /** The loop goes on from the state one iteration produces. */
  lemma DecodeFromNext(ts: seq<Token>, s: DState, t: DState)
    requires s.pos < |ts| && DecodeStep(ts, s) == Some(t)
    ensures DecodeFrom(ts, s) == DecodeFrom(ts, t)
  {
  }

  /**
   * The label table a finished instruction list determines: each label value maps to
   * the index of its last definition.
   */
  function LabelTable(insns: seq<Insn>): map<int, nat> {
    if insns == [] then map[]
    else Record(LabelTable(insns[..|insns| - 1]), insns[|insns| - 1], |insns| - 1)
  }

  /**
   * A value is in the table exactly when a Label of it is in the list; its entry is the
   * index of a Label of it, and no later Label redefines it (last definition wins).
   */
  lemma {:induction false} LabelTableSpec(insns: seq<Insn>, v: int)
    ensures v in LabelTable(insns) <==> Label(v) in insns
    ensures v in LabelTable(insns) ==>
      var i := LabelTable(insns)[v];
      i < |insns| && insns[i] == Label(v) && Label(v) !in insns[i + 1..]
  {
    if insns != [] {
      var init, last := insns[..|insns| - 1], insns[|insns| - 1];
      LabelTableSpec(init, v);
      assert insns == init + [last];
      if v in LabelTable(insns) {
        var i := LabelTable(insns)[v];
        if last != Label(v) {
          assert insns[i + 1..] == init[i + 1..] + [last];
        }
      }
    }
  }

  /** Every entry of a label table indexes into its list. */
  lemma LabelTableInRange(insns: seq<Insn>)
    ensures forall v :: v in LabelTable(insns) ==> LabelTable(insns)[v] < |insns|
  {
    forall v | v in LabelTable(insns) ensures LabelTable(insns)[v] < |insns| {
      LabelTableSpec(insns, v);
    }
  }

  /** The state invariant of the loop: no `Insn::None` emitted, `labels` matches `insns`. */
  predicate Consistent(insns: seq<Insn>, labels: map<int, nat>) {
    NoInsn !in insns && labels == LabelTable(insns)
  }

  lemma {:induction false} DecodeFromConsistent(ts: seq<Token>, s: DState)
    requires s.pos <= |ts|
    requires Consistent(s.insns, s.labels)
    ensures DecodeFrom(ts, s).Some? ==> Consistent(DecodeFrom(ts, s).value.insns, DecodeFrom(ts, s).value.labels)
    decreases |ts| - s.pos
  {
    if s.pos < |ts| && DecodeStep(ts, s).Some? {
      var t := DecodeStep(ts, s).value;
      if t.insns != s.insns {
        var x := t.insns[|s.insns|];
        assert t.insns[..|t.insns| - 1] == s.insns;
      }
      DecodeFromConsistent(ts, t);
    }
  }

  /**
   * The decoded list never holds `Insn::None`, and its label table is LabelTable of the
   * list: each label value maps to the index of its last definition, which indexes a
   * Label of that value.
   */
  lemma DecodeConsistent(src: string)
    requires Decode(src).Some?
    ensures NoInsn !in Decode(src).value.insns
    ensures Decode(src).value.labels == LabelTable(Decode(src).value.insns)
  {
    DecodeFromConsistent(Strip(src), DState(0, 0, [], map[]));
  }

  /** The tokens of one instruction: its opcode's pattern, then its argument if it has one. */
  function EncodeInsn(insn: Insn): (ts: seq<Token>)
    requires insn != NoInsn
    ensures |ts| == |Pattern(OpcodeOf(insn))| + |ArgTokens(insn)|
  {
    Pattern(OpcodeOf(insn)) + ArgTokens(insn)
  }

  /** The argument tokens of an instruction; none for an instruction without argument. */
  function ArgTokens(insn: Insn): seq<Token> {
    if HasArg(insn) then EncodeArg(insn.arg) else []
  }

  /** The tokens of a program. */
  function Encode(insns: seq<Insn>): seq<Token>
    requires NoInsn !in insns
  {
    if insns == [] then [] else EncodeInsn(insns[0]) + Encode(insns[1..])
  }

  /** The state of `parse` after the first `j` tokens of a pattern `p` read from `s`. */
  function Partial(s: DState, p: seq<Token>, j: nat): (r: DState)
    requires j < |p| <= 4
    ensures r.code < 64
  {
    AccRange(p[..j]);
    Pow4Mono(j, 3);
    assert Pow4(3) == 64;
    DState(s.pos + j, Acc(p[..j]), s.insns, s.labels)
  }

  /** No proper non-empty prefix of `p` is in the table. */
  predicate Misses(p: seq<Token>) {
    forall k :: 0 < k < |p| ==> Table(Acc(p[..k])).None?
  }

  lemma PatternMisses(op: Opcode)
    ensures Misses(Pattern(op))
  {
    forall k | 0 < k < |Pattern(op)| ensures Table(Acc(Pattern(op)[..k])).None? {
      PrefixMisses(op, k);
    }
  }

  /** The token after a partial pattern extends the accumulator by that token's code. */
  lemma PartialNext(ts: seq<Token>, s: DState, p: seq<Token>, j: nat)
    requires j < |p| <= 4 && s.pos + |p| <= |ts| && ts[s.pos..s.pos + |p|] == p
    ensures var sj := Partial(s, p, j);
      sj.pos < |ts| && Accumulate(sj.code, ts[sj.pos]) == Acc(p[..j + 1])
  {
    assert ts[s.pos + j] == p[j];
    assert p[..j + 1] == p[..j] + [p[j]];
    AccSnoc(p[..j], p[j]);
  }

  /** A code outside the table emits nothing: the run goes on with the grown accumulator. */
  lemma StepMiss(ts: seq<Token>, s: DState)
    requires s.pos < |ts| && Table(Accumulate(s.code, ts[s.pos])).None?
    ensures DecodeStep(ts, s) == Some(DState(s.pos + 1, Accumulate(s.code, ts[s.pos]), s.insns, s.labels))
  {
  }

  /** Decoding walks through the proper prefixes of a pattern without emitting anything. */
  lemma {:induction false} WalkPrefix(ts: seq<Token>, s: DState, p: seq<Token>, j: nat)
    requires j < |p| <= 4 && s.pos + |p| <= |ts| && ts[s.pos..s.pos + |p|] == p
    requires Misses(p)
    ensures DecodeFrom(ts, Partial(s, p, j)) == DecodeFrom(ts, Partial(s, p, |p| - 1))
    decreases |p| - j
  {
    if j + 1 < |p| {
      var sj := Partial(s, p, j);
      PartialNext(ts, s, p, j);
      StepMiss(ts, sj);
      assert DecodeStep(ts, sj) == Some(Partial(s, p, j + 1));
      DecodeFromNext(ts, sj, Partial(s, p, j + 1));
      WalkPrefix(ts, s, p, j + 1);
    }
  }

  /** The tokens of an instruction are its pattern followed by its argument tokens. */
  lemma EncodeSlices(ts: seq<Token>, at: nat, insn: Insn)
    requires insn != NoInsn
    requires at + |EncodeInsn(insn)| <= |ts| && ts[at..at + |EncodeInsn(insn)|] == EncodeInsn(insn)
    ensures var n := |Pattern(OpcodeOf(insn))|;
      ts[at..at + n] == Pattern(OpcodeOf(insn)) && ts[at + n..at + |EncodeInsn(insn)|] == ArgTokens(insn)
  {
    var p, q := Pattern(OpcodeOf(insn)), ArgTokens(insn);
    assert ts[at..at + |p| + |q|][..|p|] == ts[at..at + |p|];
    assert ts[at..at + |p| + |q|][|p|..] == ts[at + |p|..at + |p| + |q|];
  }

  /**
   * The full pattern of `insn` in the accumulator selects `insn`, and its argument, if it
   * has one, is read back from the tokens that follow.
   */
  lemma SelectEncoded(ts: seq<Token>, pos: nat, op: Opcode, insn: Insn, next: nat)
    requires insn != NoInsn && op == OpcodeOf(insn) && next == pos + |ArgTokens(insn)|
    requires next <= |ts| && ts[pos..next] == ArgTokens(insn)
    ensures Select(Code(op), ts, pos) == Some((insn, next))
  {
    TableInverse(Code(op), op);
    BuildOpcodeOf(insn);
    if HasArg(insn) {
      SelectArgAt(Code(op), ts, pos, op, insn.arg);
    }
  }

  /** An arm with an argument, over an encoded argument, reads exactly that argument. */
  lemma SelectArgAt(code: byte, ts: seq<Token>, pos: nat, op: Opcode, v: int)
    requires Table(code) == Some(op) && TakesArg(op)
    requires pos + |EncodeArg(v)| <= |ts| && ts[pos..pos + |EncodeArg(v)|] == EncodeArg(v)
    ensures Select(code, ts, pos) == Some((Build(op, v), pos + |EncodeArg(v)|))
  {
    var rest := ts[pos + |EncodeArg(v)|..];
    assert ts[pos..] == EncodeArg(v) + rest;
    ArgRoundTrip(v, rest);
  }

  /** The last token of a pattern in the table selects the arm's instruction. */
  lemma WalkLast(ts: seq<Token>, s: DState, p: seq<Token>, insn: Insn, next: nat)
    requires 1 <= |p| <= 4 && s.pos + |p| <= |ts| && ts[s.pos..s.pos + |p|] == p
    requires insn != NoInsn && Acc(p) < 256
    requires Select(Acc(p), ts, s.pos + |p|) == Some((insn, next))
    ensures DecodeFrom(ts, Partial(s, p, |p| - 1)) == DecodeFrom(ts, Emitted(s, insn, next))
  {
    hide DecodeFrom, DecodeStep, Select;
    var sj := Partial(s, p, |p| - 1);
    PartialLast(ts, s, p);
    SelectSame(Acc(p), Accumulate(sj.code, ts[sj.pos]), ts, s.pos + |p|, sj.pos + 1, insn, next);
    StepEmits(ts, sj, insn, next);
  }

  /** After all but the last token of `p`, the last one completes the code of `p`. */
  lemma PartialLast(ts: seq<Token>, s: DState, p: seq<Token>)
    requires 1 <= |p| <= 4 && s.pos + |p| <= |ts| && ts[s.pos..s.pos + |p|] == p
    ensures Partial(s, p, |p| - 1).pos + 1 == s.pos + |p|
    ensures Accumulate(Partial(s, p, |p| - 1).code, ts[Partial(s, p, |p| - 1).pos]) == Acc(p)
  {
    PartialNext(ts, s, p, |p| - 1);
    assert p[..|p|] == p;
  }

  lemma SelectSame(c: byte, c': byte, ts: seq<Token>, q: nat, q': nat, insn: Insn, next: nat)
    requires q <= |ts| && c == c' && q == q'
    requires Select(c, ts, q) == Some((insn, next))
    ensures Select(c', ts, q') == Some((insn, next))
  {
  }

  /** An iteration whose arm selects an instruction emits it and goes on after it. */
  lemma StepEmits(ts: seq<Token>, s: DState, insn: Insn, next: nat)
    requires s.pos < |ts| && insn != NoInsn
    requires Select(Accumulate(s.code, ts[s.pos]), ts, s.pos + 1) == Some((insn, next))
    ensures DecodeFrom(ts, s) == DecodeFrom(ts, Emitted(s, insn, next))
  {
    DecodeStepSelect(ts, s, insn, next);
    DecodeFromNext(ts, s, Emitted(s, insn, next));
  }

  /** Decoding walks over the pattern of `op` from a reset accumulator and emits what it selects. */
  lemma WalkOpcode(ts: seq<Token>, s: DState, op: Opcode, insn: Insn, next: nat)
    requires s.code == 0 && insn != NoInsn
    requires s.pos + |Pattern(op)| <= |ts| && ts[s.pos..s.pos + |Pattern(op)|] == Pattern(op)
    requires Select(Code(op), ts, s.pos + |Pattern(op)|) == Some((insn, next))
    ensures DecodeFrom(ts, s) == DecodeFrom(ts, Emitted(s, insn, next))
  {
    PatternMisses(op);
    CodeOfPattern(op);
    WalkRun(ts, s, Pattern(op), Code(op), insn, next);
  }

  /** Decoding the tokens of a non-empty program emits its first instruction and goes on after it. */
  lemma DecodeFirst(ts: seq<Token>, s: DState, rest: seq<Insn>)
    requires rest != [] && NoInsn !in rest
    requires s.pos <= |ts| && ts[s.pos..] == Encode(rest)
    requires s.code == 0
    ensures s.pos + |EncodeInsn(rest[0])| <= |ts| && ts[s.pos + |EncodeInsn(rest[0])|..] == Encode(rest[1..])
    ensures DecodeFrom(ts, s) == DecodeFrom(ts, Emitted(s, rest[0], s.pos + |EncodeInsn(rest[0])|))
  {
    hide *;
    EncodeCons(ts, s.pos, rest);
    WalkEncoded(ts, s, rest[0]);
  }

  /** Decoding from a reset accumulator over the tokens of an instruction emits that instruction. */
  lemma WalkEncoded(ts: seq<Token>, s: DState, insn: Insn)
    requires s.code == 0 && insn != NoInsn
    requires s.pos + |EncodeInsn(insn)| <= |ts| && ts[s.pos..s.pos + |EncodeInsn(insn)|] == EncodeInsn(insn)
    ensures DecodeFrom(ts, s) == DecodeFrom(ts, Emitted(s, insn, s.pos + |EncodeInsn(insn)|))
  {
    hide *;
    EncodeSlices(ts, s.pos, insn);
    SelectEncoded(ts, s.pos + |Pattern(OpcodeOf(insn))|, OpcodeOf(insn), insn, s.pos + |EncodeInsn(insn)|);
    WalkOpcode(ts, s, OpcodeOf(insn), insn, s.pos + |EncodeInsn(insn)|);
  }

  /**
   * From a reset accumulator over a run `p` whose proper prefixes miss the table and
   * whose code selects `insn`, decoding emits `insn` and resumes at `next`.
   */
  lemma WalkRun(ts: seq<Token>, s: DState, p: seq<Token>, code: byte, insn: Insn, next: nat)
    requires 1 <= |p| <= 4 && s.pos + |p| <= |ts| && ts[s.pos..s.pos + |p|] == p
    requires s.code == 0 && Misses(p) && insn != NoInsn && Acc(p) == code
    requires Select(code, ts, s.pos + |p|) == Some((insn, next))
    ensures DecodeFrom(ts, s) == DecodeFrom(ts, Emitted(s, insn, next))
  {
    assert Partial(s, p, 0) == s by {
      assert p[..0] == [];
    }
    WalkPrefix(ts, s, p, 0);
    WalkLast(ts, s, p, insn, next);
  }

  /** The tokens of a non-empty program start with those of its first instruction. */
  lemma EncodeCons(ts: seq<Token>, at: nat, rest: seq<Insn>)
    requires rest != [] && NoInsn !in rest
    requires at <= |ts| && ts[at..] == Encode(rest)
    ensures at + |EncodeInsn(rest[0])| <= |ts|
    ensures ts[at..at + |EncodeInsn(rest[0])|] == EncodeInsn(rest[0])
    ensures ts[at + |EncodeInsn(rest[0])|..] == Encode(rest[1..])
  {
    hide Encode;
    EncodeFirst(rest);
    var e := EncodeInsn(rest[0]);
    assert ts[at..] == e + Encode(rest[1..]);
    assert ts[at..][..|e|] == ts[at..at + |e|];
    assert ts[at..][|e|..] == ts[at + |e|..];
  }

  /** The tokens of a non-empty program: its first instruction's, then the rest's. */
  lemma EncodeFirst(rest: seq<Insn>)
    requires rest != [] && NoInsn !in rest
    ensures Encode(rest) == EncodeInsn(rest[0]) + Encode(rest[1..])
  {
  }

  /** Emitting an instruction keeps the label table equal to LabelTable of the list. */
  lemma EmittedLabels(s: DState, insn: Insn, pos: nat)
    requires s.labels == LabelTable(s.insns)
    ensures Emitted(s, insn, pos).labels == LabelTable(Emitted(s, insn, pos).insns)
  {
    var t := s.insns + [insn];
    assert t[..|t| - 1] == s.insns;
  }

  lemma ConsInsns(done: seq<Insn>, rest: seq<Insn>)
    requires rest != []
    ensures (done + [rest[0]]) + rest[1..] == done + rest
  {
  }

  /** Decoding from a reset accumulator over the tokens of a program yields that program. */
  lemma {:induction false} DecodeEncoded(ts: seq<Token>, s: DState, rest: seq<Insn>)
    requires NoInsn !in rest
    requires s.pos <= |ts| && ts[s.pos..] == Encode(rest)
    requires s.code == 0 && s.labels == LabelTable(s.insns)
    ensures DecodeFrom(ts, s) == Some(Decoded(s.insns + rest, LabelTable(s.insns + rest)))
    decreases rest
  {
    hide Encode, EncodeInsn, LabelTable, DecodeFrom;
    if rest == [] {
      DecodeDone(ts, s);
      assert s.insns + rest == s.insns;
    } else {
      DecodeFirst(ts, s, rest);
      var t := Emitted(s, rest[0], s.pos + |EncodeInsn(rest[0])|);
      EmittedLabels(s, rest[0], t.pos);
      DecodeEncoded(ts, t, rest[1..]);
      ConsInsns(s.insns, rest);
    }
  }

  /** Once the tokens are used up, decoding returns what it has decoded. */
  lemma DecodeDone(ts: seq<Token>, s: DState)
    requires s.pos <= |ts| && ts[s.pos..] == Encode([])
    ensures DecodeFrom(ts, s) == Some(Decoded(s.insns, s.labels))
  {
    assert s.pos == |ts|;
  }

  /**
   * Round trip: the text of an encoded program (without `Insn::None`) decodes to that
   * program and to its label table.
   */
  lemma RoundTrip(insns: seq<Insn>)
    requires NoInsn !in insns
    ensures Decode(Render(Encode(insns))) == Some(Decoded(insns, LabelTable(insns)))
  {
    StripRender(Encode(insns));
    DecodeEncoded(Encode(insns), DState(0, 0, [], map[]), insns);
    assert [] + insns == insns;
  }
}
