# albus: a Whitespace decoder and virtual machine, modelled in Dafny

albus runs programs written in Whitespace, where only space, tab and line feed carry
meaning. `parse` drops every other character. It then reads the token stream with a
two-bits-per-token accumulator and looks the accumulator up in a table of
instruction codes. Arguments are read by `parse_arg` as a sign token, big-endian bits
and a terminating LF. The result is a list of instructions and a label table.
`interpret` runs that list as a stack machine: an operand stack, a call stack and a
heap of arbitrary-precision integers. It counts the executed instructions, which
labels do not add to.

The model has one Dafny module per concern:

- `Tokens` (tokens.dfy): the stripped token stream (`src.retain`, `bytes`), the
  two-bit digit of each token, and the `u8` accumulator.
- `Instructions` (instructions.dfy): `enum Insn`, the opcode table of the `match code`,
  and each opcode's token pattern.
- `Arguments` (arguments.dfy): `parse_arg` as the imperative method `ParseArg`, proved
  equal to the functional `ArgSpec`.
- `Decoder` (decoder.dfy): `parse` as the imperative method `Parse`, proved equal to
  the function `Decode`. It also holds the encoder used for the round trip and the label
  table a decoded list determines.
- `Division` (division.dfy): BigInt's `/` and `%`, which truncate toward zero, unlike
  Dafny's Euclidean operators.
- `Machine` (machine.dfy): the loop state, one arm of `match insn` per instruction
  group, one iteration `Exec`, and the fuel-bounded loop `Run`.
- `Semantics` (semantics.dfy): what each iteration does to the stack, the heap, the
  streams, `ip` and the call stack, and exactly when it panics.
- `Interpreter` (interpreter.dfy): `interpret` as the imperative method `Interpret`. It
  is a `while` loop over a `State` record and a fuel counter, and is proved equal to
  `Run`. The per-arm methods it calls work on the stack, call stack, heap, `ip` and `n`
  as separate locals, as the source's arms do.
- `Runs` (runs.dfy): properties of whole runs: the instruction count, fuel
  monotonicity, the stream history, staying in bounds under the decoder's label table,
  and small worked programs.

A panic of the source (a failed `unwrap`, an index out of range, a missing map key, a
division by zero) is a value here. `Parse` returns `None`, and `Run` returns
`Crashed` with a `Fault` saying which panic it was and the state before the
instruction that raised it.

Two behaviours of `parse` are easy to miss; the model follows the code:

- A final argument cut off by the end of the input, before its LF, is still emitted
  with the bits read so far (`Arguments.Unterminated`). Only an opcode whose argument
  lacks even its sign token makes `parse` panic (`Decoder.DecodeStepEffect`).
- A run of tokens that matches no table entry is never reset. The accumulator keeps
  its wrapped value and goes on growing (`Decoder.DecodeStepEffect`), so after four
  tokens it holds the code of the last four (`Tokens.FoldWindow`). An unmatched run can
  therefore decode to an instruction through its last four tokens: LF LF Space Tab
  Space Space Space decodes to Add (`Decoder.UnmatchedRunDecodes`).

## Model

| member | source | states |
|---|---|---|
| Tokens.ByteOf | src/main.rs:72-76 | space, tab and LF are the bytes 32, 9 and 10, each one only for its own token |
| Tokens.TokenOf | src/main.rs:72 | every character kept by the filter is the character of its token |
| Tokens.Strip | src/main.rs:72-73 | the stripped stream is no longer than the text, and every token in it comes from a character of the text |
| Tokens.StripConcat | src/main.rs:72 | characters are filtered one at a time: stripping distributes over concatenation |
| Tokens.StripComment | src/main.rs:72 | text with no space, tab or LF (a comment) strips to nothing |
| Tokens.StripRender | src/main.rs:72-73 | stripping the text of a token sequence gives the tokens back |
| Tokens.Digit | src/main.rs:76 | `byte % 4 + 1` is 1 for space, 2 for tab, 3 for LF, so no token contributes 0 |
| Tokens.DigitInjective | src/main.rs:76 | different tokens have different two-bit codes |
| Tokens.AccRange | src/main.rs:76 | the unwrapped code of a run of k tokens lies in [(4^k - 1)/3, 4^k), so runs of different lengths never collide |
| Tokens.AccInjective | src/main.rs:76 | different token runs have different unwrapped codes |
| Tokens.Accumulate | src/main.rs:69-76 | below 64 the `u8` update `code * 4 + digit` does not wrap |
| Tokens.FoldWindow | src/main.rs:69-76 | the wrapped accumulator is the unwrapped code modulo 256; up to four tokens it is exact, and after four or more it is the code of the last four |
| Instructions.Build | src/main.rs:77-107 | each arm builds a real instruction; it is a Label exactly for the label code, and it carries the argument exactly when the arm reads one |
| Instructions.BuildOpcodeOf | src/main.rs:77-107 | every instruction is rebuilt from its opcode and its argument |
| Instructions.CodeOfPattern | src/main.rs:78-105 | each opcode's token pattern accumulates to that opcode's table value |
| Instructions.TableInverse | src/main.rs:77-106 | a value selects an opcode exactly when it is that opcode's code |
| Instructions.TableReachesPattern | src/main.rs:78-105 | reading an opcode's pattern from a zero accumulator reaches its table arm |
| Instructions.TableCode | src/main.rs:78-105 | every table value is the code of its opcode's pattern |
| Instructions.TableExactly | src/main.rs:77-106 | over the unwrapped code Acc(ts), a table arm is reached from zero by exactly one token run, its opcode's pattern, in both directions |
| Instructions.TableExactlyWrapped | src/main.rs:69-106 | with the `u8` accumulator itself, a run of at most four tokens reaches a table arm iff it is that opcode's pattern |
| Instructions.PrefixMisses | src/main.rs:77-106 | no proper prefix of a pattern, the empty one included, hits the table |
| Instructions.PrefixFree | src/main.rs:78-105 | the patterns form a prefix-free code: no pattern is a proper prefix of another, and different opcodes have different patterns |
| Arguments.BitsPositive | src/main.rs:52-55 | a run of bits is non-zero exactly when it holds a tab |
| Arguments.Binary | src/main.rs:52-55 | every natural number has a run of bit tokens without LF that reads back as that number |
| Arguments.FirstLF | src/main.rs:48-50 | the loop stops at the first LF: none before it, and an LF at it unless the stream ended |
| Arguments.ArgSpec | src/main.rs:44-64 | `parse_arg` fails exactly on an empty stream (the sign `unwrap`); otherwise it takes at least the sign and never more than the stream |
| Arguments.SignedRun | src/main.rs:46-63 | the sign and at most the rest of the stream are consumed |
| Arguments.ParseArg | src/main.rs:44-64 | the loop over the token stream returns exactly ArgSpec of the stream from `pos`: the value and the number of tokens consumed, or the missing-sign failure |
| Arguments.FirstLFUnique | src/main.rs:48-50 | the first LF (or the end) is the only stopping point with no LF before it |
| Arguments.Terminated | src/main.rs:44-64 | sign, bits and LF decode to the signed big-endian value of the bits and consume exactly those tokens; the value is negative iff the sign is tab and some bit is set, zero iff no bit is set |
| Arguments.Unterminated | src/main.rs:48-57 | at the end of the stream a missing LF is no error: the bits read so far are the value, and all tokens are consumed |
| Arguments.EncodeArg | src/main.rs:44-64 | an encoded argument has a sign and ends with its LF |
| Arguments.ArgRoundTrip | src/main.rs:44-64 | decoding an encoded argument, whatever follows it, gives the value back and consumes exactly its tokens |
| Decoder.Select | src/main.rs:77-107 | an arm that reads an argument never moves the stream backwards nor past its end |
| Decoder.SelectInsn | src/main.rs:77-107 | the imperative `match code` equals Select: the table's instruction with its argument, `Insn::None`, or the missing-sign failure |
| Decoder.DecodeStep | src/main.rs:75-113 | an iteration that succeeds always advances the stream |
| Decoder.DecodeStepEffect | src/main.rs:75-113 | an iteration fails exactly when an argument-taking code is completed by the last token; otherwise it emits the selected opcode's instruction, built with the value `parse_arg` read after it, resumes the stream after the argument's tokens (or right after the opcode when it takes none), and resets `code` to 0, updating the labels only for a Label; or it emits nothing and keeps the grown, wrapped `code` |
| Decoder.Parse | src/main.rs:66-116 | the imperative `parse` equals Decode of the source text, panics included |
| Decoder.LabelTableSpec | src/main.rs:85-89 | a value is in the label table iff a Label of it is in the list; its entry indexes a Label of it with no later Label of it (last definition wins) |
| Decoder.LabelTableInRange | src/main.rs:87 | every label entry indexes into the instruction list |
| Decoder.DecodeFromConsistent | src/main.rs:75-115 | the loop keeps its invariant: no `Insn::None` in `insns`, and `labels` is the label table of `insns` |
| Decoder.DecodeConsistent | src/main.rs:66-116 | a decoded program never holds `Insn::None`, and its label table is the one its list determines |
| Decoder.WalkPrefix | src/main.rs:75-112 | decoding walks through the proper prefixes of a pattern without emitting anything |
| Decoder.SelectEncoded | src/main.rs:77-107 | the full pattern of an instruction in the accumulator selects that instruction, with its argument read back from the following tokens |
| Decoder.SelectArgAt | src/main.rs:78-89 | an arm with an argument, over an encoded argument, builds its instruction from exactly that argument |
| Decoder.WalkOpcode | src/main.rs:75-112 | from a reset accumulator, decoding reads an opcode's pattern and emits what its arm selects |
| Decoder.WalkEncoded | src/main.rs:75-112 | from a reset accumulator, the tokens of one instruction decode to that instruction |
| Decoder.DecodeFirst | src/main.rs:75-112 | the tokens of a non-empty program decode their first instruction and go on right after its tokens |
| Decoder.DecodeEncoded | src/main.rs:75-115 | from a reset accumulator over the tokens of a program, decoding appends exactly that program and its labels |
| Decoder.RoundTrip | src/main.rs:66-116 | the text of any encoded program without `Insn::None` decodes to that program and its label table |
| Decoder.UnmatchedRunDecodes | src/main.rs:75-113 | an unmatched run is not reset: LF LF Space Tab misses the table, and three more spaces wrap the accumulator to Add's code, so the text decodes to `[Add]` though it is not Add's pattern |
| Division.QuotRem | src/main.rs:176-185 | quotient and remainder of magnitudes recompose the dividend, with the remainder below the divisor |
| Division.TDivBounds | src/main.rs:176-180 | TDiv, BigInt's `/`, truncates toward zero: its magnitude is how often \|b\| fits in \|a\|, and a non-zero result is negative iff the operands' signs differ |
| Division.TModSpec | src/main.rs:181-185 | TMod, BigInt's `%`, recomposes the dividend with TDiv, is smaller than the divisor in magnitude, and a non-zero result has the dividend's sign |
| Division.NegativeDividend | src/main.rs:176-185 | -7 / 2 is -3 and -7 % 2 is -1, where Dafny's own operators give -4 and 1 |
| Machine.LineEnd | src/main.rs:205 | the line `read_line` takes ends one past the first newline byte, or at the end of input |
| Machine.Line | src/main.rs:204-205 | the line is a prefix of the input, ends with its only newline if it has one, and is the whole input otherwise |
| Machine.Arith | src/main.rs:161-185 | an arithmetic arm fails exactly for Div or Mod by zero |
| Semantics.StackFrame | src/main.rs:125-215 | an iteration that does not panic changes the depth by Delta and leaves the stack below the consumed entries untouched |
| Semantics.Pushes | src/main.rs:128-156 | Push, Dup and Copy(k) add exactly the argument, the top, and the value k below the top |
| Semantics.Slides | src/main.rs:133-136 | Slide(k) removes exactly the k values below the top and keeps the top |
| Semantics.Swaps | src/main.rs:157-160 | Swap exchanges the top two values |
| Semantics.Arithmetic | src/main.rs:161-185 | the arithmetic instructions pop the right operand and replace the left one with `left op right`; Div and Mod truncate and never see a zero divisor |
| Semantics.Stores | src/main.rs:186-190 | Store pops the value, then the key, and binds the key to the value |
| Semantics.Loads | src/main.rs:191-194 | Load replaces the key on top with the value bound to it, which must exist |
| Semantics.HeapFrame | src/main.rs:186-207 | only Store, Ichr and Inum change the heap, each only at the key it popped |
| Semantics.Reads | src/main.rs:196-207 | Ichr stores the next byte of stdin, or 0 at its end; Inum stores the parsed next line; each consumes exactly what it read |
| Semantics.ReadArm | src/main.rs:196-207 | the Ichr and Inum arms, on the state they continue with, store and consume as Reads states |
| Semantics.OutputFrame | src/main.rs:208-211 | Ochr prints one byte-valued character and Onum one number, popped from the top; nothing else prints, and only Ichr and Inum read stdin |
| Semantics.NextIp | src/main.rs:137-152 | Call and Jump land one past the label's index, Jz and Jn either there or on the next instruction (which one is `Semantics.ConditionalJump`), Ret one past the saved index, all others on the next instruction; only Call and Ret touch the call stack |
| Semantics.ConditionalJump | src/main.rs:143-152 | Jz and Jn always pop, and jump exactly when the popped value is zero, or negative |
| Semantics.CallThenRet | src/main.rs:138-195 | a Ret that finds a Call's entry on top resumes one past that Call and restores the call stack the Call found |
| Semantics.ExitStops | src/main.rs:212 | Exit, and only Exit, leaves the loop; it is counted and `ip` stays |
| Semantics.Counts | src/main.rs:126-137 | every completed iteration adds 1 to `n`, except a Label or `Insn::None` |
| Semantics.PanicsExactly | src/main.rs:125-213 | an iteration panics exactly in the listed cases: a non-`usize` Copy or Slide argument, too shallow a stack, an undefined label, Ret without Call, a Load of an unbound key, a zero divisor, a non-byte Ochr value, an unparsable Inum line |
| Semantics.Effects | src/main.rs:125-215 | one iteration keeps the stack, heap, stream and control-flow frames and panics exactly as Panics lists |
| Semantics.ShuffleKeeps | src/main.rs:128-160 | the stack-shuffling arms change the depth by Delta below the consumed entries and never touch the heap |
| Interpreter.Shuffle | src/main.rs:128-160 | the Push, Pop, Dup and Swap arms over the loop's locals equal Exec |
| Interpreter.Pick | src/main.rs:129-136 | the Copy and Slide arms, with `to_usize` and the index arithmetic, equal Exec |
| Interpreter.Arithmetic | src/main.rs:161-185 | the arithmetic arms equal Exec |
| Interpreter.Control | src/main.rs:137-212 | the Label, None, Call, Jump, Jz, Jn, Ret and Exit arms equal Exec |
| Interpreter.Memory | src/main.rs:186-207 | the Store, Load, Ichr and Inum arms equal Exec |
| Interpreter.Output | src/main.rs:208-211 | the Ochr and Onum arms equal Exec |
| Interpreter.Execute | src/main.rs:124-215 | one pass of the loop body equals Exec, the iteration whose frames Effects states |
| Interpreter.Interpret | src/main.rs:118-218 | the imperative loop ends exactly as Run does from the empty start state: halted, crashed with its fault, or out of fuel |
| Runs.RunCounts | src/main.rs:123-137 | `n` grows by the number of executed instructions that are not Labels, Exit included |
| Runs.MoreFuel | src/main.rs:125-215 | a run that did not run out of fuel ends the same with any more fuel |
| Runs.StepHistory | src/main.rs:196-211 | one iteration only appends to the output and only consumes stdin from the front |
| Runs.RunHistory | src/main.rs:196-211 | a whole run only appends to the output and only consumes stdin from the front |
| Runs.StepInBounds | src/main.rs:138-195 | under the decoder's label table an iteration keeps `ip` and every saved return index in bounds |
| Runs.RunInBounds | src/main.rs:125-215 | under the decoder's label table a run stays in bounds, and a halted run stopped on an Exit or exactly at the end of the program |
| Runs.JumpsToLastLabel | src/main.rs:138-142 | with the decoder's label table, Call and Jump proceed iff the program has a Label of their value, and land one past its last definition |
| Runs.PushesFrom | src/main.rs:128 | a tail of Pushes followed by Exit appends the pushed values in order and counts each instruction |
| Runs.PushesThenExit | src/main.rs:125-215 | Pushes then Exit halt with the values on the stack in order and `n` equal to their number plus one |
| Runs.DupAddDoubles | src/main.rs:156-165 | Dup then Add turns a top `v` into `2 * v` and leaves the rest of the stack |
| Runs.AddAndPrint | src/main.rs:128-211 | Push 1, Push 2, Add, Onum prints the number 3, leaves an empty stack and counts 4 |
| Runs.StoreThenLoad | src/main.rs:186-194 | storing `v` under `k` and then loading `k` leaves `v` on the stack and the heap `{k: v}` |
| Runs.LoadUnset | src/main.rs:191-194 | loading a key that was never stored panics with that key, before the Load |

## Left out

- `main` (src/main.rs:220-236) is not modelled: reading the file named on the command line, and printing the final stack, heap and count.
- Real I/O is replaced by values. stdin is one byte sequence in the machine state, shared by Ichr and Inum in the order they run. stdout is the `Out` log appended by Ochr and Onum.
- Machine.ShuffleArm: the kind of fault reported follows a release build. A debug build panics earlier on some `usize` underflows: Slide(-1) on an empty stack underflows `stack.len() - 1` (src/main.rs:134) before `to_usize` is called, so it panics with an underflow where the model reports `NotUsize`. Either way the run panics at that instruction.
- Tokens.Accumulate: models the `u8` accumulator with release-build wrap-around. A debug build panics instead on the fifth token of a run that matches no table entry.
- Machine.Exec: the counter `n` is an unbounded `nat`. The `u32` overflow of `n` is not modelled.
- Machine.IsUsize: `usize` is taken to be 64 bits wide (`UsizeLimit` is 2^64), as on the usual targets.
- Semantics.OutputFrame: Ochr logs the byte it prints as `Chr(byte)`. The UTF-8 encoding that `as char` and `print!` give bytes of 128 or more is not modelled.
- Semantics.Reads: `trim_end().parse::<BigInt>()` is the `LineParser` parameter, which is unconstrained. With it, Inum at the end of input (`Line([]) == []`) or on a blank line may succeed. The source always panics there, because parsing an empty string fails.
- Machine.Run: a run is bounded by fuel. A program that never stops shows up as `OutOfFuel`, not as non-termination. `Interpreter.Interpret` takes the same fuel.
- BigInt is `int` and `hashbrown::HashMap` is `map`. Their internals, and memory exhaustion, are not modelled.
- `Insn::None` never reaches `interpret` from `parse` (`Decoder.DecodeConsistent`). The machine still gives it the source's arm: it does nothing and is not counted.
