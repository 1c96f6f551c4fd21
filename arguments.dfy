/** The numeric argument of an instruction: `parse_arg` (src/main.rs:44-64). */
module Arguments {
  import opened Wrappers
  import opened Tokens

  /** The bit a token stands for inside an argument: tab is 1, space is 0. */
  function Bit(t: Token): nat {
    if t == Tab then 1 else 0
  }

  /** The big-endian value of a run of bit tokens; the empty run is 0. */
  function BitsValue(bits: seq<Token>): nat {
    if bits == [] then 0 else 2 * BitsValue(bits[..|bits| - 1]) + Bit(bits[|bits| - 1])
  }

  /** A run of bits is non-zero exactly when it holds a tab. */
  lemma {:induction false} BitsPositive(bits: seq<Token>)
    ensures BitsValue(bits) > 0 <==> Tab in bits
  {
    if bits != [] {
      var init := bits[..|bits| - 1];
      BitsPositive(init);
      assert bits == init + [bits[|bits| - 1]];
    }
  }

  /** The shortest run of bits spelling `n` (no bits at all for zero). */
  function Binary(n: nat): (bits: seq<Token>)
    ensures LF !in bits
    ensures BitsValue(bits) == n
    decreases n
  {
    if n == 0 then []
    else
      var init := Binary(n / 2);
      var bits := init + [if n % 2 == 1 then Tab else Space];
      assert bits[..|bits| - 1] == init;
      bits
  }

  /** A decoded argument and the number of tokens `parse_arg` took from the stream. */
  datatype Arg = Arg(value: int, used: nat)

  /** The value of a sign token followed by bits: tab makes it negative (and -0 is 0). */
  function Signed(sign: Token, magnitude: nat): int {
    if sign == Tab then -(magnitude as int) else magnitude
  }

  /** The index of the first LF, or the length when there is none. */
  function FirstLF(ts: seq<Token>): (k: nat)
    ensures k <= |ts|
    ensures forall i :: 0 <= i < k ==> ts[i] != LF
    ensures k < |ts| ==> ts[k] == LF
  {
    if ts == [] || ts[0] == LF then 0 else 1 + FirstLF(ts[1..])
  }

  /**
   * What `parse_arg` does to the stream `ts`: None when there is no sign token (the
   * `unwrap` of main.rs:46 panics). Otherwise the sign, then bits up to the first LF or
   * the end of the stream, and the LF itself when there is one.
   */
  function ArgSpec(ts: seq<Token>): (r: Option<Arg>)
    ensures r.None? <==> ts == []
    ensures r.Some? ==> 1 <= r.value.used <= |ts|
  {
    if ts == [] then None else Some(SignedRun(ts[0], ts[1..]))
  }

  /** The argument after its sign token: the bits before the first LF, then that LF. */
  function SignedRun(sign: Token, tail: seq<Token>): (a: Arg)
    ensures 1 <= a.used <= |tail| + 1
  {
    var k := FirstLF(tail);
    Arg(Signed(sign, BitsValue(tail[..k])), if k < |tail| then k + 2 else k + 1)
  }

  /** `parse_arg` reading from position `pos` of the token stream. */
  method ParseArg(ts: seq<Token>, pos: nat) returns (r: Option<Arg>)
    requires pos <= |ts|
    ensures r == ArgSpec(ts[pos..])
  {
    hide FirstLF;
    if pos == |ts| {
      return None;
    }
    var neg := ts[pos] == Tab;
    var n: int := 0;
    var i := pos + 1;
    var terminated := false;
    while !terminated && i < |ts|
      invariant pos + 1 <= i <= |ts|
      invariant !terminated ==> LF !in ts[pos + 1..i] && n == BitsValue(ts[pos + 1..i])
      invariant terminated ==> pos + 2 <= i && ts[i - 1] == LF && LF !in ts[pos + 1..i - 1]
                               && n == BitsValue(ts[pos + 1..i - 1])
      decreases |ts| - i
    {
      var b := ts[i];
      i := i + 1;
      if b == LF {
        terminated := true;
      } else {
        BitsExtend(ts, pos + 1, i - 1);
        n := n * 2;
        if b == Tab {
          n := n + 1;
        }
      }
    }
    var k := if terminated then i - 1 - (pos + 1) else i - (pos + 1);
    ghost var rest := ts[pos..];
    assert rest[1..][..k] == ts[pos + 1..pos + 1 + k];
    FirstLFUnique(rest[1..], k);
    r := Some(Arg(if neg then n * -1 else n, i - pos));
  }

  /** One more bit token shifts the value read so far and adds the bit. */
  lemma BitsExtend(ts: seq<Token>, lo: nat, hi: nat)
    requires lo <= hi < |ts| && ts[hi] != LF && LF !in ts[lo..hi]
    ensures LF !in ts[lo..hi + 1]
    ensures BitsValue(ts[lo..hi + 1]) == 2 * BitsValue(ts[lo..hi]) + Bit(ts[hi])
  {
    assert ts[lo..hi + 1] == ts[lo..hi] + [ts[hi]];
    assert ts[lo..hi + 1][..hi - lo] == ts[lo..hi];
  }

  /** FirstLF is the only index with no LF before it that is an LF or the end. */
  lemma {:induction false} FirstLFUnique(ts: seq<Token>, k: nat)
    requires k <= |ts|
    requires forall i :: 0 <= i < k ==> ts[i] != LF
    requires k < |ts| ==> ts[k] == LF
    ensures FirstLF(ts) == k
  {
  }

  /**
   * A sign token, bits and a terminating LF decode to the signed value of the bits and
   * consume exactly those tokens; the value is negative iff the sign is tab and some bit
   * is set, and zero iff no bit is set.
   */
  lemma Terminated(sign: Token, bits: seq<Token>, rest: seq<Token>)
    requires LF !in bits
    ensures ArgSpec([sign] + bits + [LF] + rest)
         == Some(Arg(Signed(sign, BitsValue(bits)), |bits| + 2))
    ensures Signed(sign, BitsValue(bits)) < 0 <==> sign == Tab && Tab in bits
    ensures Signed(sign, BitsValue(bits)) == 0 <==> Tab !in bits
  {
    var tail := bits + [LF] + rest;
    assert [sign] + bits + [LF] + rest == [sign] + tail;
    ArgSpecCons(sign, tail);
    TerminatedRun(sign, bits, rest);
    BitsPositive(bits);
  }

  lemma ArgSpecCons(sign: Token, tail: seq<Token>)
    ensures ArgSpec([sign] + tail) == Some(SignedRun(sign, tail))
  {
    assert ([sign] + tail)[1..] == tail;
  }

  lemma TerminatedRun(sign: Token, bits: seq<Token>, rest: seq<Token>)
    requires LF !in bits
    ensures SignedRun(sign, bits + [LF] + rest) == Arg(Signed(sign, BitsValue(bits)), |bits| + 2)
  {
    var tail := bits + [LF] + rest;
    assert tail[..|bits|] == bits;
    FirstLFUnique(tail, |bits|);
  }

  /**
   * At the end of the stream a missing LF is no error: the bits read so far are the
   * value, and every remaining token is consumed.
   */
  lemma Unterminated(sign: Token, bits: seq<Token>)
    requires LF !in bits
    ensures ArgSpec([sign] + bits) == Some(Arg(Signed(sign, BitsValue(bits)), |bits| + 1))
  {
    assert ([sign] + bits)[1..] == bits;
    assert bits[..|bits|] == bits;
    FirstLFUnique(bits, |bits|);
  }

  /** The tokens of an argument: its sign, its magnitude in binary and a terminating LF. */
  function EncodeArg(v: int): (ts: seq<Token>)
    ensures |ts| >= 2 && ts[|ts| - 1] == LF
  {
    [if v < 0 then Tab else Space] + Binary(if v < 0 then -v else v) + [LF]
  }

  /** Decoding an encoded argument gives the value back and consumes exactly its tokens. */
  lemma ArgRoundTrip(v: int, rest: seq<Token>)
    ensures ArgSpec(EncodeArg(v) + rest) == Some(Arg(v, |EncodeArg(v)|))
  {
    var sign := if v < 0 then Tab else Space;
    var bits := Binary(if v < 0 then -v else v);
    Terminated(sign, bits, rest);
    assert EncodeArg(v) + rest == [sign] + bits + [LF] + rest;
  }
}
