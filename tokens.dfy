/**
 * The token alphabet of a Whitespace program and the opcode accumulator built from it
 * (src/main.rs:72-76).
 */
module Tokens {

  /** A byte, as yielded by `str::bytes` and read from stdin. */
  type byte = x: int | 0 <= x < 256

  /** The three characters that survive `src.retain(...)`. */
  datatype Token = Space | Tab | LF

  /** The byte of each token character. */
  function ByteOf(t: Token): (b: byte)
    ensures b == 32 <==> t == Space
    ensures b == 9 <==> t == Tab
    ensures b == 10 <==> t == LF
  {
    match t
    case Space => 32
    case Tab => 9
    case LF => 10
  }

  function CharOf(t: Token): char {
    match t
    case Space => ' '
    case Tab => '\t'
    case LF => '\n'
  }

  predicate IsToken(c: char) {
    c == ' ' || c == '\t' || c == '\n'
  }

  function TokenOf(c: char): (t: Token)
    requires IsToken(c)
    ensures CharOf(t) == c
  {
    if c == ' ' then Space else if c == '\t' then Tab else LF
  }

  /**
   * `src.retain(|c| c == ' ' || c == '\t' || c == '\n')` followed by `src.bytes()`:
   * every other character is dropped, the rest keep their order.
   */
  function Strip(src: string): (ts: seq<Token>)
    ensures |ts| <= |src|
    ensures forall i :: 0 <= i < |ts| ==> CharOf(ts[i]) in src
  {
    if src == [] then []
    else
      var rest := Strip(src[1..]);
      assert forall i :: 0 <= i < |rest| ==> CharOf(rest[i]) in src by {
        forall i | 0 <= i < |rest| ensures CharOf(rest[i]) in src {
          var j :| 0 <= j < |src[1..]| && src[1..][j] == CharOf(rest[i]);
          assert src[j + 1] == CharOf(rest[i]);
        }
      }
      if IsToken(src[0]) then [TokenOf(src[0])] + rest else rest
  }

  /** The program text made of the given tokens. */
  function Render(ts: seq<Token>): (s: string)
    ensures |s| == |ts|
    ensures forall i :: 0 <= i < |ts| ==> s[i] == CharOf(ts[i])
  {
    if ts == [] then [] else [CharOf(ts[0])] + Render(ts[1..])
  }

  /** Stripping distributes over concatenation: characters are filtered one at a time. */
  lemma {:induction false} StripConcat(a: string, b: string)
    ensures Strip(a + b) == Strip(a) + Strip(b)
  {
    if a != [] {
      assert (a + b)[1..] == a[1..] + b;
      StripConcat(a[1..], b);
    } else {
      assert a + b == b;
    }
  }

  /** A string without token characters strips to nothing (comments vanish). */
  lemma {:induction false} StripComment(s: string)
    requires forall i :: 0 <= i < |s| ==> !IsToken(s[i])
    ensures Strip(s) == []
  {
    if s != [] {
      StripComment(s[1..]);
    }
  }

  /** Stripping the rendered text gives back the tokens. */
  lemma {:induction false} StripRender(ts: seq<Token>)
    ensures Strip(Render(ts)) == ts
  {
    if ts != [] {
      var s := Render(ts);
      assert s[1..] == Render(ts[1..]);
      StripRender(ts[1..]);
      assert IsToken(s[0]) && TokenOf(s[0]) == ts[0] by {
        match ts[0]
        case Space =>
        case Tab =>
        case LF =>
      }
    }
  }

  /**
   * The two-bit code `byte % 4 + 1` of main.rs:76: space is 1, tab is 2, LF is 3,
   * so no token yields 0, the value of the empty accumulator.
   */
  function Digit(t: Token): (d: int)
    ensures d == (match t case Space => 1 case Tab => 2 case LF => 3)
  {
    ByteOf(t) % 4 + 1
  }

  lemma DigitInjective(a: Token, b: Token)
    ensures Digit(a) == Digit(b) <==> a == b
  {
  }

  function Pow4(k: nat): (p: nat)
    ensures p >= 1
  {
    if k == 0 then 1 else 4 * Pow4(k - 1)
  }

  /**
   * The value of the accumulator of main.rs:76 after reading `s` from zero, without the
   * 8-bit wrap-around: `code = code * 4 + d` for each token in order. The last token is
   * the lowest base-4 digit, so the run can be read back from the value.
   */
  function Acc(s: seq<Token>): nat {
    if s == [] then 0 else Acc(s[..|s| - 1]) * 4 + Digit(s[|s| - 1])
  }

  /** A run of k tokens lands in [(4^k - 1) / 3, 4^k): runs of different lengths never collide. */
  lemma {:induction false} AccRange(s: seq<Token>)
    ensures 3 * Acc(s) >= Pow4(|s|) - 1
    ensures Acc(s) < Pow4(|s|)
  {
    if s != [] {
      AccRange(s[..|s| - 1]);
    }
  }

  /** One more token: the accumulator shifts two bits and adds the token's code. */
  lemma AccSnoc(s: seq<Token>, t: Token)
    ensures Acc(s + [t]) == Acc(s) * 4 + Digit(t)
  {
    assert (s + [t])[..|s|] == s;
  }

  lemma DivMod4(q: nat, d: int)
    requires 1 <= d <= 3
    ensures (q * 4 + d) % 4 == d && (q * 4 + d) / 4 == q
  {
  }

  /** Different token runs give different accumulator values, whatever their lengths. */
  lemma {:induction false} AccInjective(a: seq<Token>, b: seq<Token>)
    requires Acc(a) == Acc(b)
    ensures a == b
  {
    if a != [] && b != [] {
      var x, y := a[|a| - 1], b[|b| - 1];
      var a', b' := a[..|a| - 1], b[..|b| - 1];
      DivMod4(Acc(a'), Digit(x));
      DivMod4(Acc(b'), Digit(y));
      DigitInjective(x, y);
      assert x == y;
      assert Acc(a[..|a| - 1]) == Acc(b[..|b| - 1]);
      AccInjective(a[..|a| - 1], b[..|b| - 1]);
      assert a == a[..|a| - 1] + [x];
      assert b == b[..|b| - 1] + [y];
    }
  }

  /** The `u8` update of main.rs:69,76 as a release build computes it (wrapping modulo 256). */
  function Accumulate(code: byte, t: Token): (c: byte)
    ensures code < 64 ==> c == code * 4 + Digit(t)
  {
    (code * 4 + Digit(t)) % 256
  }

  /** Folding Accumulate over `s` from zero. */
  function Fold(s: seq<Token>): byte {
    if s == [] then 0 else Accumulate(Fold(s[..|s| - 1]), s[|s| - 1])
  }

  /**
   * With wrap-around the accumulator is the unwrapped code modulo 256, so after four or
   * more tokens it holds exactly the code of the last four: a sliding window.
   */
  lemma {:induction false} FoldWindow(s: seq<Token>)
    ensures Fold(s) == Acc(s) % 256
    ensures |s| <= 4 ==> Fold(s) == Acc(s)
    ensures |s| >= 4 ==> Fold(s) == Acc(s[|s| - 4..])
  {
    if s != [] {
      var p := s[..|s| - 1];
      FoldWindow(p);
      ModShift(Acc(p), Digit(s[|s| - 1]));
      if |s| <= 4 {
        AccRange(s);
        Pow4Mono(|s|, 4);
      }
      if |s| >= 4 {
        AccWindow(s);
      }
    }
  }

  lemma ModShift(a: nat, d: int)
    ensures (a % 256 * 4 + d) % 256 == (a * 4 + d) % 256
  {
    var q, r := a / 256, a % 256;
    assert a == 256 * q + r;
    assert a * 4 + d == 256 * (4 * q) + (r * 4 + d);
  }

  lemma {:induction false} Pow4Mono(i: nat, j: nat)
    requires i <= j
    ensures Pow4(i) <= Pow4(j)
  {
    if i < j {
      Pow4Mono(i, j - 1);
    }
  }

  /** The code of a run is its last four tokens' code plus a multiple of 4^4 = 256. */
  lemma AccWindow(s: seq<Token>)
    requires |s| >= 4
    ensures Acc(s) % 256 == Acc(s[|s| - 4..])
  {
    var p, w := s[..|s| - 4], s[|s| - 4..];
    assert p + w == s;
    AccSplit(p, w);
    assert Pow4(|w|) == 256;
    AccRange(w);
    ModMultiple(Acc(p), Acc(w));
  }

  lemma ModMultiple(a: nat, w: nat)
    requires w < 256
    ensures (a * 256 + w) % 256 == w
  {
  }

  lemma {:induction false} AccSplit(p: seq<Token>, q: seq<Token>)
    ensures Acc(p + q) == Acc(p) * Pow4(|q|) + Acc(q)
  {
    if q == [] {
      assert p + q == p;
    } else {
      var q', t := q[..|q| - 1], q[|q| - 1];
      assert p + q == (p + q') + [t];
      assert q == q' + [t];
      AccSnoc(p + q', t);
      AccSnoc(q', t);
      AccSplit(p, q');
      ShiftProduct(Acc(p), Pow4(|q'|), Acc(q'), Digit(t));
    }
  }

  lemma ShiftProduct(a: int, m: int, b: int, d: int)
    ensures (a * m + b) * 4 + d == a * (4 * m) + (b * 4 + d)
  {
  }
}
