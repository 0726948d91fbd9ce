/**
 * The Python built-ins the core relies on: `str.strip()`,
 * `str.replace("\r\n", "\n")`, `str(int)`, `str.join` and `min`.
 * Strings are sequences of Unicode scalar values; a lone surrogate, which a
 * Python `str` may hold, is not modelled.
 */
module Text {

  /** The characters `str.isspace()` accepts, which `str.strip()` removes. */
  predicate IsSpace(c: char) {
    var n := c as int;
    (9 <= n <= 13) || (28 <= n <= 32) || n == 0x85 || n == 0xA0 || n == 0x1680
    || (0x2000 <= n <= 0x200A) || n == 0x2028 || n == 0x2029 || n == 0x202F
    || n == 0x205F || n == 0x3000
  }

  /** Number of whitespace characters at the front of `s`. */
  function LeadingSpaces(s: string): (n: nat)
    ensures n <= |s|
    ensures forall k :: 0 <= k < n ==> IsSpace(s[k])
    ensures n < |s| ==> !IsSpace(s[n])
  {
    if s == [] || !IsSpace(s[0]) then 0 else 1 + LeadingSpaces(s[1..])
  }

  /** Number of whitespace characters at the back of `s`. */
  function TrailingSpaces(s: string): (n: nat)
    ensures n <= |s|
    ensures forall k :: |s| - n <= k < |s| ==> IsSpace(s[k])
    ensures n < |s| ==> !IsSpace(s[|s| - 1 - n])
  {
    if s == [] || !IsSpace(s[|s| - 1]) then 0 else 1 + TrailingSpaces(s[..|s| - 1])
  }

  /** `s.strip()`: `s` without its leading and trailing whitespace. */
  function Strip(s: string): (r: string)
    ensures r == [] <==> forall k :: 0 <= k < |s| ==> IsSpace(s[k])
    ensures r != [] ==> !IsSpace(r[0]) && !IsSpace(r[|r| - 1])
    ensures LeadingSpaces(s) + |r| <= |s| && r == s[LeadingSpaces(s)..LeadingSpaces(s) + |r|]
    ensures forall k :: 0 <= k < |s| && !(LeadingSpaces(s) <= k < LeadingSpaces(s) + |r|) ==> IsSpace(s[k])
  {
    var a := LeadingSpaces(s);
    if a == |s| then []
    else
      var b := TrailingSpaces(s);
      assert !IsSpace(s[a]);
      s[a..|s| - b]
  }

  /** Stripping twice is stripping once. */
  lemma StripIdempotent(s: string)
    ensures Strip(Strip(s)) == Strip(s)
  {
    var r := Strip(s);
    if r != [] {
      assert LeadingSpaces(r) == 0;
      assert TrailingSpaces(r) == 0;
    }
  }

  /** `s.replace("\r\n", "\n")`: non-overlapping occurrences, scanned left to right. */
  function ReplaceCrlf(s: string): (r: string)
    ensures |r| <= |s|
  {
    if |s| >= 2 && s[0] == '\r' && s[1] == '\n' then "\n" + ReplaceCrlf(s[2..])
    else if s == [] then []
    else [s[0]] + ReplaceCrlf(s[1..])
  }

  /** `s` with every carriage return removed. */
  function DropCr(s: string): (r: string)
    ensures '\r' !in r
  {
    if s == [] then []
    else if s[0] == '\r' then DropCr(s[1..])
    else [s[0]] + DropCr(s[1..])
  }

  /** The replacement removes carriage returns only: every other character survives, in order. */
  lemma {:induction false} ReplaceCrlfDropsOnlyCr(s: string)
    ensures DropCr(ReplaceCrlf(s)) == DropCr(s)
  {
    if |s| >= 2 && s[0] == '\r' && s[1] == '\n' {
      ReplaceCrlfDropsOnlyCr(s[2..]);
      assert s[1..][1..] == s[2..];
    } else if s != [] {
      ReplaceCrlfDropsOnlyCr(s[1..]);
    }
  }

  /** Whether a carriage return directly followed by a line feed starts at `k`. */
  predicate CrlfAt(s: string, k: int) {
    0 <= k && k + 1 < |s| && s[k] == '\r' && s[k + 1] == '\n'
  }

  /** Text with no `\r\n` pair, lone carriage returns included, is left as it is. */
  lemma {:induction false} ReplaceCrlfWithoutCrlf(s: string)
    requires forall k :: !CrlfAt(s, k)
    ensures ReplaceCrlf(s) == s
  {
    if s != [] {
      assert !CrlfAt(s, 0);
      forall k ensures !CrlfAt(s[1..], k) {
        assert !CrlfAt(s, k + 1);
      }
      ReplaceCrlfWithoutCrlf(s[1..]);
    }
  }

  /** Whether `x + y` would cut a `\r\n` pair in two. */
  predicate SplitsCrlf(x: string, y: string) {
    x != [] && y != [] && x[|x| - 1] == '\r' && y[0] == '\n'
  }

  lemma ConcatAssoc(a: string, b: string, c: string)
    ensures a + (b + c) == (a + b) + c
  {
  }

  /** A character that does not start a `\r\n` pair is copied. */
  lemma ReplaceCrlfCopies(c: char, t: string)
    requires !SplitsCrlf([c], t)
    ensures ReplaceCrlf([c] + t) == [c] + ReplaceCrlf(t)
  {
    assert ([c] + t)[1..] == t;
  }

  /**
   * The replacement works piece by piece, as long as the cut does not split
   * a `\r\n` pair.
   */
  lemma {:induction false} ReplaceCrlfAppend(x: string, y: string)
    requires !SplitsCrlf(x, y)
    ensures ReplaceCrlf(x + y) == ReplaceCrlf(x) + ReplaceCrlf(y)
    decreases |x|, 1
  {
    if x == [] {
      assert x + y == y;
    } else if |x| >= 2 && x[0] == '\r' && x[1] == '\n' {
      ReplaceCrlfAppendPair(x, y);
    } else {
      ReplaceCrlfAppendChar(x, y);
    }
  }

  /** `ReplaceCrlfAppend` when `x` starts with `\r\n`. */
  lemma {:induction false} ReplaceCrlfAppendPair(x: string, y: string)
    requires !SplitsCrlf(x, y) && |x| >= 2 && x[0] == '\r' && x[1] == '\n'
    ensures ReplaceCrlf(x + y) == ReplaceCrlf(x) + ReplaceCrlf(y)
    decreases |x|, 0
  {
    var rest := x[2..];
    var z := "\r\n" + (rest + y);
    assert x + y == z;
    assert z[0] == '\r' && z[1] == '\n' && z[2..] == rest + y;
    assert rest != [] ==> rest[|rest| - 1] == x[|x| - 1];
    ReplaceCrlfAppend(rest, y);
    calc {
      ReplaceCrlf(x + y);
      ReplaceCrlf(z);
      "\n" + ReplaceCrlf(rest + y);
      "\n" + (ReplaceCrlf(rest) + ReplaceCrlf(y));
      { ConcatAssoc("\n", ReplaceCrlf(rest), ReplaceCrlf(y)); }
      ("\n" + ReplaceCrlf(rest)) + ReplaceCrlf(y);
      ReplaceCrlf(x) + ReplaceCrlf(y);
    }
  }

  /** `ReplaceCrlfAppend` when the first character of `x` is copied. */
  lemma {:induction false} ReplaceCrlfAppendChar(x: string, y: string)
    requires !SplitsCrlf(x, y) && x != [] && !(|x| >= 2 && x[0] == '\r' && x[1] == '\n')
    ensures ReplaceCrlf(x + y) == ReplaceCrlf(x) + ReplaceCrlf(y)
    decreases |x|, 0
  {
    var rest := x[1..];
    assert x == [x[0]] + rest;
    assert x + y == [x[0]] + (rest + y);
    assert rest != [] ==> rest[|rest| - 1] == x[|x| - 1] && rest[0] == x[1];
    ReplaceCrlfAppend(rest, y);
    ReplaceCrlfCopies(x[0], rest + y);
    ReplaceCrlfCopies(x[0], rest);
    calc {
      ReplaceCrlf(x + y);
      [x[0]] + ReplaceCrlf(rest + y);
      [x[0]] + (ReplaceCrlf(rest) + ReplaceCrlf(y));
      { ConcatAssoc([x[0]], ReplaceCrlf(rest), ReplaceCrlf(y)); }
      ([x[0]] + ReplaceCrlf(rest)) + ReplaceCrlf(y);
      ReplaceCrlf(x) + ReplaceCrlf(y);
    }
  }

  /** Every `\r\n` becomes a single `\n`, whatever precedes and follows it. */
  lemma ReplaceCrlfAtCrlf(x: string, y: string)
    ensures ReplaceCrlf(x + "\r\n" + y) == ReplaceCrlf(x) + "\n" + ReplaceCrlf(y)
  {
    var t := "\r\n" + y;
    assert x + "\r\n" + y == x + t;
    assert t[0] == '\r' && t[1] == '\n' && t[2..] == y;
    ReplaceCrlfAppend(x, t);
  }

  /** A carriage return that no line feed follows is kept. */
  lemma ReplaceCrlfKeepsLoneCr(x: string, y: string)
    requires y == [] || y[0] != '\n'
    ensures ReplaceCrlf(x + "\r" + y) == ReplaceCrlf(x) + "\r" + ReplaceCrlf(y)
  {
    var t := "\r" + y;
    assert x + "\r" + y == x + t;
    assert t[0] == '\r' && t[1..] == y;
    ReplaceCrlfAppend(x, t);
  }

  /** `min(a, b)`. */
  function Min(a: int, b: int): int {
    if a <= b then a else b
  }

  predicate IsDigit(c: char) {
    '0' <= c <= '9'
  }

  function DigitChar(d: nat): (c: char)
    requires d < 10
    ensures IsDigit(c) && c as int - '0' as int == d
  {
    (('0' as int) + d) as char
  }

  /** `str(n)` for a non-negative integer: its decimal digits, without leading zeros. */
  function NatToString(n: nat): (s: string)
    ensures |s| >= 1 && forall k :: 0 <= k < |s| ==> IsDigit(s[k])
    ensures s[0] == '0' ==> n == 0
    decreases n
  {
    if n < 10 then [DigitChar(n)] else NatToString(n / 10) + [DigitChar(n % 10)]
  }

  /** The number a string of decimal digits denotes. */
  function DecimalValue(s: string): nat
    requires forall k :: 0 <= k < |s| ==> IsDigit(s[k])
  {
    if s == [] then 0
    else
      assert IsDigit(s[|s| - 1]);
      DecimalValue(s[..|s| - 1]) * 10 + (s[|s| - 1] as int - '0' as int)
  }

  /** Reading back the decimal digits gives the number. */
  lemma {:induction false} DecimalRoundTrip(n: nat)
    ensures DecimalValue(NatToString(n)) == n
    decreases n
  {
    if n >= 10 {
      var s := NatToString(n);
      DecimalRoundTrip(n / 10);
      assert s[..|s| - 1] == NatToString(n / 10);
    }
  }

  /** Different numbers print differently. */
  lemma NatToStringInjective(a: nat, b: nat)
    requires NatToString(a) == NatToString(b)
    ensures a == b
  {
    DecimalRoundTrip(a);
    DecimalRoundTrip(b);
  }

  /** `str(i)` for any integer. */
  function IntToString(i: int): (s: string)
    ensures |s| >= 1 && (i < 0 <==> s[0] == '-')
  {
    if i < 0 then "-" + NatToString(-i) else NatToString(i)
  }

  /** `sep.join(parts)`. */
  function Join(parts: seq<string>, sep: string): string
  {
    if parts == [] then ""
    else if |parts| == 1 then parts[0]
    else parts[0] + sep + Join(parts[1..], sep)
  }

  /** Where part `i` starts in `Join(parts, sep)`. */
  function Offset(parts: seq<string>, sep: string, i: nat): nat
    requires i <= |parts|
  {
    if i == 0 then 0 else |parts[0]| + |sep| + Offset(parts[1..], sep, i - 1)
  }

  /**
   * The joined string holds every part at its offset, in the order given,
   * with the separator after each part but the last.
   */
  lemma {:induction false} JoinPartAt(parts: seq<string>, sep: string, i: nat)
    requires i < |parts|
    ensures Offset(parts, sep, i) + |parts[i]| <= |Join(parts, sep)|
    ensures Join(parts, sep)[Offset(parts, sep, i)..Offset(parts, sep, i) + |parts[i]|] == parts[i]
    ensures i + 1 < |parts| ==>
      Offset(parts, sep, i + 1) == Offset(parts, sep, i) + |parts[i]| + |sep| <= |Join(parts, sep)|
      && Join(parts, sep)[Offset(parts, sep, i) + |parts[i]|..Offset(parts, sep, i + 1)] == sep
    ensures i + 1 == |parts| ==> Offset(parts, sep, i) + |parts[i]| == |Join(parts, sep)|
  {
    if i > 0 {
      var rest := parts[1..];
      JoinPartAt(rest, sep, i - 1);
      var joined, j := Join(parts, sep), Join(rest, sep);
      var o, a := |parts[0]| + |sep|, Offset(rest, sep, i - 1);
      assert joined == parts[0] + sep + j;
      assert joined[o..] == j;
      assert Offset(parts, sep, i) == o + a && rest[i - 1] == parts[i];
      SliceOfSuffix(joined, o, a, a + |parts[i]|);
      if i + 1 < |parts| {
        assert Offset(parts, sep, i + 1) == o + Offset(rest, sep, i);
        SliceOfSuffix(joined, o, a + |parts[i]|, Offset(rest, sep, i));
      }
    } else if |parts| > 1 {
      var joined := Join(parts, sep);
      assert Offset(parts, sep, 1) == |parts[0]| + |sep|;
      assert joined == parts[0] + sep + Join(parts[1..], sep);
      assert joined[0..|parts[0]|] == parts[0];
      assert joined[|parts[0]|..|parts[0]| + |sep|] == sep;
    } else {
      assert Join(parts, sep) == parts[0];
    }
  }

  /** A slice of a suffix is a slice of the whole, shifted. */
  lemma SliceOfSuffix(s: string, o: nat, a: nat, b: nat)
    requires o <= |s| && a <= b <= |s| - o
    ensures s[o + a..o + b] == s[o..][a..b]
  {
  }
}
