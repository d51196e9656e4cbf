/**
 * Character and string helpers shared by the parsers of the model: ASCII
 * digits and case, prefixes and substrings, and the two digit-accumulating
 * loops the engine uses to read numbers out of server replies.
 */
module Text {
  import opened Common

  predicate IsDigit(c: char)
  {
    '0' <= c <= '9'
  }

  /** `fz::str_tolower_ascii` on one character: only `A`-`Z` change. */
  function LowerAscii(c: char): (l: char)
    ensures 'A' <= c <= 'Z' ==> l as int == c as int + 32
    ensures !('A' <= c <= 'Z') ==> l == c
  {
    if 'A' <= c <= 'Z' then (c as int + 32) as char else c
  }

  function ToLowerAscii(s: seq<char>): (l: seq<char>)
    ensures |l| == |s| && forall i :: 0 <= i < |s| ==> l[i] == LowerAscii(s[i])
  {
    seq(|s|, i requires 0 <= i < |s| => LowerAscii(s[i]))
  }

  predicate StartsWith(s: seq<char>, p: seq<char>)
  {
    |p| <= |s| && s[..|p|] == p
  }

  /** `sub` occurs in `s` starting at index `i`. */
  predicate OccursAt(s: seq<char>, sub: seq<char>, i: int)
  {
    0 <= i <= |s| - |sub| && s[i..i + |sub|] == sub
  }

  /** `s.find(sub) != npos`. */
  predicate Contains(s: seq<char>, sub: seq<char>)
  {
    exists i :: 0 <= i <= |s| - |sub| && OccursAt(s, sub, i)
  }

  /** The longest prefix of `s` made of decimal digits. */
  function DigitPrefix(s: seq<char>): (p: seq<char>)
    ensures AllDigits(p) && |p| <= |s| && p == s[..|p|]
    ensures |p| < |s| ==> !IsDigit(s[|p|])
    decreases |s|
  {
    if s == [] || !IsDigit(s[0]) then []
    else
      var rest := DigitPrefix(s[1..]);
      assert s[..1 + |rest|] == [s[0]] + rest;
      [s[0]] + rest
  }

  /** The value of the digits before `s[i]`, extended by one digit. */
  lemma DigitsValueStep(s: seq<char>, i: nat)
    requires i < |s| && AllDigits(s[..i + 1])
    ensures AllDigits(s[..i]) && DigitsValue(s[..i + 1]) == DigitsValue(s[..i]) * 10 + (s[i] as int - '0' as int)
  {
    assert s[..i + 1][..i] == s[..i];
  }

  /**
   * The SIZE-reply loop: accumulate digits until the first non-digit; the
   * result is the value of the maximal leading digit run.
   */
  method ParseLeadingNumber(s: seq<char>) returns (n: nat)
    ensures n == DigitsValue(DigitPrefix(s))
  {
    n := 0;
    var i := 0;
    while i < |s| && IsDigit(s[i])
      invariant i <= |s| && AllDigits(s[..i]) && n == DigitsValue(s[..i])
      invariant s[..i] == DigitPrefix(s)[..i] && i <= |DigitPrefix(s)|
    {
      DigitsValueStep(s, i);
      n := n * 10 + (s[i] as int - '0' as int);
      i := i + 1;
    }
    assert s[..i] == DigitPrefix(s);
  }

  /**
   * The mtime-reply loop: accumulate digits, and give up at the first
   * character that is not one; succeeds exactly for an all-digit string.
   */
  method ParseNumber(s: seq<char>) returns (r: Option<nat>)
    ensures r.Some? <==> AllDigits(s)
    ensures r.Some? ==> r.value == DigitsValue(s)
  {
    var n := 0;
    var i := 0;
    while i < |s|
      invariant i <= |s| && AllDigits(s[..i]) && n == DigitsValue(s[..i])
    {
      if !IsDigit(s[i]) {
        return None;
      }
      DigitsValueStep(s, i);
      n := n * 10 + (s[i] as int - '0' as int);
      i := i + 1;
    }
    assert s[..i] == s;
    r := Some(n);
  }

  function DigitChar(d: nat): (c: char)
    requires d < 10
    ensures IsDigit(c) && c as int - '0' as int == d
  {
    ('0' as int + d) as char
  }

  /** `%d`/`%u` formatting of a non-negative number: decimal, no leading zeros. */
  function Decimal(n: nat): (s: seq<char>)
    decreases n
  {
    if n < 10 then [DigitChar(n)] else Decimal(n / 10) + [DigitChar(n % 10)]
  }

  /** Formatting then parsing gives the number back; the text is non-empty digits. */
  lemma {:induction false} DecimalRoundTrip(n: nat)
    ensures |Decimal(n)| > 0 && AllDigits(Decimal(n)) && DigitsValue(Decimal(n)) == n
    ensures Decimal(n)[0] != '0' || n == 0
    decreases n
  {
    if n >= 10 {
      DecimalRoundTrip(n / 10);
      var s := Decimal(n);
      assert s[..|s| - 1] == Decimal(n / 10);
    }
  }

  /** The whitespace `fz::ltrimmed` and `fz::trimmed` drop by default. */
  predicate IsTrimSpace(c: char)
  {
    c == ' ' || c == '\r' || c == '\n' || c == '\t'
  }

  /** `fz::ltrimmed`: the text without its leading whitespace. */
  function LTrim(s: seq<char>): (r: seq<char>)
    ensures |r| <= |s| && r == s[|s| - |r|..]
    ensures forall i :: 0 <= i < |s| - |r| ==> IsTrimSpace(s[i])
    ensures r == [] || !IsTrimSpace(r[0])
  {
    if s != [] && IsTrimSpace(s[0]) then LTrim(s[1..]) else s
  }

  /** The end of `s[..n]` once trailing whitespace is dropped. */
  function TrimmedEnd(s: seq<char>, n: nat): (e: nat)
    requires n <= |s|
    ensures e <= n && (e == 0 || !IsTrimSpace(s[e - 1]))
    ensures n > 0 && !IsTrimSpace(s[0]) ==> e > 0
    decreases n
  {
    if n > 0 && IsTrimSpace(s[n - 1]) then TrimmedEnd(s, n - 1) else n
  }

  /** The start of `s[i..e]` once leading whitespace is dropped. */
  function TrimmedStart(s: seq<char>, i: nat, e: nat): (b: nat)
    requires i <= e <= |s|
    ensures i <= b <= e && (b == e || !IsTrimSpace(s[b]))
    decreases e - i
  {
    if i < e && IsTrimSpace(s[i]) then TrimmedStart(s, i + 1, e) else i
  }

  /** `fz::trim`: the text without whitespace at either end. */
  function Trim(s: seq<char>): (r: seq<char>)
    ensures r == [] || (!IsTrimSpace(r[0]) && !IsTrimSpace(r[|r| - 1]))
    ensures |r| <= |s|
    ensures s == [] || (!IsTrimSpace(s[0]) && !IsTrimSpace(s[|s| - 1])) ==> r == s
  {
    var e := TrimmedEnd(s, |s|);
    s[TrimmedStart(s, 0, e)..e]
  }

  /** `find_last_of(c)`: the last index holding `c`, or -1 for `npos`. */
  function LastIndex(s: seq<char>, c: char): (r: int)
    ensures -1 <= r < |s|
    ensures r >= 0 ==> s[r] == c && c !in s[r + 1..]
    ensures r == -1 <==> c !in s
  {
    if s == [] then -1
    else if s[|s| - 1] == c then |s| - 1
    else LastIndex(s[..|s| - 1], c)
  }

  /** The last `c` is the one after which no `c` follows. */
  lemma {:induction false} LastIndexAt(a: seq<char>, c: char, b: seq<char>)
    requires c !in b
    ensures LastIndex(a + [c] + b, c) == |a|
    decreases |b|
  {
    var s := a + [c] + b;
    if b != [] {
      assert s[|s| - 1] == b[|b| - 1];
      assert s[..|s| - 1] == a + [c] + b[..|b| - 1];
      LastIndexAt(a, c, b[..|b| - 1]);
    }
  }

  /** `find(c)`: the first index holding `c`, or -1 for `npos`. */
  function FirstIndex(s: seq<char>, c: char): (r: int)
    ensures -1 <= r < |s|
    ensures r >= 0 ==> s[r] == c && c !in s[..r]
    ensures r == -1 <==> c !in s
  {
    if s == [] then -1
    else if s[0] == c then 0
    else
      var k := FirstIndex(s[1..], c);
      if k < 0 then -1 else assert s[..k + 1] == [s[0]] + s[1..][..k]; k + 1
  }

  /** The first `c` is the one before which none stands. */
  lemma FirstIndexAt(a: seq<char>, c: char, b: seq<char>)
    requires c !in a
    ensures FirstIndex(a + [c] + b, c) == |a|
  {
    var s := a + [c] + b;
    assert s[|a|] == c && s[..|a|] == a;
  }
}
