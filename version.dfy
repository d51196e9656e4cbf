/**
 * `ConvertToVersionNumber`: a version string `A.B.C.D-rcE-betaF` packed
 * into one integer so that versions compare as numbers. Each of A..D and F
 * takes ten bits, E nine, and the bit between D and E (`0x80000`) marks a
 * final release.
 */
module Version {
  import opened Common
  import opened Text

  /** The three variables of the conversion loop. */
  datatype Scan = Scan(v: int, segment: int, shifts: int)

  /** `v << (10 * n)`. */
  function Shl10(v: int, n: nat): int
  {
    if n == 0 then v else Shl10(v, n - 1) * 1024
  }

  lemma Shl10Values(x: int)
    ensures Shl10(x, 0) == x && Shl10(x, 1) == x * 1024 && Shl10(x, 2) == x * 0x10_0000
    ensures Shl10(x, 3) == x * 0x4000_0000
  {
  }

  /** `x` bits: a final release, ranked above every rc and beta of the same base. */
  const FinalBit: int := 0x80000

  /** Twenty low bits: the rc, the final-release bit and the beta. */
  const LowMask: int := 0x100000

  /** One character of the loop: a separator closes the segment, a digit extends it. */
  function Step(st: Scan, c: char): (r: Scan)
    ensures r.shifts >= st.shifts
  {
    var closed := if c == '.' || c == '-' || c == 'b' then Scan((st.v + st.segment) * 1024, 0, st.shifts + 1) else st;
    if c == '-' && closed.shifts < 4 then Scan(Shl10(closed.v, 4 - closed.shifts), closed.segment, 4)
    else if IsDigit(c) then Scan(closed.v, closed.segment * 10 + (c as int - '0' as int), closed.shifts)
    else closed
  }

  /** The loop run over `s`, from the state `st`. */
  function Run(st: Scan, s: seq<char>): Scan
    decreases |s|
  {
    if s == [] then st else Step(Run(st, s[..|s| - 1]), s[|s| - 1])
  }

  /**
   * After the loop: add the open segment, shift the missing components in,
   * and mark a final release. More than five separators would shift by a
   * negative count, which C++ leaves undefined; the model does not shift.
   */
  function Finish(st: Scan): int
  {
    var v := if st.shifts <= 5 then Shl10(st.v + st.segment, 5 - st.shifts) else st.v + st.segment;
    if v % LowMask == 0 then v + FinalBit else v
  }

  /** The characters of a C string: everything before the first NUL. */
  function CString(s: seq<char>): (c: seq<char>)
    ensures |c| <= |s| && c == s[..|c|]
    ensures forall i :: 0 <= i < |c| ==> c[i] != '\0'
    ensures |c| < |s| ==> s[|c|] == '\0'
  {
    if s == [] || s[0] == '\0' then []
    else
      var rest := CString(s[1..]);
      assert s[..1 + |rest|] == [s[0]] + rest;
      [s[0]] + rest
  }

  /** The number of the version string `s` (a C string's characters); -1 when it does not start with a digit. */
  function VersionNumber(s: seq<char>): int
  {
    if s == [] || !IsDigit(s[0]) then -1 else Finish(Run(Scan(0, 0, 0), s))
  }

  /**
   * The conversion loop. `version` is `None` for a null string; the
   * characters after the first NUL are not read.
   */
  method ConvertToVersionNumber(version: Option<seq<char>>) returns (v: int)
    ensures version.None? ==> v == -1
    ensures version.Some? ==> v == VersionNumber(CString(version.value))
    ensures version.Some? && (version.value == [] || !IsDigit(version.value[0])) ==> v == -1
  {
    if version.None? || version.value == [] || version.value[0] < '0' || version.value[0] > '9' {
      return -1;
    }
    var s := version.value;
    ghost var c := CString(s);
    v := 0;
    var segment := 0;
    var shifts := 0;
    var i := 0;
    while i < |s| && s[i] != '\0'
      invariant i <= |c|
      invariant Scan(v, segment, shifts) == Run(Scan(0, 0, 0), c[..i])
    {
      RunPrefix(c, i);
      v, segment, shifts := Advance(v, segment, shifts, s[i]);
      i := i + 1;
    }
    assert c[..i] == c;
    v := v + segment;
    if shifts <= 5 {
      v := Shl10(v, 5 - shifts);
    }
    if v % LowMask == 0 {
      v := v + FinalBit;
    }
  }

  /** The body of the conversion loop, for the character `ch`. */
  method Advance(v: int, segment: int, shifts: int, ch: char) returns (v': int, segment': int, shifts': int)
    ensures Scan(v', segment', shifts') == Step(Scan(v, segment, shifts), ch)
  {
    v', segment', shifts' := v, segment, shifts;
    if ch == '.' || ch == '-' || ch == 'b' {
      v' := v' + segment';
      segment' := 0;
      v' := v' * 1024;
      shifts' := shifts' + 1;
    }
    if ch == '-' && shifts' < 4 {
      v' := Shl10(v', 4 - shifts');
      shifts' := 4;
    } else if '0' <= ch <= '9' {
      segment' := segment' * 10;
      segment' := segment' + (ch as int - '0' as int);
    }
  }

  /** One more character of the loop. */
  lemma RunPrefix(c: seq<char>, i: nat)
    requires i < |c|
    ensures Run(Scan(0, 0, 0), c[..i + 1]) == Step(Run(Scan(0, 0, 0), c[..i]), c[i])
  {
    assert c[..i + 1][..i] == c[..i];
  }

  lemma {:induction false} RunAppend(st: Scan, p: seq<char>, q: seq<char>)
    ensures Run(st, p + q) == Run(Run(st, p), q)
    decreases |q|
  {
    if q == [] {
      assert p + q == p;
    } else {
      assert (p + q)[..|p + q| - 1] == p + q[..|q| - 1];
      RunAppend(st, p, q[..|q| - 1]);
    }
  }

  /** A run of digits only accumulates its value into an empty segment. */
  lemma {:induction false} RunDigits(v: int, shifts: int, d: seq<char>)
    requires AllDigits(d)
    ensures Run(Scan(v, 0, shifts), d) == Scan(v, DigitsValue(d), shifts)
    decreases |d|
  {
    if d != [] {
      RunDigits(v, shifts, d[..|d| - 1]);
    }
  }

  /** Characters that are neither digits nor separators are skipped. */
  lemma {:induction false} RunLetters(st: Scan, w: seq<char>)
    requires forall i :: 0 <= i < |w| ==> !IsDigit(w[i]) && w[i] !in ".-b"
    ensures Run(st, w) == st
    decreases |w|
  {
    if w != [] {
      RunLetters(st, w[..|w| - 1]);
    }
  }

  /** The packed number of the base `A.B.C` whose components are below 1024. */
  function Base(a: nat, b: nat, c: nat): nat
  {
    a * 0x4_0000_0000_0000 + b * 0x100_0000_0000 + c * 0x4000_0000
  }

  /** The state after reading the digits `A.B.C`. */
  lemma RunBase(a: seq<char>, b: seq<char>, c: seq<char>)
    requires AllDigits(a) && AllDigits(b) && AllDigits(c)
    ensures Run(Scan(0, 0, 0), a + "." + b + "." + c) ==
            Scan((DigitsValue(a) * 1024 + DigitsValue(b)) * 1024, DigitsValue(c), 2)
  {
    var A, B, C := DigitsValue(a), DigitsValue(b), DigitsValue(c);
    RunDigits(0, 0, a);
    RunAppend(Scan(0, 0, 0), a, ".");
    assert Run(Scan(0, 0, 0), a + ".") == Scan(A * 1024, 0, 1);
    RunDigits(A * 1024, 1, b);
    RunAppend(Scan(0, 0, 0), a + ".", b);
    RunAppend(Scan(0, 0, 0), a + "." + b, ".");
    assert Run(Scan(0, 0, 0), a + "." + b + ".") == Scan((A * 1024 + B) * 1024, 0, 2);
    RunDigits((A * 1024 + B) * 1024, 2, c);
    RunAppend(Scan(0, 0, 0), a + "." + b + ".", c);
  }

  /** The number of a string that starts with a digit and runs to the state `st`. */
  lemma VersionFrom(s: seq<char>, st: Scan, value: int)
    requires s != [] && IsDigit(s[0]) && Run(Scan(0, 0, 0), s) == st && Finish(st) == value
    ensures VersionNumber(s) == value
  {
  }

  /** `Finish` of a number whose twenty low bits are `low`. */
  lemma FinishOf(st: Scan, h: int, low: int)
    requires 0 <= st.shifts <= 5 && 0 <= low < LowMask
    requires Shl10(st.v + st.segment, 5 - st.shifts) == h * LowMask + low
    ensures Finish(st) == h * LowMask + low + (if low == 0 then FinalBit else 0)
  {
    LowBits(h, low);
  }

  /** The low twenty bits of `h * 2^20 + l`. */
  lemma LowBits(h: int, l: int)
    requires 0 <= l < LowMask
    ensures (h * LowMask + l) % LowMask == l
  {
    var q := (h * LowMask + l) / LowMask;
    var r := (h * LowMask + l) % LowMask;
    assert (q - h) * LowMask == l - r;
  }

  lemma FinishBase(A: nat, B: nat, C: nat)
    ensures Finish(Scan((A * 1024 + B) * 1024, C, 2)) == Base(A, B, C) + FinalBit
  {
    var X := (A * 1024 + B) * 1024 + C;
    Shl10Values(X);
    FinishOf(Scan((A * 1024 + B) * 1024, C, 2), X * 1024, 0);
  }

  lemma FinishRc(X: int, n: nat)
    requires 0 < n < 512
    ensures Finish(Scan(X * 0x10_0000, n, 4)) == X * 0x4000_0000 + n * 1024
  {
    Shl10Values(X * 0x10_0000 + n);
    FinishOf(Scan(X * 0x10_0000, n, 4), X * 1024, n * 1024);
  }

  lemma FinishBeta(X: int, n: nat)
    requires 0 < n < 1024
    ensures Finish(Scan(X * 0x4000_0000, n, 5)) == X * 0x4000_0000 + n
  {
    Shl10Values(X * 0x4000_0000 + n);
    FinishOf(Scan(X * 0x4000_0000, n, 5), X * 1024, n);
  }

  /** A final release `A.B.C` packs its components and sets the final bit. */
  lemma FinalRelease(a: seq<char>, b: seq<char>, c: seq<char>)
    requires a != [] && AllDigits(a) && AllDigits(b) && AllDigits(c)
    ensures VersionNumber(a + "." + b + "." + c) ==
            Base(DigitsValue(a), DigitsValue(b), DigitsValue(c)) + FinalBit
  {
    var A, B, C := DigitsValue(a), DigitsValue(b), DigitsValue(c);
    var s := a + "." + b + "." + c;
    RunBase(a, b, c);
    FinishBase(A, B, C);
    assert s[0] == a[0];
    VersionFrom(s, Scan((A * 1024 + B) * 1024, C, 2), Base(A, B, C) + FinalBit);
  }

  /** The state after a hyphen closes the base `A.B.C`. */
  lemma AfterHyphen(x: int, c: int)
    ensures Run(Scan(x * 1024, c, 2), "-") == Scan((x * 1024 + c) * 0x10_0000, 0, 4)
  {
    assert "-"[..0] == [];
    Shl10Values((x * 1024 + c) * 1024);
  }

  /** `-rcE` after the base. */
  lemma RcTail(x: int, c: int, e: seq<char>)
    requires AllDigits(e)
    ensures Run(Scan(x * 1024, c, 2), "-rc" + e) == Scan((x * 1024 + c) * 0x10_0000, DigitsValue(e), 4)
  {
    var y := (x * 1024 + c) * 0x10_0000;
    assert "-rc" + e == "-" + ("rc" + e);
    RunAppend(Scan(x * 1024, c, 2), "-", "rc" + e);
    AfterHyphen(x, c);
    RunAppend(Scan(y, 0, 4), "rc", e);
    RunLetters(Scan(y, 0, 4), "rc");
    RunDigits(y, 4, e);
  }

  /** `-betaF` after the base. */
  lemma BetaTail(x: int, c: int, f: seq<char>)
    requires AllDigits(f)
    ensures Run(Scan(x * 1024, c, 2), "-beta" + f) == Scan((x * 1024 + c) * 0x4000_0000, DigitsValue(f), 5)
  {
    var y := (x * 1024 + c) * 0x10_0000;
    assert "-beta" + f == "-" + ("b" + ("eta" + f));
    RunAppend(Scan(x * 1024, c, 2), "-", "b" + ("eta" + f));
    AfterHyphen(x, c);
    RunAppend(Scan(y, 0, 4), "b", "eta" + f);
    assert Run(Scan(y, 0, 4), "b") == Scan(y * 1024, 0, 5) by {
      assert "b"[..0] == [];
    }
    RunAppend(Scan(y * 1024, 0, 5), "eta", f);
    RunLetters(Scan(y * 1024, 0, 5), "eta");
    RunDigits(y * 1024, 5, f);
  }

  /** The state after any base that runs like `A.B.C`, followed by `-rcE`. */
  lemma RunRcOf(base: seq<char>, e: seq<char>, x: int, C: int)
    requires AllDigits(e) && Run(Scan(0, 0, 0), base) == Scan(x * 1024, C, 2)
    ensures Run(Scan(0, 0, 0), base + "-rc" + e) == Scan((x * 1024 + C) * 0x10_0000, DigitsValue(e), 4)
  {
    assert base + "-rc" + e == base + ("-rc" + e);
    RunAppend(Scan(0, 0, 0), base, "-rc" + e);
    RcTail(x, C, e);
  }

  /** The state after any base that runs like `A.B.C`, followed by `-betaF`. */
  lemma RunBetaOf(base: seq<char>, f: seq<char>, x: int, C: int)
    requires AllDigits(f) && Run(Scan(0, 0, 0), base) == Scan(x * 1024, C, 2)
    ensures Run(Scan(0, 0, 0), base + "-beta" + f) == Scan((x * 1024 + C) * 0x4000_0000, DigitsValue(f), 5)
  {
    assert base + "-beta" + f == base + ("-beta" + f);
    RunAppend(Scan(0, 0, 0), base, "-beta" + f);
    BetaTail(x, C, f);
  }

  /** The number of any base that runs like `A.B.C`, followed by `-rcE`. */
  lemma RcOf(base: seq<char>, e: seq<char>, A: nat, B: nat, C: nat)
    requires base != [] && IsDigit(base[0]) && Run(Scan(0, 0, 0), base) == Scan((A * 1024 + B) * 1024, C, 2)
    requires AllDigits(e) && 0 < DigitsValue(e) < 512
    ensures VersionNumber(base + "-rc" + e) == Base(A, B, C) + DigitsValue(e) * 1024
  {
    var X := (A * 1024 + B) * 1024 + C;
    RunRcOf(base, e, A * 1024 + B, C);
    FinishRc(X, DigitsValue(e));
    assert (base + "-rc" + e)[0] == base[0];
    VersionFrom(base + "-rc" + e, Scan(X * 0x10_0000, DigitsValue(e), 4), Base(A, B, C) + DigitsValue(e) * 1024);
  }

  /** The number of any base that runs like `A.B.C`, followed by `-betaF`. */
  lemma BetaOf(base: seq<char>, f: seq<char>, A: nat, B: nat, C: nat)
    requires base != [] && IsDigit(base[0]) && Run(Scan(0, 0, 0), base) == Scan((A * 1024 + B) * 1024, C, 2)
    requires AllDigits(f) && 0 < DigitsValue(f) < 1024
    ensures VersionNumber(base + "-beta" + f) == Base(A, B, C) + DigitsValue(f)
  {
    var X := (A * 1024 + B) * 1024 + C;
    RunBetaOf(base, f, A * 1024 + B, C);
    FinishBeta(X, DigitsValue(f));
    assert (base + "-beta" + f)[0] == base[0];
    VersionFrom(base + "-beta" + f, Scan(X * 0x4000_0000, DigitsValue(f), 5), Base(A, B, C) + DigitsValue(f));
  }

  /** `RcOf` for the base `a.b.c`, named `base`. */
  lemma RcParts(a: seq<char>, b: seq<char>, c: seq<char>, e: seq<char>, base: seq<char>)
    requires a != [] && AllDigits(a) && AllDigits(b) && AllDigits(c) && AllDigits(e)
    requires 0 < DigitsValue(e) < 512 && base == a + "." + b + "." + c
    ensures VersionNumber(base + "-rc" + e) == Base(DigitsValue(a), DigitsValue(b), DigitsValue(c)) + DigitsValue(e) * 1024
  {
    RunBase(a, b, c);
    assert base[0] == a[0];
    RcOf(base, e, DigitsValue(a), DigitsValue(b), DigitsValue(c));
  }

  /** `BetaOf` for the base `a.b.c`, named `base`. */
  lemma BetaParts(a: seq<char>, b: seq<char>, c: seq<char>, f: seq<char>, base: seq<char>)
    requires a != [] && AllDigits(a) && AllDigits(b) && AllDigits(c) && AllDigits(f)
    requires 0 < DigitsValue(f) < 1024 && base == a + "." + b + "." + c
    ensures VersionNumber(base + "-beta" + f) == Base(DigitsValue(a), DigitsValue(b), DigitsValue(c)) + DigitsValue(f)
  {
    RunBase(a, b, c);
    assert base[0] == a[0];
    BetaOf(base, f, DigitsValue(a), DigitsValue(b), DigitsValue(c));
  }

  /** A release candidate `A.B.C-rcE` carries E in the nine bits below the final bit. */
  lemma ReleaseCandidate(a: seq<char>, b: seq<char>, c: seq<char>, e: seq<char>)
    requires a != [] && AllDigits(a) && AllDigits(b) && AllDigits(c) && AllDigits(e)
    requires 0 < DigitsValue(e) < 512
    ensures VersionNumber(a + "." + b + "." + c + "-rc" + e) ==
            Base(DigitsValue(a), DigitsValue(b), DigitsValue(c)) + DigitsValue(e) * 1024
  {
    RcParts(a, b, c, e, a + "." + b + "." + c);
  }

  /** A beta `A.B.C-betaF` carries F in the ten lowest bits. */
  lemma Beta(a: seq<char>, b: seq<char>, c: seq<char>, f: seq<char>)
    requires a != [] && AllDigits(a) && AllDigits(b) && AllDigits(c) && AllDigits(f)
    requires 0 < DigitsValue(f) < 1024
    ensures VersionNumber(a + "." + b + "." + c + "-beta" + f) ==
            Base(DigitsValue(a), DigitsValue(b), DigitsValue(c)) + DigitsValue(f)
  {
    BetaParts(a, b, c, f, a + "." + b + "." + c);
  }

  /** The number of dots in `s`. */
  function Dots(s: seq<char>): nat
    decreases |s|
  {
    if s == [] then 0 else Dots(s[..|s| - 1]) + (if s[|s| - 1] == '.' then 1 else 0)
  }

  /** A base version: digits and dots only, one to four components. */
  predicate PlainBase(s: seq<char>)
  {
    s != [] && IsDigit(s[0]) && (forall i :: 0 <= i < |s| ==> IsDigit(s[i]) || s[i] == '.') && Dots(s) <= 3
  }

  /** Over digits and dots, the loop counts one separator per dot. */
  lemma {:induction false} RunShifts(st: Scan, s: seq<char>)
    requires forall i :: 0 <= i < |s| ==> IsDigit(s[i]) || s[i] == '.'
    ensures Run(st, s).shifts == st.shifts + Dots(s)
    decreases |s|
  {
    if s != [] {
      RunShifts(st, s[..|s| - 1]);
    }
  }

  lemma {:induction false} Shl10Twice(x: int, n: nat)
    ensures Shl10(x, n + 2) == Shl10(x, n) * LowMask
    decreases n
  {
    if n > 0 {
      Shl10Twice(x, n - 1);
    }
  }

  lemma {:induction false} Shl10Inner(x: int, n: nat)
    ensures Shl10(x * 1024, n) == Shl10(x, n) * 1024
    decreases n
  {
    if n > 0 {
      Shl10Inner(x, n - 1);
    }
  }

  /** The base's components packed above the twenty low bits. */
  function Head(st: Scan): int
    requires 0 <= st.shifts <= 3
  {
    Shl10(st.v + st.segment, 3 - st.shifts)
  }

  /** A base of at most three separators finishes with clear low bits and the final bit. */
  lemma FinishPlain(st: Scan)
    requires 0 <= st.shifts <= 3
    ensures Finish(st) == Head(st) * LowMask + FinalBit
  {
    Shl10Twice(st.v + st.segment, 3 - st.shifts);
    FinishOf(st, Head(st), 0);
  }

  /** The hyphen after such a base shifts the missing components in. */
  lemma HyphenAfter(st: Scan)
    requires 0 <= st.shifts <= 3
    ensures Run(st, "-") == Scan(Head(st) * 1024, 0, 4)
  {
    assert "-"[..0] == [];
    Shl10Inner(st.v + st.segment, 3 - st.shifts);
  }

  /** `-rcE` after a base of at most three separators. */
  lemma RcAfter(st: Scan, e: seq<char>)
    requires 0 <= st.shifts <= 3 && AllDigits(e)
    ensures Run(st, "-rc" + e) == Scan(Head(st) * 1024, DigitsValue(e), 4)
  {
    var y := Head(st) * 1024;
    assert "-rc" + e == "-" + ("rc" + e);
    RunAppend(st, "-", "rc" + e);
    HyphenAfter(st);
    RunAppend(Scan(y, 0, 4), "rc", e);
    RunLetters(Scan(y, 0, 4), "rc");
    RunDigits(y, 4, e);
  }

  /** `-betaF` after a base of at most three separators. */
  lemma BetaAfter(st: Scan, f: seq<char>)
    requires 0 <= st.shifts <= 3 && AllDigits(f)
    ensures Run(st, "-beta" + f) == Scan(Head(st) * LowMask, DigitsValue(f), 5)
  {
    var y := Head(st) * 1024;
    assert "-beta" + f == "-" + ("b" + ("eta" + f));
    RunAppend(st, "-", "b" + ("eta" + f));
    HyphenAfter(st);
    RunAppend(Scan(y, 0, 4), "b", "eta" + f);
    assert Run(Scan(y, 0, 4), "b") == Scan(y * 1024, 0, 5) by {
      assert "b"[..0] == [];
    }
    RunAppend(Scan(y * 1024, 0, 5), "eta", f);
    RunLetters(Scan(y * 1024, 0, 5), "eta");
    RunDigits(y * 1024, 5, f);
  }

  /** The number of a plain base: its head above twenty clear bits, plus the final bit. */
  lemma PlainFinal(base: seq<char>)
    requires PlainBase(base)
    ensures 0 <= Run(Scan(0, 0, 0), base).shifts <= 3
    ensures VersionNumber(base) == Head(Run(Scan(0, 0, 0), base)) * LowMask + FinalBit
  {
    RunShifts(Scan(0, 0, 0), base);
    FinishPlain(Run(Scan(0, 0, 0), base));
  }

  /** A plain base followed by `-rcE`: E in the nine bits below the final bit. */
  lemma PlainRc(base: seq<char>, e: seq<char>)
    requires PlainBase(base) && AllDigits(e) && 0 < DigitsValue(e) < 512
    ensures VersionNumber(base + "-rc" + e) == VersionNumber(base) - FinalBit + DigitsValue(e) * 1024
  {
    var st := Run(Scan(0, 0, 0), base);
    PlainFinal(base);
    assert base + "-rc" + e == base + ("-rc" + e);
    RunAppend(Scan(0, 0, 0), base, "-rc" + e);
    RcAfter(st, e);
    Shl10Values(Head(st) * 1024 + DigitsValue(e));
    FinishOf(Scan(Head(st) * 1024, DigitsValue(e), 4), Head(st), DigitsValue(e) * 1024);
    assert (base + "-rc" + e)[0] == base[0];
  }

  /** A plain base followed by `-betaF`: F in the ten lowest bits. */
  lemma PlainBeta(base: seq<char>, f: seq<char>)
    requires PlainBase(base) && AllDigits(f) && 0 < DigitsValue(f) < 1024
    ensures VersionNumber(base + "-beta" + f) == VersionNumber(base) - FinalBit + DigitsValue(f)
  {
    var st := Run(Scan(0, 0, 0), base);
    PlainFinal(base);
    assert base + "-beta" + f == base + ("-beta" + f);
    RunAppend(Scan(0, 0, 0), base, "-beta" + f);
    BetaAfter(st, f);
    FinishOf(Scan(Head(st) * LowMask, DigitsValue(f), 5), Head(st), DigitsValue(f));
    assert (base + "-beta" + f)[0] == base[0];
  }

  /**
   * For every base of one to four components, the final release ranks
   * above each of its release candidates, and each release candidate
   * above each of its betas.
   */
  lemma FinalAbovePrerelease(base: seq<char>, rc: seq<char>, beta: seq<char>)
    requires PlainBase(base) && AllDigits(rc) && AllDigits(beta)
    ensures 0 < DigitsValue(rc) < 512 ==> VersionNumber(base + "-rc" + rc) < VersionNumber(base)
    ensures 0 < DigitsValue(beta) < 1024 ==> VersionNumber(base + "-beta" + beta) < VersionNumber(base)
    ensures 0 < DigitsValue(rc) < 512 && 0 < DigitsValue(beta) < 1024 ==>
      VersionNumber(base + "-beta" + beta) < VersionNumber(base + "-rc" + rc)
  {
    if 0 < DigitsValue(rc) < 512 {
      PlainRc(base, rc);
    }
    if 0 < DigitsValue(beta) < 1024 {
      PlainBeta(base, beta);
    }
  }

  /** The example in the comment of the conversion: `2.2.26-beta3`. */
  lemma DocumentedExample()
    ensures VersionNumber("2.2.26-beta3") == 2254026754228227
  {
    assert AllDigits("26") && DigitsValue("26") == 26 by {
      assert "26"[..1] == "2";
    }
    Beta("2", "2", "26", "3");
    assert "2" + "." + "2" + "." + "26" + "-beta" + "3" == "2.2.26-beta3";
  }
}
