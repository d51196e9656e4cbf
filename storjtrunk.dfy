/**
 * The trunk `fzstorj` helper process: the line protocol between the engine
 * and the helper. Standard input is a byte sequence whose end is EOF; every
 * reply is framed by an event digit; every command line is split into a
 * verb and its arguments, and the arguments are checked before the storage
 * library would be called. The storage library is not part of this model:
 * the effect of an accepted command is the request it would issue.
 */
module StorjTrunk {
  import opened Common
  import opened Text

  // ---------------------------------------------------------------------
  // getLine

  /** What `getLine` leaves behind: its result, the line, and the unread input. */
  datatype LineRead = LineRead(ok: bool, line: seq<char>, rest: seq<byte>)

  /** A line `getLine` can return: no NUL, no line feed, no carriage return. */
  predicate Plain(line: seq<char>)
  {
    forall i :: 0 <= i < |line| ==> line[i] != 0 as char && line[i] != '\n' && line[i] != '\r'
  }

  /** A byte as the character `line += c` appends. */
  function CharOf(b: byte): char
  {
    b as int as char
  }

  /** The characters of a byte string, one per byte. */
  function Chars(bs: seq<byte>): (s: seq<char>)
    ensures |s| == |bs| && forall i :: 0 <= i < |bs| ==> s[i] == CharOf(bs[i])
  {
    if bs == [] then [] else [CharOf(bs[0])] + Chars(bs[1..])
  }

  /**
   * `getLine` once `line` has been collected: EOF fails; a NUL ends the
   * line and succeeds only on an empty line; a line feed ends it and
   * succeeds only on a non-empty one; a carriage return is skipped; any
   * other byte is appended.
   */
  function ReadLine(input: seq<byte>, line: seq<char>): (r: LineRead)
    ensures |r.rest| <= |input| && (r.ok ==> |r.rest| < |input|)
    decreases |input|
  {
    if input == [] then LineRead(false, line, [])
    else if input[0] == 0 then LineRead(line == [], line, input[1..])
    else if input[0] == 10 then LineRead(line != [], line, input[1..])
    else if input[0] == 13 then ReadLine(input[1..], line)
    else ReadLine(input[1..], line + [CharOf(input[0])])
  }

  /** What `getLine` returns extends what it had collected and holds no NUL, line feed or carriage return. */
  lemma {:induction false} ReadLinePlain(input: seq<byte>, line: seq<char>)
    requires Plain(line)
    ensures Plain(ReadLine(input, line).line)
    ensures |line| <= |ReadLine(input, line).line| && ReadLine(input, line).line[..|line|] == line
    decreases |input|
  {
    if input != [] && input[0] != 0 && input[0] != 10 {
      var next := if input[0] == 13 then line else line + [CharOf(input[0])];
      ReadLinePlain(input[1..], next);
      assert next[..|line|] == line;
    }
  }

  /** `getLine`: read bytes until a NUL, a line feed or the end of the input. */
  method GetLine(input: seq<byte>) returns (ok: bool, line: seq<char>, rest: seq<byte>)
    ensures LineRead(ok, line, rest) == ReadLine(input, [])
  {
    line := [];
    var i := 0;
    while i < |input| && input[i] != 0 && input[i] != 10
      invariant 0 <= i <= |input|
      invariant ReadLine(input[i..], line) == ReadLine(input, [])
    {
      assert input[i..][1..] == input[i + 1..];
      if input[i] != 13 {
        line := line + [CharOf(input[i])];
      }
      i := i + 1;
    }
    if i == |input| {
      ok, rest := false, [];
    } else {
      ok := if input[i] == 0 then line == [] else line != [];
      rest := input[i + 1..];
    }
  }

  /** A byte string free of NUL, line feed and carriage return. */
  predicate PlainBytes(bs: seq<byte>)
  {
    forall i :: 0 <= i < |bs| ==> bs[i] != 0 && bs[i] != 10 && bs[i] != 13
  }

  /** A line followed by a line feed is read back as itself, the rest left unread. */
  lemma {:induction false} LineRoundTrip(bs: seq<byte>, line: seq<char>, more: seq<byte>)
    requires PlainBytes(bs)
    ensures ReadLine(bs + [10] + more, line) == LineRead(line + Chars(bs) != [], line + Chars(bs), more)
    decreases |bs|
  {
    if bs == [] {
      assert line + Chars(bs) == line;
    } else {
      assert (bs + [10] + more)[1..] == bs[1..] + [10] + more;
      LineRoundTrip(bs[1..], line + [CharOf(bs[0])], more);
      assert line + [CharOf(bs[0])] + Chars(bs[1..]) == line + Chars(bs);
    }
  }

  /** A carriage return before the line feed changes nothing. */
  lemma CarriageReturnDropped(bs: seq<byte>, more: seq<byte>)
    requires PlainBytes(bs)
    ensures ReadLine(bs + [13, 10] + more, []) == ReadLine(bs + [10] + more, [])
  {
    CarriageReturnSkipped(bs, [], [10] + more);
    assert bs + [13, 10] + more == bs + [13] + ([10] + more);
    assert bs + [10] + more == bs + ([10] + more);
  }

  /** A carriage return anywhere in the line is skipped. */
  lemma {:induction false} CarriageReturnSkipped(bs: seq<byte>, line: seq<char>, tail: seq<byte>)
    requires PlainBytes(bs)
    ensures ReadLine(bs + [13] + tail, line) == ReadLine(bs + tail, line)
    decreases |bs|
  {
    if bs == [] {
      assert bs + [13] + tail == [13] + tail;
      assert bs + tail == tail;
      assert ([13] + tail)[1..] == tail;
    } else {
      assert (bs + [13] + tail)[1..] == bs[1..] + [13] + tail;
      assert (bs + tail)[1..] == bs[1..] + tail;
      CarriageReturnSkipped(bs[1..], line + [CharOf(bs[0])], tail);
    }
  }

  /** Input that ends before any NUL or line feed makes `getLine` fail. */
  lemma {:induction false} EndOfInputFails(input: seq<byte>, line: seq<char>)
    requires forall i :: 0 <= i < |input| ==> input[i] != 0 && input[i] != 10
    ensures !ReadLine(input, line).ok
    decreases |input|
  {
    if input != [] {
      EndOfInputFails(input[1..], if input[0] == 13 then line else line + [CharOf(input[0])]);
    }
  }

  // ---------------------------------------------------------------------
  // next_argument

  /** `s[i]` on a `std::string`, which yields NUL at (and, here, past) the end. */
  function At(s: seq<char>, i: nat): char
  {
    if i < |s| then s[i] else 0 as char
  }

  /** `find(c, from)`: the first index at or after `from` holding `c`, or -1 for `npos`. */
  function FindFrom(s: seq<char>, c: char, from: nat): (r: int)
    ensures r == -1 || (from <= r < |s| && s[r] == c)
    decreases |s| - from
  {
    if from >= |s| then -1 else if s[from] == c then from else FindFrom(s, c, from + 1)
  }

  /** With no `c` at or after `from`, `find` gives `npos`. */
  lemma {:induction false} FindFromNone(s: seq<char>, c: char, from: nat)
    requires forall k :: from <= k < |s| ==> s[k] != c
    ensures FindFrom(s, c, from) == -1
    decreases |s| - from
  {
    if from < |s| {
      FindFromNone(s, c, from + 1);
    }
  }

  /** `find` skips every position before the one it returns, and all of them on `npos`. */
  lemma {:induction false} FindFromSkips(s: seq<char>, c: char, from: nat)
    ensures forall k :: from <= k < |s| && (FindFrom(s, c, from) == -1 || k < FindFrom(s, c, from)) ==> s[k] != c
    decreases |s| - from
  {
    if from < |s| && s[from] != c {
      FindFromSkips(s, c, from + 1);
    }
  }

  /** Where the scan of a quoted argument ends. */
  datatype Scan = Malformed | Closed(arg: seq<char>, close: nat)

  /**
   * The quoted-argument loop from `pos`, having collected `acc`: a doubled
   * quote stands for one quote; a single quote closes the argument and
   * must be followed by a space or the end of the line.
   */
  function ScanQuoted(line: seq<char>, pos: nat, acc: seq<char>): (r: Scan)
    requires 1 <= pos <= |line|
    ensures r.Closed? ==> pos <= r.close < |line| && line[r.close] == '"' &&
                          (At(line, r.close + 1) == ' ' || At(line, r.close + 1) == 0 as char)
    decreases |line| - pos
  {
    var pos2 := FindFrom(line, '"', pos);
    if pos2 >= 0 && At(line, pos2 + 1) == '"' then ScanQuoted(line, pos2 + 2, acc + line[pos..pos2 + 1])
    else if pos2 < 0 || (At(line, pos2 + 1) != ' ' && At(line, pos2 + 1) != 0 as char) then Malformed
    else Closed(acc + line[pos..pos2], pos2)
  }

  /** An argument and the trimmed remainder of the line. */
  datatype Split = Split(arg: seq<char>, rest: seq<char>)

  /** The unquoted case: up to the first space and what follows it, or all of the line. */
  function Unquoted(t: seq<char>): (r: Split)
    ensures ' ' !in r.arg
    ensures ' ' in t ==> t == r.arg + " " + r.rest
    ensures ' ' !in t ==> r == Split(t, [])
  {
    var pos := FirstIndex(t, ' ');
    if pos < 0 then Split(t, [])
    else
      assert t == t[..pos] + " " + t[pos + 1..];
      Split(t[..pos], t[pos + 1..])
  }

  /** `next_argument` as written: it throws on a malformed quoted argument. */
  datatype Outcome = Thrown | Returned(split: Split)

  /**
   * `next_argument` AS WRITTEN. On a malformed quoted argument it clears
   * the line and then takes `substr(pos, …)` of the empty line with
   * `pos >= 1`, which throws `std::out_of_range`.
   */
  function NextArgumentAsWritten(line: seq<char>): (r: Outcome)
  {
    var t := Trim(line);
    if At(t, 0) == '"' then
      match ScanQuoted(t, 1, [])
      case Malformed => Thrown
      case Closed(arg, close) => Returned(Split(arg, Trim(t[close + 1..])))
    else
      var u := Unquoted(t);
      Returned(Split(u.arg, Trim(u.rest)))
  }

  /**
   * The quoted case as evidently intended: the argument and what follows
   * its closing quote; a malformed argument yields nothing and consumes
   * the line.
   */
  function Quoted(t: seq<char>): (r: Split)
    requires t != []
  {
    match ScanQuoted(t, 1, [])
    case Malformed => Split([], [])
    case Closed(arg, close) => Split(arg, t[close + 1..])
  }

  /**
   * `next_argument` as evidently intended: a malformed quoted argument
   * yields an empty argument and consumes the line; everything else is as
   * written.
   */
  function NextArg(line: seq<char>): (r: Split)
    ensures r.rest == Trim(r.rest)
  {
    var t := Trim(line);
    var r := if At(t, 0) == '"' then Quoted(t) else Unquoted(t);
    TrimTwice(r.rest);
    Split(r.arg, Trim(r.rest))
  }

  /** The corrected `next_argument` differs from the source only where the source throws. */
  lemma NextArgAgrees(line: seq<char>)
    ensures NextArgumentAsWritten(line).Returned? ==> NextArgumentAsWritten(line).split == NextArg(line)
    ensures NextArgumentAsWritten(line).Thrown? ==> NextArg(line) == Split([], [])
  {
  }

  /** `next_argument`, the argument trimmed first. */
  method NextArgument(line: seq<char>) returns (ret: seq<char>, rest: seq<char>)
    ensures Split(ret, rest) == NextArg(line)
  {
    var t := Trim(line);
    if At(t, 0) == '"' {
      ret, rest := QuotedArgument(t);
    } else {
      var pos := FirstIndex(t, ' ');
      if pos < 0 {
        ret, rest := t, [];
      } else {
        ret, rest := t[..pos], t[pos + 1..];
      }
    }
    rest := Trim(rest);
  }

  /** The quoted-argument loop of `next_argument`; a malformed argument is dropped. */
  method QuotedArgument(t: seq<char>) returns (ret: seq<char>, rest: seq<char>)
    requires t != []
    ensures Split(ret, rest) == Quoted(t)
  {
    var pos := 1;
    var pos2 := FindFrom(t, '"', pos);
    ret := [];
    while pos2 >= 0 && At(t, pos2 + 1) == '"'
      invariant 1 <= pos <= |t|
      invariant pos2 == FindFrom(t, '"', pos)
      invariant ScanQuoted(t, pos, ret) == ScanQuoted(t, 1, [])
      decreases |t| - pos
    {
      ret := ret + t[pos..pos2 + 1];
      pos := pos2 + 2;
      pos2 := FindFrom(t, '"', pos);
    }
    if pos2 < 0 || (At(t, pos2 + 1) != ' ' && At(t, pos2 + 1) != 0 as char) {
      assert ScanQuoted(t, 1, []) == Malformed;
      ret, rest := [], [];
    } else {
      assert ScanQuoted(t, 1, []) == Closed(ret + t[pos..pos2], pos2);
      ret := ret + t[pos..pos2];
      rest := t[pos2 + 1..];
    }
  }

  /** Every quote doubled: the quoting `next_argument` undoes. */
  function Doubled(a: seq<char>): (r: seq<char>)
    ensures |r| >= |a|
  {
    if a == [] then [] else (if a[0] == '"' then "\"\"" else [a[0]]) + Doubled(a[1..])
  }

  /** An argument in double quotes, its own quotes doubled. */
  function Quote(a: seq<char>): (q: seq<char>)
    ensures |q| >= 2 && q[0] == '"' && q[|q| - 1] == '"'
  {
    "\"" + Doubled(a) + "\""
  }

  /** A character other than a quote joins the collected text unchanged. */
  lemma ScanStep(line: seq<char>, pos: nat, acc: seq<char>)
    requires 1 <= pos < |line| && line[pos] != '"'
    ensures ScanQuoted(line, pos, acc) == ScanQuoted(line, pos + 1, acc + [line[pos]])
  {
    var pos2 := FindFrom(line, '"', pos);
    assert pos2 == FindFrom(line, '"', pos + 1);
    if pos2 >= 0 {
      assert acc + line[pos..pos2 + 1] == acc + [line[pos]] + line[pos + 1..pos2 + 1];
      assert acc + line[pos..pos2] == acc + [line[pos]] + line[pos + 1..pos2];
    }
  }

  /**
   * `line` holds the doubled form of `a` at `pos`, then a closing quote that
   * ends the argument; stated character by character.
   */
  predicate DoubledAt(line: seq<char>, pos: nat, a: seq<char>)
    decreases |a|
  {
    1 <= pos < |line| &&
    if a == [] then line[pos] == '"' && (At(line, pos + 1) == ' ' || At(line, pos + 1) == 0 as char)
    else if a[0] == '"' then pos + 1 < |line| && line[pos] == '"' && line[pos + 1] == '"' && DoubledAt(line, pos + 2, a[1..])
    else line[pos] == a[0] && DoubledAt(line, pos + 1, a[1..])
  }

  /** The scan reads a doubled-quote text back, up to its closing quote. */
  lemma {:induction false} ScanDoubled(line: seq<char>, pos: nat, a: seq<char>, acc: seq<char>)
    requires DoubledAt(line, pos, a)
    ensures ScanQuoted(line, pos, acc) == Closed(acc + a, pos + |Doubled(a)|)
    decreases |a|, 1
  {
    if a == [] {
      assert FindFrom(line, '"', pos) == pos;
      assert line[pos..pos] == [];
      assert acc + [] == acc;
    } else if a[0] == '"' {
      ScanDoubledQuote(line, pos, a, acc);
    } else {
      ScanDoubledOther(line, pos, a, acc);
    }
  }

  /** A doubled quote joins the collected text as one quote. */
  lemma ScanQuoteStep(line: seq<char>, pos: nat, acc: seq<char>)
    requires 1 <= pos && pos + 1 < |line| && line[pos] == '"' && line[pos + 1] == '"'
    ensures ScanQuoted(line, pos, acc) == ScanQuoted(line, pos + 2, acc + "\"")
  {
    assert FindFrom(line, '"', pos) == pos;
    assert line[pos..pos + 1] == "\"";
  }

  /** A doubled quote is read as one quote. */
  lemma {:induction false} ScanDoubledQuote(line: seq<char>, pos: nat, a: seq<char>, acc: seq<char>)
    requires DoubledAt(line, pos, a) && a != [] && a[0] == '"'
    ensures ScanQuoted(line, pos, acc) == Closed(acc + a, pos + |Doubled(a)|)
    decreases |a|, 0
  {
    assert |Doubled(a)| == 2 + |Doubled(a[1..])|;
    ScanQuoteStep(line, pos, acc);
    ScanDoubled(line, pos + 2, a[1..], acc + "\"");
    assert acc + "\"" + a[1..] == acc + a by {
      assert a == [a[0]] + a[1..];
    }
  }

  /** Any other character is read as itself. */
  lemma {:induction false} ScanDoubledOther(line: seq<char>, pos: nat, a: seq<char>, acc: seq<char>)
    requires DoubledAt(line, pos, a) && a != [] && a[0] != '"'
    ensures ScanQuoted(line, pos, acc) == Closed(acc + a, pos + |Doubled(a)|)
    decreases |a|, 0
  {
    assert |Doubled(a)| == 1 + |Doubled(a[1..])|;
    ScanStep(line, pos, acc);
    ScanDoubled(line, pos + 1, a[1..], acc + [a[0]]);
    assert acc + [a[0]] + a[1..] == acc + a by {
      assert a == [a[0]] + a[1..];
    }
  }

  /** Trimmed text trims to itself. */
  lemma TrimTwice(s: seq<char>)
    ensures Trim(Trim(s)) == Trim(s)
  {
  }

  /** Trimming text that starts and ends with a non-space character keeps it. */
  lemma TrimKeeps(s: seq<char>)
    requires s != [] && !IsTrimSpace(s[0]) && !IsTrimSpace(s[|s| - 1])
    ensures Trim(s) == s
  {
  }

  /** A space before trimmed text is trimmed away. */
  lemma TrimLeadingSpace(rest: seq<char>)
    requires rest == Trim(rest)
    ensures Trim(" " + rest) == rest
  {
    var s := " " + rest;
    if rest != [] {
      assert TrimmedEnd(s, |s|) == |s|;
      assert TrimmedStart(s, 1, |s|) == 1;
      assert s[1..] == rest;
    } else {
      assert TrimmedEnd(s, 1) == TrimmedEnd(s, 0);
    }
  }

  /** A trimmed line that opens with a well-formed quoted argument. */
  lemma NextArgQuoted(line: seq<char>, a: seq<char>)
    requires Trim(line) == line && DoubledAt(line, 1, a) && line[0] == '"' && |Doubled(a)| + 2 <= |line|
    ensures NextArg(line) == Split(a, Trim(line[|Doubled(a)| + 2..]))
  {
    ScanDoubled(line, 1, a, []);
    assert [] + a == a;
  }

  /** A quoted argument followed by nothing or a space is well formed. */
  lemma QuotedPrefix(a: seq<char>, post: seq<char>)
    requires post == [] || post[0] == ' '
    ensures DoubledAt(Quote(a) + post, 1, a)
    ensures (Quote(a) + post)[|Doubled(a)| + 2..] == post
  {
    var line := Quote(a) + post;
    assert line == "\"" + Doubled(a) + "\"" + post;
    DoubledAtJoin("\"", a, post);
  }

  /** The doubled form of `a` after a non-empty `pre`, then a quote and `post`, is well formed. */
  lemma {:induction false} DoubledAtJoin(pre: seq<char>, a: seq<char>, post: seq<char>)
    requires pre != [] && (post == [] || post[0] == ' ')
    ensures DoubledAt(pre + Doubled(a) + "\"" + post, |pre|, a)
    decreases |a|
  {
    var line := pre + Doubled(a) + "\"" + post;
    if a == [] {
      assert line == pre + "\"" + post;
      assert line[|pre|] == '"';
      assert post != [] ==> At(line, |pre| + 1) == post[0];
    } else {
      var d := Doubled(a[1..]);
      var head := if a[0] == '"' then "\"\"" else [a[0]];
      assert Doubled(a) == head + d;
      assert line == (pre + head) + d + "\"" + post;
      DoubledAtJoin(pre + head, a[1..], post);
      assert line[|pre|] == head[0];
      if a[0] == '"' {
        assert line[|pre| + 1] == '"';
      }
    }
  }

  /** A quoted last argument is read back whole. */
  lemma QuotedLast(a: seq<char>)
    ensures NextArg(Quote(a)) == Split(a, [])
  {
    QuotedPrefix(a, []);
    assert Quote(a) + [] == Quote(a);
    TrimKeeps(Quote(a));
    NextArgQuoted(Quote(a), a);
  }

  /** A quoted argument followed by a space and more is read back, the rest kept. */
  lemma QuotedThen(a: seq<char>, rest: seq<char>)
    requires rest != [] && rest == Trim(rest)
    ensures NextArg(Quote(a) + " " + rest) == Split(a, rest)
  {
    QuotedPrefix(a, " " + rest);
    assert Quote(a) + " " + rest == Quote(a) + (" " + rest);
    TrimKeeps(Quote(a) + (" " + rest));
    TrimLeadingSpace(rest);
    NextArgQuoted(Quote(a) + (" " + rest), a);
  }

  /** A bare word: no quote first, no space inside, no whitespace at either end. */
  predicate Word(a: seq<char>)
  {
    a != [] && a[0] != '"' && ' ' !in a && !IsTrimSpace(a[0]) && !IsTrimSpace(a[|a| - 1])
  }

  /** A bare last word is read back whole. */
  lemma UnquotedLast(a: seq<char>)
    requires Word(a)
    ensures NextArg(a) == Split(a, [])
  {
    TrimKeeps(a);
  }

  /** A bare word followed by a space and more is read back, the rest kept. */
  lemma UnquotedThen(a: seq<char>, rest: seq<char>)
    requires Word(a) && rest != [] && rest == Trim(rest)
    ensures NextArg(a + " " + rest) == Split(a, rest)
  {
    var line := a + " " + rest;
    assert Trim(line) == line by {
      TrimKeeps(line);
    }
    assert Unquoted(line) == Split(a, rest) by {
      FirstIndexAt(a, ' ', rest);
      assert line[..|a|] == a;
      assert line[|a| + 1..] == rest;
    }
  }

  /** An opening quote that is never closed: the source throws, the corrected one yields nothing. */
  lemma UnterminatedQuoteThrows(a: seq<char>)
    requires '"' !in a
    ensures NextArgumentAsWritten("\"" + a) == Thrown
    ensures NextArg("\"" + a) == Split([], [])
  {
    var s := "\"" + a;
    var e := TrimmedEnd(s, |s|);
    assert TrimmedStart(s, 0, e) == 0;
    var t := Trim(s);
    assert t == s[..e];
    forall k | 1 <= k < |t|
      ensures t[k] != '"'
    {
      assert t[k] == a[k - 1];
    }
    FindFromNone(t, '"', 1);
  }

  // ---------------------------------------------------------------------
  // SplitPath

  /** A bucket and the key inside it. */
  datatype PathParts = PathParts(bucket: seq<char>, key: seq<char>)

  /**
   * `SplitPath`: skip the first character, then the bucket runs to the
   * next `/` and the key is everything after it.
   */
  function SplitPath(path: seq<char>): (r: PathParts)
    ensures '/' !in r.bucket
    ensures path == [] ==> r == PathParts([], [])
    ensures path != [] ==> path[1..] == r.bucket + "/" + r.key || (path[1..] == r.bucket && r.key == [])
  {
    if path == [] then PathParts([], [])
    else
      var tail := path[1..];
      var pos := FirstIndex(tail, '/');
      if pos >= 0 then
        CutAround(tail, pos);
        PathParts(tail[..pos], tail[pos + 1..])
      else PathParts(tail, [])
  }

  /** Text around one of its characters is the part before, that character and the part after. */
  lemma CutAround(s: seq<char>, pos: nat)
    requires pos < |s|
    ensures s == s[..pos] + [s[pos]] + s[pos + 1..]
  {
  }

  /** `/bucket/key` and `/bucket` split back into their parts. */
  lemma SplitPathJoin(b: seq<char>, k: seq<char>)
    requires '/' !in b
    ensures SplitPath("/" + b + "/" + k) == PathParts(b, k)
    ensures SplitPath("/" + b) == PathParts(b, [])
  {
    var p := "/" + b + "/" + k;
    var tail := b + "/" + k;
    assert p[1..] == tail;
    FirstIndexAt(b, '/', k);
    assert tail[..|b|] == b && tail[|b| + 1..] == k;
    var q := "/" + b;
    assert q[1..] == b;
  }

  // ---------------------------------------------------------------------
  // Reply framing

  /** The first byte of a reply: `'0' + event`, as the `unsigned char` `fputc` writes. */
  function EventChar(event: nat): char
  {
    ((48 + event) % 256) as char
  }

  /** A reply: its event and, for the forms with arguments, its text. */
  datatype Reply = Reply(event: nat, text: Option<seq<char>>)

  /** `fzprintf`: the event character, then the text and a line feed when there is text. */
  function Frame(r: Reply): (out: seq<char>)
    ensures |out| >= 1 && out[0] == EventChar(r.event)
  {
    [EventChar(r.event)] + (if r.text.Some? then r.text.value + "\n" else [])
  }

  /** Replies written one after the other. */
  function Frames(rs: seq<Reply>): (out: seq<char>)
    ensures |out| >= |rs|
  {
    if rs == [] then [] else Frame(rs[0]) + Frames(rs[1..])
  }

  /** The event an event character stands for. */
  function EventOf(c: char): (e: nat)
    ensures e < 256
  {
    ((c as int) - 48) % 256
  }

  /**
   * A reader of the reply stream that knows which events carry text: those
   * run to the next line feed, the others are a single character.
   */
  function ReadReplies(out: seq<char>, withText: set<nat>): (rs: seq<Reply>)
    decreases |out|
  {
    if out == [] then []
    else
      var e := EventOf(out[0]);
      var body := out[1..];
      if e in withText then
        var nl := FirstIndex(body, '\n');
        if nl < 0 then [Reply(e, Some(body))]
        else [Reply(e, Some(body[..nl]))] + ReadReplies(body[nl + 1..], withText)
      else [Reply(e, None)] + ReadReplies(body, withText)
  }

  /** A reply that the framing can carry unambiguously. */
  predicate Framable(r: Reply, withText: set<nat>)
  {
    r.event < 208 && (r.text.Some? <==> r.event in withText) &&
    (r.text.Some? ==> '\n' !in r.text.value)
  }

  /**
   * When each event always or never carries text, and no text holds a line
   * feed, the reply stream reads back as the replies written.
   */
  lemma {:induction false} FramesReadBack(rs: seq<Reply>, withText: set<nat>)
    requires forall i :: 0 <= i < |rs| ==> Framable(rs[i], withText)
    ensures ReadReplies(Frames(rs), withText) == rs
    decreases |rs|
  {
    if rs != [] {
      assert Framable(rs[0], withText);
      FramesReadBack(rs[1..], withText);
      ReadOne(rs[0], Frames(rs[1..]), withText);
      assert rs == [rs[0]] + rs[1..];
    }
  }

  /** One framed reply in front of more output is read back first. */
  lemma ReadOne(r: Reply, more: seq<char>, withText: set<nat>)
    requires Framable(r, withText)
    ensures ReadReplies(Frame(r) + more, withText) == [r] + ReadReplies(more, withText)
  {
    var out := Frame(r) + more;
    assert out[0] == EventChar(r.event);
    assert EventOf(out[0]) == r.event;
    var body := out[1..];
    if r.text.Some? {
      assert body == r.text.value + "\n" + more;
      FirstIndexAt(r.text.value, '\n', more);
      assert body[..|r.text.value|] == r.text.value;
      assert body[|r.text.value| + 1..] == more;
    } else {
      assert body == more;
    }
  }

  // ---------------------------------------------------------------------
  // Command dispatch

  /** What `host`, `key` and `pass` have set so far. */
  datatype Access = Access(satelliteUrl: seq<char>, apiKey: seq<char>, passphrase: seq<char>,
                           accessGrant: seq<char>)

  /** What a command line leads to: a reply, or the request made of the storage library. */
  datatype Action =
    | Done
    | BadArguments
    | NoSuchCommand(command: seq<char>)
    | ListBuckets
    | ListObjects(bucket: seq<char>, prefix: seq<char>)
    | Download(bucket: seq<char>, key: seq<char>, file: seq<char>)
    | Upload(bucket: seq<char>, prefix: seq<char>, file: seq<char>, objectName: seq<char>)
    | Delete(bucket: seq<char>, key: seq<char>)
    | CreateBucket(name: seq<char>)
    | DeleteBucket(name: seq<char>)

  /** A key names an object: non-empty and not ending in `/`. */
  predicate ObjectKey(key: seq<char>)
  {
    key != [] && key[|key| - 1] != '/'
  }

  /** `list`: no bucket lists the buckets; a non-empty prefix is made to end in `/`. */
  function List(arg: seq<char>): (a: Action)
    ensures a.ListBuckets? || a.ListObjects?
    ensures a.ListObjects? ==>
              a.bucket != [] && '/' !in a.bucket && (a.prefix == [] || a.prefix[|a.prefix| - 1] == '/')
  {
    var parts := SplitPath(NextArg(arg).arg);
    if parts.bucket == [] then ListBuckets
    else ListObjects(parts.bucket, AsPrefix(parts.key))
  }

  /** A key used as a listing prefix: empty, or ending in `/` (one is added when missing). */
  function AsPrefix(key: seq<char>): (p: seq<char>)
    ensures p == [] || p[|p| - 1] == '/'
    ensures key == [] || key[|key| - 1] == '/' ==> p == key
    ensures key != [] && key[|key| - 1] != '/' ==> p == key + "/"
  {
    if key != [] && key[|key| - 1] != '/' then key + "/" else key
  }

  /** `get <bucket path> <file>`: the file, the bucket and an object key are required. */
  function Get(arg: seq<char>): (a: Action)
    ensures a.BadArguments? || a.Download?
    ensures a.Download? ==> a.file != [] && a.bucket != [] && '/' !in a.bucket && ObjectKey(a.key)
  {
    var first := NextArg(arg);
    var parts := SplitPath(first.arg);
    var file := NextArg(first.rest).arg;
    if file == [] || parts.bucket == [] || !ObjectKey(parts.key) then BadArguments
    else Download(parts.bucket, parts.key, file)
  }

  /** A key split at its last `/`: the prefix before it and the object name after it. */
  datatype KeyParts = KeyParts(prefix: seq<char>, objectName: seq<char>)

  /** The key split at its last `/`; without one, all of it is the object name. */
  function SplitKey(key: seq<char>): (r: KeyParts)
    ensures '/' !in r.objectName
    ensures '/' in key ==> key == r.prefix + "/" + r.objectName
    ensures '/' !in key ==> r == KeyParts([], key)
  {
    var pos := LastIndex(key, '/');
    if pos >= 0 then
      assert key == key[..pos] + "/" + key[pos + 1..];
      KeyParts(key[..pos], key[pos + 1..])
    else KeyParts([], key)
  }

  /** A prefix and a slash-free name joined by `/` split back into themselves. */
  lemma SplitKeyJoin(prefix: seq<char>, name: seq<char>)
    requires '/' !in name
    ensures SplitKey(prefix + "/" + name) == KeyParts(prefix, name)
  {
    var key := prefix + "/" + name;
    LastIndexAt(prefix, '/', name);
    assert key[..|prefix|] == prefix && key[|prefix| + 1..] == name;
  }

  /**
   * `put <file> <bucket path>`: as for `get`; the file `null` means no
   * local file, and the key splits at its last `/` into prefix and object.
   */
  function Put(arg: seq<char>): (a: Action)
    ensures a.BadArguments? || a.Upload?
    ensures a.Upload? ==>
              a.bucket != [] && '/' !in a.bucket && a.file != "null" && a.objectName != [] && '/' !in a.objectName
  {
    var first := NextArg(arg);
    PutPath(first.arg, NextArg(first.rest).arg)
  }

  /** `put` once its two arguments are read: the local file and the bucket path. */
  function PutPath(file: seq<char>, path: seq<char>): (a: Action)
    ensures a.BadArguments? || a.Upload?
    ensures a.Upload? ==>
              a.bucket != [] && '/' !in a.bucket && a.file != "null" && a.objectName != [] && '/' !in a.objectName
  {
    var parts := SplitPath(path);
    if file == [] || parts.bucket == [] || !ObjectKey(parts.key) then BadArguments
    else
      var key := SplitKey(parts.key);
      Upload(parts.bucket, key.prefix, if file == "null" then [] else file, key.objectName)
  }

  /** `rm <bucket path>`: bucket and key are required. */
  function Remove(arg: seq<char>): (a: Action)
    ensures a.BadArguments? || a.Delete?
    ensures a.Delete? ==> a.bucket != [] && '/' !in a.bucket && a.key != []
  {
    var parts := SplitPath(NextArg(arg).arg);
    if parts.bucket == [] || parts.key == [] then BadArguments else Delete(parts.bucket, parts.key)
  }

  /** `mkbucket` / `rmbucket <name>`: a name is required. */
  function Bucket(arg: seq<char>, create: bool): (a: Action)
    ensures a.BadArguments? || (create && a.CreateBucket?) || (!create && a.DeleteBucket?)
    ensures !a.BadArguments? ==> a.name != []
  {
    var name := NextArg(arg).arg;
    if name == [] then BadArguments else if create then CreateBucket(name) else DeleteBucket(name)
  }

  /** The verb of a command line: up to its first space. */
  function Verb(command: seq<char>): (v: seq<char>)
    ensures ' ' !in v && |v| <= |command| && command[..|v|] == v
  {
    var pos := FirstIndex(command, ' ');
    if pos < 0 then command else command[..pos]
  }

  /** The argument of a command line: after its first space, empty without one. */
  function Argument(command: seq<char>): (arg: seq<char>)
    ensures ' ' in command ==> command == Verb(command) + " " + arg
    ensures ' ' !in command ==> arg == []
  {
    var pos := FirstIndex(command, ' ');
    if pos < 0 then [] else
      assert command == command[..pos] + " " + command[pos + 1..];
      command[pos + 1..]
  }

  /** The outcome of one command line: the settings after it and its action. */
  datatype Step = Step(access: Access, action: Action)

  /** The verbs the helper knows, and everything else. */
  datatype Command = HostCmd | KeyCmd | PassCmd | ListCmd | GetCmd | PutCmd | RmCmd | MkBucketCmd | RmBucketCmd
                   | UnknownCmd

  /** The command a verb names. */
  function CommandOf(verb: seq<char>): (c: Command)
    ensures c == UnknownCmd <==>
            verb !in ["host", "key", "pass", "list", "get", "put", "rm", "mkbucket", "rmbucket"]
    ensures verb == "get" ==> c == GetCmd
    ensures verb == "put" ==> c == PutCmd
  {
    if verb == "host" then HostCmd
    else if verb == "key" then KeyCmd
    else if verb == "pass" then PassCmd
    else if verb == "list" then ListCmd
    else if verb == "get" then GetCmd
    else if verb == "put" then PutCmd
    else if verb == "rm" then RmCmd
    else if verb == "mkbucket" then MkBucketCmd
    else if verb == "rmbucket" then RmBucketCmd
    else UnknownCmd
  }

  /** The commands that change a setting. */
  predicate Setting(c: Command)
  {
    c == HostCmd || c == KeyCmd || c == PassCmd
  }

  /**
   * What a verb does with its argument: `host` sets both the satellite URL
   * and the serialized access grant, `key` the API key, `pass` the
   * passphrase; the other verbs leave the settings alone, and an unknown
   * verb is answered with "No such command".
   */
  function Dispatch(access: Access, verb: seq<char>, arg: seq<char>): (r: Step)
    ensures CommandOf(verb) == UnknownCmd ==> r == Step(access, NoSuchCommand(verb))
    ensures !Setting(CommandOf(verb)) ==> r.access == access
    ensures Setting(CommandOf(verb)) ==> r.action == Done
  {
    match CommandOf(verb)
    case HostCmd =>
      var v := NextArg(arg).arg;
      Step(access.(satelliteUrl := v, accessGrant := v), Done)
    case KeyCmd => Step(access.(apiKey := NextArg(arg).arg), Done)
    case PassCmd => Step(access.(passphrase := NextArg(arg).arg), Done)
    case ListCmd => Step(access, List(arg))
    case GetCmd => Step(access, Get(arg))
    case PutCmd => Step(access, Put(arg))
    case RmCmd => Step(access, Remove(arg))
    case MkBucketCmd => Step(access, Bucket(arg, true))
    case RmBucketCmd => Step(access, Bucket(arg, false))
    case UnknownCmd => Step(access, NoSuchCommand(verb))
  }

  /** One turn of the command loop: the line split at its first space, then dispatched. */
  function Handle(access: Access, command: seq<char>): (r: Step)
  {
    Dispatch(access, Verb(command), Argument(command))
  }

  /** A verb and its argument, as the engine writes a command line, reach that verb with that argument. */
  lemma CommandSplit(access: Access, verb: seq<char>, arg: seq<char>)
    requires ' ' !in verb
    ensures Handle(access, verb + " " + arg) == Dispatch(access, verb, arg)
  {
    FirstIndexAt(verb, ' ', arg);
    var c := verb + " " + arg;
    assert c[..|verb|] == verb && c[|verb| + 1..] == arg;
  }

  /** The engine's `get` arguments for an object and a local file are a download of exactly those. */
  lemma GetRoundTrip(b: seq<char>, k: seq<char>, file: seq<char>)
    requires b != [] && '/' !in b && ObjectKey(k) && file != []
    ensures Get(Quote("/" + b + "/" + k) + " " + Quote(file)) == Download(b, k, file)
  {
    TrimKeeps(Quote(file));
    QuotedThen("/" + b + "/" + k, Quote(file));
    QuotedLast(file);
    SplitPathJoin(b, k);
  }

  /** `list` with no argument lists the buckets. */
  lemma ListNothing()
    ensures List([]) == ListBuckets
  {
    assert Trim([]) == [];
    assert NextArg([]).arg == [];
  }

  /** `list "/b/k"` lists bucket `b` under `k` made a prefix; `list "/b"` lists all of `b`. */
  lemma ListRoundTrip(b: seq<char>, k: seq<char>)
    requires b != [] && '/' !in b
    ensures List(Quote("/" + b + "/" + k)) == ListObjects(b, AsPrefix(k))
    ensures List(Quote("/" + b)) == ListObjects(b, [])
  {
    QuotedLast("/" + b + "/" + k);
    QuotedLast("/" + b);
    SplitPathJoin(b, k);
  }

  /** `rm "/b/k"` deletes key `k` of bucket `b`, and `rm "/b"` without a key is refused. */
  lemma RemoveRoundTrip(b: seq<char>, k: seq<char>)
    requires b != [] && '/' !in b && k != []
    ensures Remove(Quote("/" + b + "/" + k)) == Delete(b, k)
    ensures Remove(Quote("/" + b)) == BadArguments
  {
    QuotedLast("/" + b + "/" + k);
    QuotedLast("/" + b);
    SplitPathJoin(b, k);
  }

  /** `mkbucket "n"` and `rmbucket "n"` act on bucket `n`; without a name they are refused. */
  lemma BucketRoundTrip(n: seq<char>, create: bool)
    requires n != []
    ensures Bucket(Quote(n), create) == if create then CreateBucket(n) else DeleteBucket(n)
    ensures Bucket([], create) == BadArguments
  {
    QuotedLast(n);
    assert Trim([]) == [];
    assert NextArg([]).arg == [];
  }

  /** The engine's `put` arguments are an upload of the object, its key split at the last `/`. */
  lemma PutRoundTrip(file: seq<char>, b: seq<char>, prefix: seq<char>, name: seq<char>)
    requires file != [] && file != "null" && b != [] && '/' !in b && name != [] && '/' !in name
    ensures var k := if prefix == [] then name else prefix + "/" + name;
            Put(Quote(file) + " " + Quote("/" + b + "/" + k)) == Upload(b, prefix, file, name)
  {
    var k := if prefix == [] then name else prefix + "/" + name;
    var path := "/" + b + "/" + k;
    TrimKeeps(Quote(path));
    QuotedThen(file, Quote(path));
    QuotedLast(path);
    PutPathJoin(file, b, prefix, name);
  }

  /** The path `/b/prefix/name` names bucket `b`, prefix `prefix` and object `name`. */
  lemma PutPathJoin(file: seq<char>, b: seq<char>, prefix: seq<char>, name: seq<char>)
    requires file != [] && file != "null" && b != [] && '/' !in b && name != [] && '/' !in name
    ensures var k := if prefix == [] then name else prefix + "/" + name;
            PutPath(file, "/" + b + "/" + k) == Upload(b, prefix, file, name)
  {
    var k := if prefix == [] then name else prefix + "/" + name;
    SplitPathJoin(b, k);
    assert ObjectKey(k) by {
      assert k[|k| - 1] == name[|name| - 1];
    }
    if prefix != [] {
      SplitKeyJoin(prefix, name);
    }
  }

  /** The engine's `get` line reaches `get` with the rest of the line. */
  lemma GetCommand(access: Access, x: seq<char>, y: seq<char>)
    ensures Handle(access, "get " + x + " " + y) == Step(access, Get(x + " " + y))
  {
    assert "get " + x + " " + y == "get" + " " + (x + " " + y);
    CommandSplit(access, "get", x + " " + y);
  }

  /** The engine's `put` line reaches `put` with the rest of the line. */
  lemma PutCommand(access: Access, x: seq<char>, y: seq<char>)
    ensures Handle(access, "put " + x + " " + y) == Step(access, Put(x + " " + y))
  {
    assert "put " + x + " " + y == "put" + " " + (x + " " + y);
    CommandSplit(access, "put", x + " " + y);
  }

  /** A key ending in `/` names a directory: `get` refuses it. */
  lemma GetRefusesDirectory(b: seq<char>, k: seq<char>, file: seq<char>)
    requires b != [] && '/' !in b && k != [] && k[|k| - 1] == '/'
    ensures Get(Quote("/" + b + "/" + k) + " " + Quote(file)) == BadArguments
  {
    TrimKeeps(Quote(file));
    QuotedThen("/" + b + "/" + k, Quote(file));
    SplitPathJoin(b, k);
  }

  // ---------------------------------------------------------------------
  // The command loop

  /** How the helper ends: its exit code, the actions taken, the final settings. */
  datatype SessionEnd = SessionEnd(exitCode: int, actions: seq<Action>, access: Access)

  /**
   * The command loop of `main` from `input`: a failed `getLine` ends it with
   * exit code 1, an empty line with 0; every other line is handled in turn.
   */
  function Serve(input: seq<byte>, access: Access, actions: seq<Action>): (r: SessionEnd)
    ensures r.exitCode == 0 || r.exitCode == 1
    ensures |actions| <= |r.actions| && r.actions[..|actions|] == actions
    decreases |input|
  {
    var l := ReadLine(input, []);
    if !l.ok then SessionEnd(1, actions, access)
    else if l.line == [] then SessionEnd(0, actions, access)
    else
      var s := Handle(access, l.line);
      var r := Serve(l.rest, s.access, actions + [s.action]);
      assert (actions + [s.action])[..|actions|] == actions;
      r
  }

  /** The settings `main` starts with. */
  function NoAccess(): Access
  {
    Access([], [], [], [])
  }

  /** `main`'s command loop, reading the whole input line by line. */
  method Run(input: seq<byte>) returns (exitCode: int, actions: seq<Action>, access: Access)
    ensures SessionEnd(exitCode, actions, access) == Serve(input, NoAccess(), [])
  {
    access := NoAccess();
    actions := [];
    var rest := input;
    while true
      invariant Serve(rest, access, actions) == Serve(input, NoAccess(), [])
      decreases |rest|
    {
      var ok, command, rest' := GetLine(rest);
      if !ok {
        exitCode := 1;
        return;
      }
      if command == [] {
        exitCode := 0;
        return;
      }
      var s := Handle(access, command);
      access := s.access;
      actions := actions + [s.action];
      rest := rest';
    }
  }

  /** A command line ended by a line feed is handled, and the loop goes on with the rest. */
  lemma ServeCommand(bs: seq<byte>, more: seq<byte>, access: Access, actions: seq<Action>)
    requires bs != [] && PlainBytes(bs)
    ensures var s := Handle(access, Chars(bs));
            Serve(bs + [10] + more, access, actions) == Serve(more, s.access, actions + [s.action])
  {
    LineRoundTrip(bs, [], more);
    assert [] + Chars(bs) == Chars(bs);
  }

  /** Input that ends without a NUL or line feed ends the helper with exit code 1. */
  lemma ServeEndOfInput(input: seq<byte>, access: Access, actions: seq<Action>)
    requires forall i :: 0 <= i < |input| ==> input[i] != 0 && input[i] != 10
    ensures Serve(input, access, actions) == SessionEnd(1, actions, access)
  {
    EndOfInputFails(input, []);
  }
}
