/**
 * Helpers of the graphical interface for local file names: `file://`
 * URLs for the file manager, splitting a configured command line into
 * program and arguments, file-name extensions and characters that may not
 * appear in a file name. The model follows the non-Windows build.
 */
module FileUtils {
  import opened Common
  import opened Text

  // ---------------------------------------------------------------------
  // GetAsURL: RFC 1738 escaping of the path's UTF-8 bytes

  /** The characters RFC 1738 lets through unescaped, as listed in the source. */
  predicate UrlSafe(b: byte)
  {
    var c := b as int;
    (97 <= c <= 122) || (65 <= c <= 90) || (48 <= c <= 57) || (c as char) in "$_-.+!*'(),?:@&=/"
  }

  function HexDigit(n: int): (c: char)
    requires 0 <= n < 16
  {
    "0123456789abcdef"[n]
  }

  predicate IsHexDigit(c: char)
  {
    ('0' <= c <= '9') || ('a' <= c <= 'f')
  }

  function HexValue(c: char): (n: nat)
    requires IsHexDigit(c)
    ensures n < 16
  {
    if c <= '9' then c as int - '0' as int else c as int - 'a' as int + 10
  }

  lemma HexDigitValue(n: int)
    requires 0 <= n < 16
    ensures IsHexDigit(HexDigit(n)) && HexValue(HexDigit(n)) == n
  {
  }

  /** One byte as the source escapes it: `%x`, lowercase hex without padding. */
  function EncodeByteAsWritten(b: byte): (s: seq<char>)
  {
    if UrlSafe(b) then [(b as int) as char]
    else if b < 16 then ['%', HexDigit(b as int)]
    else ['%', HexDigit(b as int / 16), HexDigit(b as int % 16)]
  }

  function EncodeAsWritten(bs: seq<byte>): (s: seq<char>)
  {
    if bs == [] then [] else EncodeByteAsWritten(bs[0]) + EncodeAsWritten(bs[1..])
  }

  /**
   * With the escape unpadded, the path bytes 0x01 '1' and the single byte
   * 0x11 give the same URL text `%11`: two different directories open the
   * same location.
   */
  lemma AsWrittenCollides()
    ensures EncodeAsWritten([1, 49]) == EncodeAsWritten([17]) == "%11"
  {
    assert EncodeByteAsWritten(1) == "%1";
    assert EncodeByteAsWritten(49) == "1";
    assert EncodeByteAsWritten(17) == "%11";
    assert EncodeAsWritten([49]) == "1" + EncodeAsWritten([]);
    assert EncodeAsWritten([1, 49]) == "%1" + EncodeAsWritten([49]);
    assert EncodeAsWritten([17]) == "%11" + EncodeAsWritten([]);
  }

  /** One byte escaped as RFC 1738 requires: `%` and two lowercase hex digits. */
  function EncodeByte(b: byte): (s: seq<char>)
    ensures UrlSafe(b) ==> s == [(b as int) as char]
    ensures !UrlSafe(b) ==> |s| == 3 && s[0] == '%' && IsHexDigit(s[1]) && IsHexDigit(s[2]) &&
                            HexValue(s[1]) * 16 + HexValue(s[2]) == b as int
  {
    HexDigitValue(b as int / 16);
    HexDigitValue(b as int % 16);
    if UrlSafe(b) then [(b as int) as char] else ['%', HexDigit(b as int / 16), HexDigit(b as int % 16)]
  }

  function Encode(bs: seq<byte>): (s: seq<char>)
  {
    if bs == [] then [] else EncodeByte(bs[0]) + Encode(bs[1..])
  }

  /** The bytes a `file://` URL path stands for: escapes decoded, safe characters as themselves. */
  function Decode(s: seq<char>): (r: Option<seq<byte>>)
    decreases |s|
  {
    if s == [] then Some([])
    else if s[0] == '%' then
      if |s| >= 3 && IsHexDigit(s[1]) && IsHexDigit(s[2]) then
        match Decode(s[3..])
        case None => None
        case Some(t) => Some([(HexValue(s[1]) * 16 + HexValue(s[2])) as byte] + t)
      else None
    else if s[0] as int < 256 && UrlSafe(s[0] as int as byte) then
      match Decode(s[1..])
      case None => None
      case Some(t) => Some([s[0] as int as byte] + t)
    else None
  }

  lemma {:induction false} EncodeAppend(bs: seq<byte>, b: byte)
    ensures Encode(bs + [b]) == Encode(bs) + EncodeByte(b)
  {
    if bs != [] {
      assert (bs + [b])[1..] == bs[1..] + [b];
      EncodeAppend(bs[1..], b);
    }
  }

  /** Escaping loses nothing: decoding gives back every byte. */
  lemma {:induction false} DecodeEncode(bs: seq<byte>)
    ensures Decode(Encode(bs)) == Some(bs)
  {
    if bs != [] {
      DecodeEncode(bs[1..]);
      DecodeByte(bs[0], Encode(bs[1..]), bs[1..]);
      assert Encode(bs) == EncodeByte(bs[0]) + Encode(bs[1..]);
      assert [bs[0]] + bs[1..] == bs;
    }
  }

  /** Decoding one escaped byte in front of a decodable rest. */
  lemma DecodeByte(b: byte, rest: seq<char>, t: seq<byte>)
    requires Decode(rest) == Some(t)
    ensures Decode(EncodeByte(b) + rest) == Some([b] + t)
  {
    var head := EncodeByte(b);
    var s := head + rest;
    if UrlSafe(b) {
      assert s[0] == (b as int) as char;
      assert s[1..] == rest;
    } else {
      assert s[..3] == head;
      assert s[3..] == rest;
      assert s[0] == '%' && |s| >= 3 && IsHexDigit(s[1]) && IsHexDigit(s[2]);
      assert (HexValue(s[1]) * 16 + HexValue(s[2])) as byte == b;
    }
  }

  /** So different paths give different URLs. */
  lemma EncodeInjective(a: seq<byte>, b: seq<byte>)
    requires Encode(a) == Encode(b)
    ensures a == b
  {
    DecodeEncode(a);
    DecodeEncode(b);
  }

  /** The bytes before the first NUL: the loop stops at the string's terminator. */
  function UntilNul(bs: seq<byte>): (r: seq<byte>)
    ensures |r| <= |bs| && r == bs[..|r|] && 0 !in r
    ensures |r| < |bs| ==> bs[|r|] == 0
  {
    if bs == [] || bs[0] == 0 then [] else [bs[0]] + UntilNul(bs[1..])
  }

  /**
   * `GetAsURL`: `file://` followed by the path's UTF-8 bytes, RFC 1738 safe
   * characters as they are and every other byte escaped; the path after
   * the scheme decodes back to the bytes. The conversion to UTF-8 is done
   * by the caller.
   */
  method GetAsUrl(utf8: seq<byte>) returns (url: seq<char>)
    ensures |url| >= 7 && url[..7] == "file://"
    ensures url[7..] == Encode(UntilNul(utf8))
    ensures Decode(url[7..]) == Some(UntilNul(utf8))
  {
    var encoded: seq<char> := [];
    var i := 0;
    while i < |utf8| && utf8[i] != 0
      invariant 0 <= i <= |utf8|
      invariant 0 !in utf8[..i]
      invariant encoded == Encode(utf8[..i])
    {
      EncodeAppend(utf8[..i], utf8[i]);
      assert utf8[..i + 1] == utf8[..i] + [utf8[i]];
      encoded := encoded + EncodeByte(utf8[i]);
      i := i + 1;
    }
    UntilNulPrefix(utf8, i);
    url := "file://" + encoded;
    assert url[7..] == encoded;
    DecodeEncode(UntilNul(utf8));
  }

  lemma UntilNulPrefix(bs: seq<byte>, i: nat)
    requires i <= |bs| && 0 !in bs[..i] && (i == |bs| || bs[i] == 0)
    ensures UntilNul(bs) == bs[..i]
  {
  }

  // ---------------------------------------------------------------------
  // UnquoteCommand: a configured command line split into program and arguments

  /** The outcome: whether every quote was closed, the program, and the arguments. */
  datatype Unquoted = Unquoted(ok: bool, command: seq<char>, arguments: seq<char>)

  predicate IsQuote(c: char)
  {
    c == '"' || c == '\''
  }

  /** Outside quotes, this character ends the program name (`,` and `#` only for DDE commands). */
  predicate EndsCommand(c: char, dde: bool)
  {
    c == ' ' || (dde && (c == ',' || c == '#'))
  }

  /**
   * The scan from index `i`, inside the quote `q` if any, having collected
   * `file`: a quote opens, is taken literally inside the other kind, is
   * taken once when doubled, or closes; outside quotes the first separator
   * ends the name and the rest, left-trimmed, is the arguments. A quote
   * still open at the end fails and leaves the command as it was.
   */
  function UnquoteFrom(cmd: seq<char>, dde: bool, i: nat, q: Option<char>, file: seq<char>): (u: Unquoted)
    requires i <= |cmd|
    ensures !u.ok ==> u.command == cmd && u.arguments == []
    decreases |cmd| - i
  {
    if i == |cmd| then
      if q.Some? then Unquoted(false, cmd, []) else Unquoted(true, file, [])
    else
      var c := cmd[i];
      if IsQuote(c) then
        if q.None? then UnquoteFrom(cmd, dde, i + 1, Some(c), file)
        else if c != q.value then UnquoteFrom(cmd, dde, i + 1, q, file + [c])
        else if i + 1 < |cmd| && cmd[i + 1] == c then UnquoteFrom(cmd, dde, i + 2, q, file + [c])
        else UnquoteFrom(cmd, dde, i + 1, None, file)
      else if q.None? && EndsCommand(c, dde) then Unquoted(true, file, LTrim(cmd[i + 1..]))
      else UnquoteFrom(cmd, dde, i + 1, q, file + [c])
  }

  function Unquote(cmd: seq<char>, dde: bool): (u: Unquoted)
    ensures cmd == [] ==> u == Unquoted(true, [], [])
  {
    if cmd == [] then Unquoted(true, [], []) else UnquoteFrom(cmd, dde, 0, None, [])
  }

  /**
   * `UnquoteCommand`: the arguments are cleared; an empty command succeeds
   * at once; otherwise the scan above, the command becoming the unquoted
   * program name only on success.
   */
  method UnquoteCommand(command: seq<char>, dde: bool) returns (ok: bool, newCommand: seq<char>, arguments: seq<char>)
    ensures Unquoted(ok, newCommand, arguments) == Unquote(command, dde)
  {
    arguments := [];
    if |command| == 0 {
      return true, command, arguments;
    }
    var inQuotes: Option<char> := None;
    var file: seq<char> := [];
    var i := 0;
    while i < |command|
      invariant 0 <= i <= |command|
      invariant UnquoteFrom(command, dde, i, inQuotes, file) == Unquote(command, dde)
      decreases |command| - i
    {
      var c := command[i];
      if c == '"' || c == '\'' {
        if inQuotes.None? {
          inQuotes := Some(c);
        } else if c != inQuotes.value {
          file := file + [c];
        } else if i + 1 < |command| && command[i + 1] == c {
          file := file + [c];
          i := i + 1;
        } else {
          inQuotes := None;
        }
      } else if c == ' ' && inQuotes.None? {
        arguments := LTrim(command[i + 1..]);
        return true, file, arguments;
      } else if dde && inQuotes.None? && (c == ',' || c == '#') {
        arguments := LTrim(command[i + 1..]);
        return true, file, arguments;
      } else {
        file := file + [c];
      }
      i := i + 1;
    }
    if inQuotes.Some? {
      return false, command, arguments;
    }
    newCommand := file;
    ok := true;
  }

  /** A name in double quotes, its own double quotes doubled: how a command with spaces is written. */
  function DoubleQuotes(f: seq<char>): (s: seq<char>)
  {
    if f == [] then [] else (if f[0] == '"' then "\"\"" else [f[0]]) + DoubleQuotes(f[1..])
  }

  function Quote(f: seq<char>): (s: seq<char>)
  {
    "\"" + DoubleQuotes(f) + "\""
  }

  lemma StepLiteral(cmd: seq<char>, dde: bool, i: nat, file: seq<char>)
    requires i < |cmd| && cmd[i] != '"'
    ensures UnquoteFrom(cmd, dde, i, Some('"'), file) == UnquoteFrom(cmd, dde, i + 1, Some('"'), file + [cmd[i]])
  {
  }

  lemma StepDoubled(cmd: seq<char>, dde: bool, i: nat, file: seq<char>)
    requires i + 1 < |cmd| && cmd[i] == '"' && cmd[i + 1] == '"'
    ensures UnquoteFrom(cmd, dde, i, Some('"'), file) == UnquoteFrom(cmd, dde, i + 2, Some('"'), file + ['"'])
  {
  }

  lemma StepClose(cmd: seq<char>, dde: bool, i: nat, file: seq<char>)
    requires i < |cmd| && cmd[i] == '"' && (i + 1 == |cmd| || cmd[i + 1] != '"')
    ensures UnquoteFrom(cmd, dde, i, Some('"'), file) == UnquoteFrom(cmd, dde, i + 1, None, file)
  {
  }

  /** Scanning a doubled-quote body inside double quotes collects the name and closes the quote. */
  lemma {:induction false} ScanQuoted(cmd: seq<char>, dde: bool, i: nat, f: seq<char>, file: seq<char>)
    requires i + |DoubleQuotes(f)| + 1 <= |cmd|
    requires cmd[i..i + |DoubleQuotes(f)| + 1] == DoubleQuotes(f) + "\""
    requires i + |DoubleQuotes(f)| + 1 == |cmd| || cmd[i + |DoubleQuotes(f)| + 1] != '"'
    ensures UnquoteFrom(cmd, dde, i, Some('"'), file) ==
            UnquoteFrom(cmd, dde, i + |DoubleQuotes(f)| + 1, None, file + f)
    decreases |f|
  {
    var t := DoubleQuotes(f) + "\"";
    if f == [] {
      assert cmd[i] == t[0] == '"';
      StepClose(cmd, dde, i, file);
      assert file + f == file;
    } else {
      var rest := DoubleQuotes(f[1..]);
      var n := if f[0] == '"' then 2 else 1;
      assert t == DoubleQuotes(f)[..n] + rest + "\"";
      assert |DoubleQuotes(f)| == n + |rest|;
      assert cmd[i + n..i + n + |rest| + 1] == t[n..];
      assert file + [f[0]] + f[1..] == file + f;
      if f[0] == '"' {
        assert cmd[i] == t[0] && cmd[i + 1] == t[1];
        StepDoubled(cmd, dde, i, file);
      } else {
        assert cmd[i] == t[0];
        StepLiteral(cmd, dde, i, file);
      }
      ScanQuoted(cmd, dde, i + n, f[1..], file + [f[0]]);
    }
  }

  /** A quoted program name followed by a space and arguments splits back into the two. */
  lemma QuotedCommandRoundTrip(f: seq<char>, args: seq<char>, dde: bool)
    ensures Unquote(Quote(f) + " " + args, dde) == Unquoted(true, f, LTrim(args))
  {
    var cmd := Quote(f) + " " + args;
    var d := DoubleQuotes(f);
    assert cmd[0] == '"';
    assert cmd[1..1 + |d| + 1] == d + "\"";
    assert cmd[1 + |d| + 1] == ' ';
    ScanQuoted(cmd, dde, 1, f, []);
    assert cmd[|d| + 3..] == args;
  }

  /** A quoted program name alone is the program, with no arguments. */
  lemma QuotedAloneRoundTrip(f: seq<char>, dde: bool)
    ensures Unquote(Quote(f), dde) == Unquoted(true, f, [])
  {
    var cmd := Quote(f);
    var d := DoubleQuotes(f);
    assert cmd[1..1 + |d| + 1] == d + "\"";
    ScanQuoted(cmd, dde, 1, f, []);
  }

  /** With no double quote after an opening one, the quote stays open and the scan fails. */
  lemma {:induction false} OpenQuoteFails(cmd: seq<char>, dde: bool, i: nat, file: seq<char>)
    requires i <= |cmd| && '"' !in cmd[i..]
    ensures !UnquoteFrom(cmd, dde, i, Some('"'), file).ok
    decreases |cmd| - i
  {
    if i < |cmd| {
      assert cmd[i] in cmd[i..];
      OpenQuoteFails(cmd, dde, i + 1, file + [cmd[i]]);
    }
  }

  lemma UnterminatedQuote(rest: seq<char>, dde: bool)
    requires '"' !in rest
    ensures Unquote("\"" + rest, dde) == Unquoted(false, "\"" + rest, [])
  {
    assert ("\"" + rest)[1..] == rest;
    OpenQuoteFails("\"" + rest, dde, 1, []);
  }

  // ---------------------------------------------------------------------
  // GetExtension and IsInvalidChar

  /**
   * `GetExtension`: of the name after the last `/`, the text after its last
   * dot; `"."` when that dot starts the name; empty without a dot.
   */
  function GetExtension(file: seq<char>): (r: seq<char>)
    ensures '/' !in r
    ensures r == "." || '.' !in r
    ensures '.' !in file[LastIndex(file, '/') + 1..] ==> r == []
  {
    var name := file[LastIndex(file, '/') + 1..];
    var pos := LastIndex(name, '.');
    if pos == 0 then "."
    else if pos > 0 then
      assert name[pos + 1..] == file[LastIndex(file, '/') + 1..][pos + 1..];
      name[pos + 1..]
    else []
  }

  /** The directory part does not matter. */
  lemma ExtensionIgnoresDirectory(dir: seq<char>, name: seq<char>)
    requires '/' !in name
    ensures GetExtension(dir + "/" + name) == GetExtension(name)
  {
    LastIndexAt(dir, '/', name);
    assert (dir + "/" + name)[|dir| + 1..] == name;
    assert LastIndex(name, '/') == -1;
    assert name[0..] == name;
  }

  /** `stem.ext` has extension `ext`. */
  lemma ExtensionOfStemDotExt(stem: seq<char>, ext: seq<char>)
    requires stem != [] && '/' !in stem && '/' !in ext && '.' !in ext
    ensures GetExtension(stem + "." + ext) == ext
  {
    var name := stem + "." + ext;
    NotInJoin(stem, '.', ext, '/');
    assert LastIndex(name, '/') == -1;
    assert name[0..] == name;
    LastIndexAt(stem, '.', ext);
    assert name[|stem| + 1..] == ext;
  }

  /** A character in neither part nor the separator is not in the joined text. */
  lemma NotInJoin(a: seq<char>, sep: char, b: seq<char>, c: char)
    requires c !in a && c !in b && c != sep
    ensures c !in a + [sep] + b
  {
    var s := a + [sep] + b;
    forall k | 0 <= k < |s|
      ensures s[k] != c
    {
      if k < |a| { assert s[k] == a[k]; }
      else if k > |a| { assert s[k] == b[k - |a| - 1]; }
    }
  }

  /** A name starting with its only dot, such as `.profile`, has extension `.`. */
  lemma ExtensionOfDotFile(rest: seq<char>)
    requires '/' !in rest && '.' !in rest
    ensures GetExtension("." + rest) == "."
  {
    var name := "." + rest;
    assert '/' !in name;
    assert name[0..] == name;
    LastIndexAt([], '.', rest);
    assert [] + ['.'] + rest == name;
  }

  /**
   * `IsInvalidChar` outside Windows: `/` never may appear in a file name;
   * the quotes and the backslash may not when quotes are excluded too.
   */
  function IsInvalidChar(c: char, includeQuotes: bool): (r: bool)
    ensures c == '/' ==> r
    ensures c == '\'' ==> (r <==> includeQuotes)
    ensures r ==> c == '/' || (includeQuotes && c in "'\"\\")
  {
    match c
    case '/' => true
    case '\'' => includeQuotes
    case '"' => includeQuotes
    case '\\' => includeQuotes
    case _ => false
  }

  /** Excluding quotes only ever adds invalid characters. */
  lemma InvalidCharsGrowWithQuotes(c: char)
    ensures IsInvalidChar(c, false) ==> IsInvalidChar(c, true)
    ensures IsInvalidChar(c, true) && !IsInvalidChar(c, false) <==> c in "'\"\\"
  {
  }
}
