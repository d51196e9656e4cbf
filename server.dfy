/**
 * `CServer`: a site's connection data. The hand-written URL parser fills
 * it from `[scheme://][user[:pass]@]host[:port][/path]`; guarded setters
 * change single fields; equality, ordering and `Format` read it.
 */
module Server {
  import opened Common
  import opened Text

  // ---------------------------------------------------------------------
  // Protocols and their table

  /** `ServerProtocol`, in the order of the protocol table. */
  datatype Protocol = FTP | SFTP | HTTP | HTTPS | FTPS | FTPES | INSECURE_FTP | UNKNOWN

  /** One row of `protocolInfos`: prefix, whether it is always shown, and the default port. */
  datatype ProtocolInfo = ProtocolInfo(protocol: Protocol, prefix: seq<char>, alwaysShowPrefix: bool, defaultPort: nat,
                                       supportsPostlogin: bool)

  /** `protocolInfos`, its `UNKNOWN` sentinel last. */
  const ProtocolInfos: seq<ProtocolInfo> := [
    ProtocolInfo(FTP, "ftp", false, 21, true),
    ProtocolInfo(SFTP, "sftp", true, 22, false),
    ProtocolInfo(HTTP, "http", true, 80, false),
    ProtocolInfo(HTTPS, "https", true, 443, false),
    ProtocolInfo(FTPS, "ftps", true, 990, true),
    ProtocolInfo(FTPES, "ftpes", true, 21, true),
    ProtocolInfo(INSECURE_FTP, "ftp", false, 21, true),
    ProtocolInfo(UNKNOWN, "", false, 21, false)
  ]

  /** `GetProtocolInfo`: the protocol's row; an unlisted protocol gets the sentinel. */
  function Info(p: Protocol): (info: ProtocolInfo)
    ensures info in ProtocolInfos && info.protocol == p
    ensures forall i :: 0 <= i < |info.prefix| ==> 'a' <= info.prefix[i] <= 'z'
  {
    match p
    case FTP => ProtocolInfos[0]
    case SFTP => ProtocolInfos[1]
    case HTTP => ProtocolInfos[2]
    case HTTPS => ProtocolInfos[3]
    case FTPS => ProtocolInfos[4]
    case FTPES => ProtocolInfos[5]
    case INSECURE_FTP => ProtocolInfos[6]
    case UNKNOWN => ProtocolInfos[7]
  }

  function DefaultPort(p: Protocol): nat
  {
    Info(p).defaultPort
  }

  /** The first row before the sentinel, from row `i` on, whose default port is `port`. */
  function FirstWithPort(port: nat, i: nat): (k: int)
    requires i < |ProtocolInfos|
    ensures k == -1 || (i <= k < |ProtocolInfos| - 1 && ProtocolInfos[k].defaultPort == port)
    ensures k != -1 ==> forall j :: i <= j < k ==> ProtocolInfos[j].defaultPort != port
    ensures k == -1 ==> forall j :: i <= j < |ProtocolInfos| - 1 ==> ProtocolInfos[j].defaultPort != port
    decreases |ProtocolInfos| - i
  {
    if ProtocolInfos[i].protocol == UNKNOWN then -1
    else if ProtocolInfos[i].defaultPort == port then i
    else FirstWithPort(port, i + 1)
  }

  /** `GetProtocolFromPort`: the first protocol with that default port; else FTP, or UNKNOWN when asked for defaults only. */
  function ProtocolFromPort(port: nat, defaultOnly: bool): (p: Protocol)
    ensures p != UNKNOWN && p != FTP ==> DefaultPort(p) == port
    ensures port in {21, 22, 80, 443, 990} ==> p != UNKNOWN && DefaultPort(p) == port
    ensures port !in {21, 22, 80, 443, 990} ==> p == if defaultOnly then UNKNOWN else FTP
  {
    var k := FirstWithPort(port, 0);
    if k >= 0 then ProtocolInfos[k].protocol else if defaultOnly then UNKNOWN else FTP
  }

  /** `GetProtocolFromPort`: the table scan. */
  method GetProtocolFromPort(port: nat, defaultOnly: bool) returns (p: Protocol)
    ensures p == ProtocolFromPort(port, defaultOnly)
  {
    var i := 0;
    while ProtocolInfos[i].protocol != UNKNOWN
      invariant 0 <= i < |ProtocolInfos|
      invariant FirstWithPort(port, i) == FirstWithPort(port, 0)
      decreases |ProtocolInfos| - i
    {
      if ProtocolInfos[i].defaultPort == port {
        return ProtocolInfos[i].protocol;
      }
      i := i + 1;
    }
    if defaultOnly {
      return UNKNOWN;
    }
    return FTP;
  }

  /** A protocol's default port leads back to it, except that port 21 stands for plain FTP. */
  lemma PortOfProtocol(p: Protocol)
    requires p != UNKNOWN
    ensures ProtocolFromPort(DefaultPort(p), true) == if DefaultPort(p) == 21 then FTP else p
  {
  }

  /** `GetProtocolFromPrefix`: the first row whose prefix matches (the caller lowers the text). */
  function ProtocolFromPrefix(prefix: seq<char>): (p: Protocol)
    ensures p != UNKNOWN ==> Info(p).prefix == ToLowerAscii(prefix)
  {
    var l := ToLowerAscii(prefix);
    if l == "ftp" then FTP
    else if l == "sftp" then SFTP
    else if l == "http" then HTTP
    else if l == "https" then HTTPS
    else if l == "ftps" then FTPS
    else if l == "ftpes" then FTPES
    else UNKNOWN
  }

  /** Every prefix names its protocol, save that `ftp` is plain FTP rather than insecure FTP. */
  lemma PrefixOfProtocol(p: Protocol)
    requires p != UNKNOWN && p != INSECURE_FTP
    ensures ProtocolFromPrefix(Info(p).prefix) == p
  {
    var pre := Info(p).prefix;
    assert ToLowerAscii(pre) == pre by {
      LowerOfLowercase(pre);
    }
  }

  lemma LowerOfLowercase(s: seq<char>)
    requires forall i :: 0 <= i < |s| ==> !('A' <= s[i] <= 'Z')
    ensures ToLowerAscii(s) == s
  {
  }

  /** `SupportsPostLoginCommands`. */
  predicate SupportsPostLogin(p: Protocol)
  {
    p == FTP || p == FTPS || p == FTPES || p == INSECURE_FTP
  }

  /** The table and the predicate agree on which protocols take post-login commands. */
  lemma PostLoginAgrees(p: Protocol)
    ensures Info(p).supportsPostlogin <==> SupportsPostLogin(p)
  {
  }

  // ---------------------------------------------------------------------
  // Logon types and their names

  datatype LogonType = ANONYMOUS | NORMAL | ASK | INTERACTIVE | ACCOUNT | KEY

  /** `GetNameFromLogonType` (untranslated). */
  function NameFromLogonType(t: LogonType): (name: seq<char>)
  {
    match t
    case NORMAL => "Normal"
    case ASK => "Ask for password"
    case KEY => "Key file"
    case INTERACTIVE => "Interactive"
    case ACCOUNT => "Account"
    case ANONYMOUS => "Anonymous"
  }

  /** `GetLogonTypeFromName`: any name not listed means anonymous. */
  function LogonTypeFromName(name: seq<char>): (t: LogonType)
    ensures t != ANONYMOUS ==> NameFromLogonType(t) == name
  {
    if name == "Normal" then NORMAL
    else if name == "Ask for password" then ASK
    else if name == "Key file" then KEY
    else if name == "Interactive" then INTERACTIVE
    else if name == "Account" then ACCOUNT
    else ANONYMOUS
  }

  /** Naming a logon type and reading the name back gives the type. */
  lemma LogonNameRoundTrip(t: LogonType)
    ensures LogonTypeFromName(NameFromLogonType(t)) == t
  {
  }

  datatype Encoding = ENCODING_AUTO | ENCODING_UTF8 | ENCODING_CUSTOM

  /** The rank `operator<` compares protocols by; server.h's numbering is not part of this model. */
  function ProtocolRank(p: Protocol): int
  {
    match p
    case UNKNOWN => -1
    case FTP => 0
    case SFTP => 1
    case HTTP => 2
    case FTPS => 3
    case FTPES => 4
    case HTTPS => 5
    case INSECURE_FTP => 6
  }

  function LogonRank(t: LogonType): int
  {
    match t
    case ANONYMOUS => 0
    case NORMAL => 1
    case ASK => 2
    case INTERACTIVE => 3
    case ACCOUNT => 4
    case KEY => 5
  }

  function EncodingRank(e: Encoding): int
  {
    match e
    case ENCODING_AUTO => 0
    case ENCODING_UTF8 => 1
    case ENCODING_CUSTOM => 2
  }

  lemma RanksInjective(p: Protocol, q: Protocol, s: LogonType, t: LogonType, e: Encoding, f: Encoding)
    ensures ProtocolRank(p) == ProtocolRank(q) ==> p == q
    ensures LogonRank(s) == LogonRank(t) ==> s == t
    ensures EncodingRank(e) == EncodingRank(f) ==> e == f
  {
  }

  // ---------------------------------------------------------------------
  // Whitespace and numbers as wxString reads them

  /** The whitespace `wxString::Trim` removes. */
  predicate IsSpace(c: char)
  {
    c == ' ' || c == '\t' || c == '\n' || c == '\r' || c == '\U{B}' || c == '\U{C}'
  }

  /** The end of `s[..n]` once trailing whitespace is dropped. */
  function TrimEnd(s: seq<char>, n: nat): (e: nat)
    requires n <= |s|
    ensures e <= n && (e == 0 || !IsSpace(s[e - 1]))
    ensures forall i :: e <= i < n ==> IsSpace(s[i])
    decreases n
  {
    if n > 0 && IsSpace(s[n - 1]) then TrimEnd(s, n - 1) else n
  }

  /** The start of `s[i..e]` once leading whitespace is dropped. */
  function TrimStart(s: seq<char>, i: nat, e: nat): (b: nat)
    requires i <= e <= |s|
    ensures i <= b <= e && (b == e || !IsSpace(s[b]))
    ensures forall k :: i <= k < b ==> IsSpace(s[k])
    decreases e - i
  {
    if i < e && IsSpace(s[i]) then TrimStart(s, i + 1, e) else i
  }

  /** `Trim(false)`: `s` without its leading whitespace. */
  function TrimLeft(s: seq<char>): (r: seq<char>)
    ensures |r| <= |s| && r == s[|s| - |r|..]
    ensures forall i :: 0 <= i < |s| - |r| ==> IsSpace(s[i])
    ensures r == [] || !IsSpace(r[0])
  {
    s[TrimStart(s, 0, |s|)..]
  }

  /** `Trim(true)` then `Trim(false)`: a slice of `s` with no whitespace at either end. */
  function Trim(s: seq<char>): (r: seq<char>)
    ensures r == [] || (!IsSpace(r[0]) && !IsSpace(r[|r| - 1]))
    ensures (forall i :: 0 <= i < |s| ==> IsSpace(s[i])) <==> r == []
    ensures (s == [] || (!IsSpace(s[0]) && !IsSpace(s[|s| - 1]))) ==> r == s
  {
    var e := TrimEnd(s, |s|);
    s[TrimStart(s, 0, e)..e]
  }

  /**
   * `wxString::ToLong`: optional leading whitespace, an optional sign and
   * at least one digit, and nothing else. (Values beyond `long` fail there
   * and are out of the port range here; both are rejected alike.)
   */
  function ToLong(s: seq<char>): (r: Option<int>)
    ensures r.Some? && AllDigits(s) ==> r == Some(DigitsValue(s))
    ensures s != [] && AllDigits(s) ==> r.Some?
  {
    var t := TrimLeft(s);
    if t != [] && (t[0] == '+' || t[0] == '-') then
      if |t| > 1 && AllDigits(t[1..]) then
        var v: int := DigitsValue(t[1..]);
        Some(if t[0] == '-' then -v else v)
      else None
    else if t != [] && AllDigits(t) then Some(DigitsValue(t))
    else None
  }

  const ULongModulus: nat := 0x1_0000_0000_0000_0000

  /** `wxString::ToULong` on trimmed text: an optional sign and digits; a minus wraps around. */
  function ToULong(s: seq<char>): (r: Option<nat>)
    ensures r.Some? && AllDigits(s) ==> r == Some(DigitsValue(s) % ULongModulus)
  {
    if s != [] && (s[0] == '+' || s[0] == '-') then
      if |s| > 1 && AllDigits(s[1..]) then
        var v := DigitsValue(s[1..]) % ULongModulus;
        Some(if s[0] == '-' then (ULongModulus - v) % ULongModulus else v)
      else None
    else if s != [] && AllDigits(s) then Some(DigitsValue(s) % ULongModulus)
    else None
  }

  /**
   * The port text of `ParseUrl`'s first overload: empty means "use the
   * default" (0); otherwise, trimmed, at most five characters that read
   * as a number from 1 to 65535. `None` is the "Invalid port" error.
   */
  function PortFromText(port: seq<char>): (r: Option<nat>)
    ensures port == [] ==> r == Some(0)
    ensures r.Some? && port != [] ==> 1 <= r.value <= 65535
    ensures r.Some? && port != [] ==> |Trim(port)| <= 5
    ensures AllDigits(port) && 0 < |port| <= 5 && 1 <= DigitsValue(port) <= 65535 ==> r == Some(DigitsValue(port))
  {
    if port == [] then Some(0)
    else
      var t := Trim(port);
      if |t| > 5 then None
      else match ToULong(t)
        case None => None
        case Some(n) => if n == 0 || n > 65535 then None else Some(n)
  }

  // ---------------------------------------------------------------------
  // ParseUrl, stage by stage

  /** `Find(sub)` from index `i` on: the first index where `sub` occurs, or -1. */
  function FindTextFrom(s: seq<char>, sub: seq<char>, i: nat): (r: int)
    requires i <= |s|
    ensures r == -1 || (i <= r && OccursAt(s, sub, r))
    ensures forall j :: i <= j && (r == -1 || j < r) ==> !OccursAt(s, sub, j)
    decreases |s| - i
  {
    if OccursAt(s, sub, i) then i
    else if i + |sub| >= |s| then -1
    else FindTextFrom(s, sub, i + 1)
  }

  /** `Find(sub)`: the first occurrence of `sub`, or -1. */
  function FindText(s: seq<char>, sub: seq<char>): (r: int)
    ensures r == -1 || OccursAt(s, sub, r)
    ensures forall j :: 0 <= j && (r == -1 || j < r) ==> !OccursAt(s, sub, j)
  {
    FindTextFrom(s, sub, 0)
  }

  /** What the scheme part leaves: whether it named a protocol, the protocol field, and the text after `://`. */
  datatype Scheme = Scheme(ok: bool, protocol: Protocol, rest: seq<char>)

  /**
   * Before the first `://`, lowered and without an `fz_` prefix, must
   * stand a protocol prefix; it replaces the protocol field (with UNKNOWN
   * when it names none). Without `://` the field stays.
   */
  function SchemeStage(host: seq<char>, protocol: Protocol): (r: Scheme)
    ensures FindText(host, "://") == -1 ==> r == Scheme(true, protocol, host)
    ensures FindText(host, "://") != -1 ==> r.ok == (r.protocol != UNKNOWN) && r.rest == host[FindText(host, "://") + 3..]
    ensures |r.rest| <= |host| && r.rest == host[|host| - |r.rest|..]
  {
    var pos := FindText(host, "://");
    if pos == -1 then Scheme(true, protocol, host)
    else
      var p := ProtocolFromPrefix(SchemeName(host[..pos]));
      Scheme(p != UNKNOWN, p, host[pos + 3..])
  }

  /** `Mid(from).Find(c)` moved back to whole-text indices: the first `c` at or after `from`, or -1. */
  function FindFrom(s: seq<char>, c: char, from: nat): (r: int)
    requires from <= |s|
    ensures r == -1 || (from <= r < |s| && s[r] == c)
    ensures forall j :: from <= j < |s| && (r == -1 || j < r) ==> s[j] != c
    decreases |s| - from
  {
    if from == |s| then -1 else if s[from] == c then from else FindFrom(s, c, from + 1)
  }

  /** The text before `://`, lowered and without an `fz_` prefix. */
  function SchemeName(prefix: seq<char>): seq<char>
  {
    var lowered := ToLowerAscii(prefix);
    if |lowered| >= 3 && lowered[..3] == "fz_" then lowered[3..] else lowered
  }

  /** Where the user part may end: the first `/` after the first `@`, or the end of the text. */
  function UserLimit(host: seq<char>): (limit: int)
    requires '@' in host
    ensures FindFrom(host, '@', 0) < limit <= |host|
    ensures limit < |host| ==> host[limit] == '/'
    ensures forall j :: FindFrom(host, '@', 0) < j < limit ==> host[j] != '/'
  {
    var first := FindFrom(host, '@', 0);
    var slash := FindFrom(host, '/', first + 1);
    if slash == -1 then |host| else slash
  }

  /**
   * The `@` that ends the user part: the last one before the first `/`
   * that follows the first `@` (hosts and ports hold no `@`, passwords may).
   */
  function UserEnd(host: seq<char>): (at: int)
    requires '@' in host
    ensures FindFrom(host, '@', 0) <= at < UserLimit(host) && host[at] == '@'
    ensures forall j :: at < j < UserLimit(host) ==> host[j] != '@'
  {
    LastBefore(host, '@', UserLimit(host))
  }

  /** The last index below `n` that holds `c`, or -1. */
  function LastBefore(s: seq<char>, c: char, n: nat): (r: int)
    requires n <= |s|
    ensures -1 <= r < n && (r >= 0 ==> s[r] == c)
    ensures forall j :: r < j < n ==> s[j] != c
    decreases n
  {
    if n == 0 then -1 else if s[n - 1] == c then n - 1 else LastBefore(s, c, n - 1)
  }

  /** The source's loop: step from `@` to `@` until one lies beyond the slash. */
  method FindUserEnd(host: seq<char>) returns (pos: int)
    requires '@' in host
    ensures pos == UserEnd(host)
  {
    pos := FindFrom(host, '@', 0);
    var slash := FindFrom(host, '/', pos + 1);
    ghost var limit := UserLimit(host);
    var nextAt := FindFrom(host, '@', pos + 1);
    while nextAt != -1
      invariant FindFrom(host, '@', 0) <= pos < limit && host[pos] == '@'
      invariant nextAt == FindFrom(host, '@', pos + 1)
      decreases |host| - pos
    {
      if slash != -1 && nextAt > slash {
        break;
      }
      pos := nextAt;
      nextAt := FindFrom(host, '@', pos + 1);
    }
  }

  predicate Asks(t: LogonType)
  {
    t == ASK || t == INTERACTIVE
  }

  /** The user, the password and the text after the user part. */
  datatype Credentials = Credentials(user: seq<char>, pass: seq<char>, rest: seq<char>)

  /**
   * With an `@` at `at`: the text before it, split at its first `:` into
   * user and password (without a `:` the given password stays); the user,
   * trimmed, must not be empty.
   */
  function CredentialsAt(host: seq<char>, at: int, pass: seq<char>): (r: Option<Credentials>)
    requires 0 <= at < |host|
    ensures r.Some? ==> r.value.user != [] && r.value.rest == host[at + 1..]
    ensures ':' !in host[..at] ==> r == if Trim(host[..at]) == [] then None
                                          else Some(Credentials(Trim(host[..at]), pass, host[at + 1..]))
  {
    var info := host[..at];
    var colon := FirstIndex(info, ':');
    var user := if colon == -1 then info else info[..colon];
    var password := if colon == -1 then pass else info[colon + 1..];
    var trimmed := Trim(user);
    if trimmed == [] then None else Some(Credentials(trimmed, password, host[at + 1..]))
  }

  /**
   * Without an `@`: the given user, trimmed, and the given password; an
   * empty user becomes the anonymous login unless the logon type asks.
   */
  function DefaultCredentials(host: seq<char>, user: seq<char>, pass: seq<char>, logonType: LogonType): (r: Credentials)
    ensures r.rest == host
    ensures Trim(user) == [] && !Asks(logonType) ==> r.user == "anonymous" && r.pass == "anonymous@example.com"
    ensures (Trim(user) != [] || Asks(logonType)) ==> r.user == Trim(user) && r.pass == pass
  {
    var trimmed := Trim(user);
    if trimmed == [] && !Asks(logonType) then Credentials("anonymous", "anonymous@example.com", host)
    else Credentials(trimmed, pass, host)
  }

  /** The user part: after the user-ending `@` if there is one, else from the given user. */
  function UserStage(host: seq<char>, user: seq<char>, pass: seq<char>, logonType: LogonType): Option<Credentials>
  {
    if '@' in host then CredentialsAt(host, UserEnd(host), pass) else Some(DefaultCredentials(host, user, pass, logonType))
  }

  datatype UrlError = NoHost | BadProtocol | BadUser | NoClosingBracket | JunkAfterBracket | BadPort

  /** The host text and the port, or why there are none. */
  datatype HostPort = HostPortError(error: UrlError) | HostAndPort(host: seq<char>, port: nat)

  /** A `:` at `pos`: nothing before it is an error, and what follows must read as 1 to 65535. */
  function ExplicitPort(host: seq<char>, pos: int): (r: HostPort)
    requires 0 <= pos < |host|
    ensures pos == 0 ==> r == HostPortError(NoHost)
    ensures r.HostAndPort? ==> 1 <= r.port <= 65535 && r.host == host[..pos] && r.host != []
    ensures pos > 0 && AllDigits(host[pos + 1..]) && host[pos + 1..] != [] && 1 <= DigitsValue(host[pos + 1..]) <= 65535 ==>
              r == HostAndPort(host[..pos], DigitsValue(host[pos + 1..]))
  {
    if pos == 0 then HostPortError(NoHost)
    else match ToLong(host[pos + 1..])
      case None => HostPortError(BadPort)
      case Some(v) => if v < 1 || v > 65535 then HostPortError(BadPort) else HostAndPort(host[..pos], v)
  }

  /** No port in the text: the given one, or the protocol's default when it is 0. */
  function DefaultedPort(host: seq<char>, port: nat, protocol: Protocol): (r: HostPort)
    ensures r.HostPortError? <==> port > 65535
    ensures r.HostAndPort? ==> r.host == host && r.port == (if port == 0 then DefaultPort(protocol) else port)
  {
    if port == 0 then HostAndPort(host, DefaultPort(protocol))
    else if port > 65535 then HostPortError(BadPort)
    else HostAndPort(host, port)
  }

  /**
   * The port: after the `]` of a bracketed host (which must be followed by
   * nothing or by `:`), else after the first `:`.
   */
  function SplitPort(host: seq<char>, port: nat, protocol: Protocol): (r: HostPort)
    ensures r.HostAndPort? ==> 1 <= r.port <= 65535 && |r.host| <= |host| && r.host == host[..|r.host|]
    ensures host != [] && host[0] == '[' && ']' !in host ==> r == HostPortError(NoClosingBracket)
    ensures var close := if host == [] then -1 else FirstIndex(host, ']');
            host != [] && host[0] == '[' && 0 <= close && close + 1 < |host| && host[close + 1] != ':' ==>
              r == HostPortError(JunkAfterBracket)
    ensures host != [] && host[0] == ':' ==> r == HostPortError(NoHost)
  {
    if host != [] && host[0] == '[' then
      var close := FirstIndex(host, ']');
      if close == -1 then HostPortError(NoClosingBracket)
      else if close + 1 < |host| then
        if host[close + 1] != ':' then HostPortError(JunkAfterBracket) else ExplicitPort(host, close + 1)
      else DefaultedPort(host, port, protocol)
    else
      var colon := FirstIndex(host, ':');
      if colon == -1 then DefaultedPort(host, port, protocol) else ExplicitPort(host, colon)
  }

  /** `substr(1, size() - 2)` on a host that starts with `[`. */
  function StripBrackets(host: seq<char>): (r: seq<char>)
    ensures host != [] && host[0] == '[' && |host| >= 2 ==> r == host[1..|host| - 1]
    ensures (host == [] || host[0] != '[') ==> r == host
  {
    if host != [] && host[0] == '[' then (if |host| >= 2 then host[1..|host| - 1] else []) else host
  }

  /**
   * The logon type after a parse: kept when it asks; otherwise anonymous
   * for no user or for `anonymous` with no or the default password, else normal.
   */
  function ResultLogon(logonType: LogonType, user: seq<char>, pass: seq<char>): (t: LogonType)
    ensures Asks(logonType) ==> t == logonType
    ensures !Asks(logonType) ==> (t == ANONYMOUS <==> user == [] || (user == "anonymous" && (pass == [] || pass == "anonymous@example.com")))
    ensures !Asks(logonType) && t != ANONYMOUS ==> t == NORMAL
  {
    if Asks(logonType) then logonType
    else if user == [] then ANONYMOUS
    else if user == "anonymous" then (if pass == [] || pass == "anonymous@example.com" then ANONYMOUS else NORMAL)
    else NORMAL
  }

  /**
   * What `ParseUrl` leaves: on failure the reason and the protocol field
   * as the call left it; on success the new fields and the path, if any.
   */
  datatype ParseResult =
    | Failed(error: UrlError, protocol: Protocol)
    | Parsed(protocol: Protocol, host: seq<char>, port: nat, user: seq<char>, pass: seq<char>, logonType: LogonType,
             path: Option<seq<char>>)

  /**
   * After the user part: the path from the first `/`, the port, the
   * trimmed host without its brackets, the logon type, and a protocol
   * inferred from the port if none was known. With `rejectEmpty` a host
   * that is empty once its brackets are gone is refused too.
   */
  function HostStage(cred: Credentials, port: nat, logonType: LogonType, protocol: Protocol, rejectEmpty: bool)
    : (r: ParseResult)
    ensures r.Failed? ==> r.protocol == protocol
    ensures r.Parsed? ==> 1 <= r.port <= 65535 && r.protocol != UNKNOWN && r.user == cred.user && r.pass == cred.pass
    ensures r.Parsed? ==> r.logonType == ResultLogon(logonType, r.user, r.pass)
    ensures r.Parsed? && protocol != UNKNOWN ==> r.protocol == protocol
    ensures r.Parsed? && rejectEmpty ==> r.host != []
    ensures r.Parsed? ==> (r.path == None <==> '/' !in cred.rest)
    ensures r.Parsed? && r.path.Some? ==>
              var k := |cred.rest| - |r.path.value|;
              0 <= k < |cred.rest| && r.path.value == cred.rest[k..] && cred.rest[k] == '/' && '/' !in cred.rest[..k]
  {
    var slash := FirstIndex(cred.rest, '/');
    var hostPort := if slash == -1 then cred.rest else cred.rest[..slash];
    var path := if slash == -1 then None else Some(cred.rest[slash..]);
    match SplitPort(hostPort, port, protocol)
    case HostPortError(e) => Failed(e, protocol)
    case HostAndPort(h, n) =>
      var trimmed := Trim(h);
      if trimmed == [] then Failed(NoHost, protocol)
      else
        var name := StripBrackets(trimmed);
        if rejectEmpty && name == [] then Failed(NoHost, protocol)
        else
          Parsed(if protocol == UNKNOWN then ProtocolFromPort(n, false) else protocol, name, n, cred.user, cred.pass,
                 ResultLogon(logonType, cred.user, cred.pass), path)
  }

  /** `ParseUrl` with a numeric port (0 for "none given"), from the logon type and protocol the server had. */
  function Parse(host: seq<char>, port: nat, user: seq<char>, pass: seq<char>, logonType: LogonType, protocol: Protocol,
                 rejectEmpty: bool): (r: ParseResult)
    ensures host == [] ==> r == Failed(NoHost, protocol)
    ensures r.Parsed? ==> 1 <= r.port <= 65535 && r.protocol != UNKNOWN
    ensures r.Parsed? ==> r.logonType == ResultLogon(logonType, r.user, r.pass)
    ensures r.Parsed? && !Asks(logonType) ==> r.user != [] && (r.logonType == ANONYMOUS || r.logonType == NORMAL)
    ensures r.Parsed? && '@' !in host && Trim(user) == [] && !Asks(logonType) ==>
              r.user == "anonymous" && r.pass == "anonymous@example.com" && r.logonType == ANONYMOUS
    ensures r.Parsed? && rejectEmpty ==> r.host != []
  {
    if host == [] then Failed(NoHost, protocol)
    else
      var scheme := SchemeStage(host, protocol);
      if !scheme.ok then Failed(BadProtocol, scheme.protocol)
      else
        assert '@' !in host ==> '@' !in scheme.rest by {
          if '@' !in host {
            SuffixLacks(host, scheme.rest, '@');
          }
        }
        AfterScheme(scheme.rest, port, user, pass, logonType, scheme.protocol, rejectEmpty)
  }

  /** A character missing from a text is missing from each of its suffixes. */
  lemma SuffixLacks(s: seq<char>, rest: seq<char>, c: char)
    requires |rest| <= |s| && rest == s[|s| - |rest|..] && c !in s
    ensures c !in rest
  {
  }

  /** What follows the scheme: the user stage, then the host stage. */
  function AfterScheme(rest: seq<char>, port: nat, user: seq<char>, pass: seq<char>, logonType: LogonType,
                       protocol: Protocol, rejectEmpty: bool): (r: ParseResult)
    ensures r.Parsed? ==> 1 <= r.port <= 65535 && r.protocol != UNKNOWN
    ensures r.Parsed? ==> r.logonType == ResultLogon(logonType, r.user, r.pass)
    ensures r.Parsed? && !Asks(logonType) ==> r.user != [] && (r.logonType == ANONYMOUS || r.logonType == NORMAL)
    ensures r.Parsed? && '@' !in rest && Trim(user) == [] && !Asks(logonType) ==>
              r.user == "anonymous" && r.pass == "anonymous@example.com" && r.logonType == ANONYMOUS
    ensures r.Parsed? && rejectEmpty ==> r.host != []
  {
    match UserStage(rest, user, pass, logonType)
    case None => Failed(BadUser, protocol)
    case Some(cred) => HostStage(cred, port, logonType, protocol, rejectEmpty)
  }

  /** `ParseUrl` as written: `[]` passes with an empty host. */
  function ParseUrlAsWritten(host: seq<char>, port: nat, user: seq<char>, pass: seq<char>, logonType: LogonType,
                             protocol: Protocol): (r: ParseResult)
    ensures host == [] ==> r == Failed(NoHost, protocol)
  {
    Parse(host, port, user, pass, logonType, protocol, false)
  }

  /** `ParseUrl` with the evident intent that no host is no host: a parsed host is never empty. */
  function ParseUrlValue(host: seq<char>, port: nat, user: seq<char>, pass: seq<char>, logonType: LogonType,
                         protocol: Protocol): (r: ParseResult)
    ensures host == [] ==> r == Failed(NoHost, protocol)
    ensures r.Parsed? ==> r.host != [] && 1 <= r.port <= 65535 && r.protocol != UNKNOWN
  {
    Parse(host, port, user, pass, logonType, protocol, true)
  }

  // ---------------------------------------------------------------------
  // What ParseUrl accepts

  /** Text without `/` names no scheme, and the protocol field stays. */
  lemma NoSlashNoScheme(host: seq<char>, protocol: Protocol)
    requires '/' !in host
    ensures SchemeStage(host, protocol) == Scheme(true, protocol, host)
  {
    SeparatorHasSlash(host);
  }

  lemma SeparatorHasSlash(host: seq<char>)
    ensures forall j :: OccursAt(host, "://", j) ==> '/' in host
  {
    forall j | OccursAt(host, "://", j)
      ensures '/' in host
    {
      assert host[j + 1] == host[j..j + 3][1];
    }
  }

  /** In `name://rest`, with no `/` in the name, the first `://` is the one after the name. */
  lemma SchemeSeparator(name: seq<char>, rest: seq<char>)
    requires '/' !in name
    ensures FindText(name + "://" + rest, "://") == |name|
    ensures (name + "://" + rest)[..|name|] == name && (name + "://" + rest)[|name| + 3..] == rest
  {
    var host := name + "://" + rest;
    assert OccursAt(host, "://", |name|) by {
      assert host[|name|..|name| + 3] == "://";
    }
    forall j | 0 <= j < |name|
      ensures !OccursAt(host, "://", j)
    {
      assert host[j + 1] != '/' by {
        if j + 1 < |name| {
          assert host[j + 1] == name[j + 1];
        }
      }
    }
  }

  /** `name://rest`, with no `/` in the name, selects the protocol the name stands for. */
  lemma SchemeSelects(name: seq<char>, rest: seq<char>, protocol: Protocol)
    requires '/' !in name
    ensures var p := ProtocolFromPrefix(SchemeName(name));
            SchemeStage(name + "://" + rest, protocol) == Scheme(p != UNKNOWN, p, rest)
  {
    SchemeSeparator(name, rest);
  }

  /** A name of lower-case letters reads as itself, and so does it behind `fz_`. */
  lemma SchemeNameOfLower(name: seq<char>)
    requires forall i :: 0 <= i < |name| ==> 'a' <= name[i] <= 'z'
    ensures SchemeName(name) == name && SchemeName("fz_" + name) == name
    ensures '/' !in name && '/' !in "fz_" + name
  {
    LowerOfLowercase(name);
    LowerOfLowercase("fz_" + name);
    assert |name| >= 3 ==> name[..3][2] != '_';
    assert ("fz_" + name)[..3] == "fz_" && ("fz_" + name)[3..] == name;
  }

  /** A known prefix before `://` selects its protocol. */
  lemma KnownScheme(p: Protocol, rest: seq<char>, protocol: Protocol)
    requires p != UNKNOWN && p != INSECURE_FTP
    ensures SchemeStage(Info(p).prefix + "://" + rest, protocol) == Scheme(true, p, rest)
  {
    var prefix := Info(p).prefix;
    SchemeNameOfLower(prefix);
    PrefixOfProtocol(p);
    SchemeSelects(prefix, rest, protocol);
  }

  /** So does it behind `fz_`. */
  lemma KnownFzScheme(p: Protocol, rest: seq<char>, protocol: Protocol)
    requires p != UNKNOWN && p != INSECURE_FTP
    ensures SchemeStage("fz_" + Info(p).prefix + "://" + rest, protocol) == Scheme(true, p, rest)
  {
    var prefix := Info(p).prefix;
    SchemeNameOfLower(prefix);
    PrefixOfProtocol(p);
    SchemeSelects("fz_" + prefix, rest, protocol);
  }

  /** An unknown scheme fails, and leaves the protocol field UNKNOWN. */
  lemma UnknownSchemeFails(name: seq<char>, rest: seq<char>, port: nat, user: seq<char>, pass: seq<char>,
                           logonType: LogonType, protocol: Protocol)
    requires '/' !in name && ProtocolFromPrefix(SchemeName(name)) == UNKNOWN
    ensures ParseUrlValue(name + "://" + rest, port, user, pass, logonType, protocol) == Failed(BadProtocol, UNKNOWN)
  {
    SchemeSelects(name, rest, protocol);
  }

  /** A host name the parser keeps as it is: no `@`, `/` or `:`, no leading `[`, no surrounding whitespace. */
  predicate PlainHost(h: seq<char>)
  {
    h != [] && '@' !in h && '/' !in h && ':' !in h && h[0] != '[' && !IsSpace(h[0]) && !IsSpace(h[|h| - 1])
  }

  /** An address that needs brackets: it holds a `:`, and no `]`, `/` or `@`. */
  predicate BracketedHost(h: seq<char>)
  {
    ':' in h && ']' !in h && '/' !in h && '@' !in h
  }

  /** The protocol a parse ends with: the known one, else the one the port suggests. */
  function Inferred(protocol: Protocol, port: nat): Protocol
  {
    if protocol == UNKNOWN then ProtocolFromPort(port, false) else protocol
  }

  /** The port a parse ends with when the text has none. */
  function PortOrDefault(port: nat, protocol: Protocol): nat
  {
    if port == 0 then DefaultPort(protocol) else port
  }

  /**
   * A plain host alone: kept as it is, with the given port or the
   * protocol's default, and the given (or anonymous) credentials.
   */
  lemma PlainHostParses(h: seq<char>, port: nat, user: seq<char>, pass: seq<char>, logonType: LogonType,
                        protocol: Protocol)
    requires PlainHost(h) && port <= 65535
    ensures var c := DefaultCredentials(h, user, pass, logonType);
            var n := PortOrDefault(port, protocol);
            ParseUrlValue(h, port, user, pass, logonType, protocol) ==
            Parsed(Inferred(protocol, n), h, n, c.user, c.pass, ResultLogon(logonType, c.user, c.pass), None)
  {
    NoSlashNoScheme(h, protocol);
  }

  /** Text with neither `/` nor `@` goes straight to the host stage with the given credentials. */
  lemma NoSchemeNoUser(text: seq<char>, port: nat, user: seq<char>, pass: seq<char>, logonType: LogonType,
                       protocol: Protocol)
    requires text != [] && '/' !in text && '@' !in text
    ensures ParseUrlValue(text, port, user, pass, logonType, protocol) ==
            HostStage(DefaultCredentials(text, user, pass, logonType), port, logonType, protocol, true)
  {
    NoSchemeNoUserParse(text, port, user, pass, logonType, protocol, true);
  }

  lemma NoSchemeNoUserParse(text: seq<char>, port: nat, user: seq<char>, pass: seq<char>, logonType: LogonType,
                            protocol: Protocol, rejectEmpty: bool)
    requires text != [] && '/' !in text && '@' !in text
    ensures Parse(text, port, user, pass, logonType, protocol, rejectEmpty) ==
            HostStage(DefaultCredentials(text, user, pass, logonType), port, logonType, protocol, rejectEmpty)
  {
    NoSlashNoScheme(text, protocol);
  }

  /** `host:port` with a plain host splits at the `:`. */
  lemma SplitPlainPort(h: seq<char>, n: nat, port: nat, protocol: Protocol)
    requires PlainHost(h) && 1 <= n <= 65535
    ensures SplitPort(h + ":" + Decimal(n), port, protocol) == HostAndPort(h, n)
  {
    var digits := Decimal(n);
    DecimalRoundTrip(n);
    var text := h + ":" + digits;
    FirstIndexAt(h, ':', digits);
    assert text[..|h|] == h && text[|h| + 1..] == digits;
  }

  lemma DecimalChars(n: nat)
    ensures '/' !in Decimal(n) && '@' !in Decimal(n) && ':' !in Decimal(n)
  {
    DecimalRoundTrip(n);
    var digits := Decimal(n);
    assert forall i :: 0 <= i < |digits| ==> '0' <= digits[i] <= '9';
  }

  /** A plain host with `:port`: the port from the text wins over the given one. */
  lemma PlainHostWithPort(h: seq<char>, n: nat, port: nat, user: seq<char>, pass: seq<char>, logonType: LogonType,
                          protocol: Protocol)
    requires PlainHost(h) && 1 <= n <= 65535
    ensures var text := h + ":" + Decimal(n);
            var c := DefaultCredentials(text, user, pass, logonType);
            ParseUrlValue(text, port, user, pass, logonType, protocol) ==
            Parsed(Inferred(protocol, n), h, n, c.user, c.pass, ResultLogon(logonType, c.user, c.pass), None)
  {
    var text := h + ":" + Decimal(n);
    DecimalChars(n);
    assert '/' !in text && '@' !in text;
    NoSchemeNoUser(text, port, user, pass, logonType, protocol);
    PlainPortStage(h, n, DefaultCredentials(text, user, pass, logonType), port, logonType, protocol);
  }

  lemma PlainPortStage(h: seq<char>, n: nat, c: Credentials, port: nat, logonType: LogonType, protocol: Protocol)
    requires PlainHost(h) && 1 <= n <= 65535 && c.rest == h + ":" + Decimal(n)
    ensures HostStage(c, port, logonType, protocol, true) ==
            Parsed(Inferred(protocol, n), h, n, c.user, c.pass, ResultLogon(logonType, c.user, c.pass), None)
  {
    DecimalChars(n);
    assert '/' !in c.rest;
    SplitPlainPort(h, n, port, protocol);
    HostStageParsed(c, port, logonType, protocol, h, n, h);
  }

  /** The host stage once the port is split off and the host needs no trimming. */
  lemma HostStageParsed(cred: Credentials, port: nat, logonType: LogonType, protocol: Protocol, hostText: seq<char>,
                        n: nat, name: seq<char>)
    requires '/' !in cred.rest && SplitPort(cred.rest, port, protocol) == HostAndPort(hostText, n)
    requires hostText != [] && !IsSpace(hostText[0]) && !IsSpace(hostText[|hostText| - 1])
    requires StripBrackets(hostText) == name && name != []
    ensures HostStage(cred, port, logonType, protocol, true) ==
            Parsed(Inferred(protocol, n), name, n, cred.user, cred.pass, ResultLogon(logonType, cred.user, cred.pass), None)
  {
  }

  /** A plain host followed by `/path`: the path is kept from its `/`, the host and port as without it. */
  lemma PlainHostWithPath(h: seq<char>, p: seq<char>, port: nat, user: seq<char>, pass: seq<char>,
                          logonType: LogonType, protocol: Protocol)
    requires PlainHost(h) && port <= 65535 && '@' !in p && ':' !in p
    ensures var text := h + "/" + p;
            var c := DefaultCredentials(text, user, pass, logonType);
            var n := PortOrDefault(port, protocol);
            ParseUrlValue(text, port, user, pass, logonType, protocol) ==
            Parsed(Inferred(protocol, n), h, n, c.user, c.pass, ResultLogon(logonType, c.user, c.pass), Some("/" + p))
  {
    var text := h + "/" + p;
    NoColonNoUser(text, port, user, pass, logonType, protocol);
    PathStage(h, p, DefaultCredentials(text, user, pass, logonType), port, logonType, protocol);
  }

  /** Text with neither `:` nor `@` names no scheme and no user: the host stage with the given credentials. */
  lemma NoColonNoUser(text: seq<char>, port: nat, user: seq<char>, pass: seq<char>, logonType: LogonType,
                      protocol: Protocol)
    requires text != [] && ':' !in text && '@' !in text
    ensures ParseUrlValue(text, port, user, pass, logonType, protocol) ==
            HostStage(DefaultCredentials(text, user, pass, logonType), port, logonType, protocol, true)
  {
    NoColonNoScheme(text, protocol);
    assert UserStage(text, user, pass, logonType) == Some(DefaultCredentials(text, user, pass, logonType));
  }

  /** Text without `:` holds no `://`, so it names no scheme. */
  lemma NoColonNoScheme(text: seq<char>, protocol: Protocol)
    requires ':' !in text
    ensures SchemeStage(text, protocol) == Scheme(true, protocol, text)
  {
    assert forall j :: OccursAt(text, "://", j) ==> text[j] == ':';
  }

  lemma PathStage(h: seq<char>, p: seq<char>, c: Credentials, port: nat, logonType: LogonType, protocol: Protocol)
    requires PlainHost(h) && port <= 65535 && c.rest == h + "/" + p
    ensures var n := PortOrDefault(port, protocol);
            HostStage(c, port, logonType, protocol, true) ==
            Parsed(Inferred(protocol, n), h, n, c.user, c.pass, ResultLogon(logonType, c.user, c.pass), Some("/" + p))
  {
    PathSplit(h, p, c.rest);
    PlainSplit(h, port, protocol);
  }

  /** `host/path` splits at its first `/`. */
  lemma PathSplit(h: seq<char>, p: seq<char>, text: seq<char>)
    requires '/' !in h && text == h + "/" + p
    ensures FirstIndex(text, '/') == |h| && text[..|h|] == h && text[|h|..] == "/" + p
  {
    assert text[|h|] == '/' && text[..|h|] == h;
  }

  /** A plain host has no port of its own, needs no trimming and has no brackets. */
  lemma PlainSplit(h: seq<char>, port: nat, protocol: Protocol)
    requires PlainHost(h) && port <= 65535
    ensures SplitPort(h, port, protocol) == HostAndPort(h, PortOrDefault(port, protocol))
    ensures Trim(h) == h && StripBrackets(h) == h
  {
  }


  /** Text that holds no `/` after the user part yields no path. */
  lemma NoSlashNoPath(text: seq<char>, port: nat, user: seq<char>, pass: seq<char>, logonType: LogonType,
                      protocol: Protocol)
    requires '/' !in text
    ensures ParseUrlValue(text, port, user, pass, logonType, protocol).Parsed? ==>
            ParseUrlValue(text, port, user, pass, logonType, protocol).path == None
  {
    if text != [] {
      NoSchemeParse(text, port, user, pass, logonType, protocol);
      match UserStage(text, user, pass, logonType)
      case None =>
      case Some(c) =>
    }
  }

  /** `[address]` has no port of its own. */
  lemma SplitBracketed(h: seq<char>, port: nat, protocol: Protocol)
    requires ']' !in h && port <= 65535
    ensures SplitPort("[" + h + "]", port, protocol) == HostAndPort("[" + h + "]", PortOrDefault(port, protocol))
    ensures StripBrackets("[" + h + "]") == h
  {
    FirstIndexAt("[" + h, ']', []);
    assert "[" + h + "]" == "[" + h + "]" + [];
  }

  /** `[address]:port` splits after the `]`. */
  lemma SplitBracketedPort(h: seq<char>, n: nat, port: nat, protocol: Protocol)
    requires ']' !in h && 1 <= n <= 65535
    ensures SplitPort("[" + h + "]:" + Decimal(n), port, protocol) == HostAndPort("[" + h + "]", n)
  {
    var digits := Decimal(n);
    DecimalRoundTrip(n);
    var text := "[" + h + "]:" + digits;
    FirstIndexAt("[" + h, ']', ":" + digits);
    assert text == "[" + h + "]" + (":" + digits);
    assert text[|h| + 2] == ':' && text[..|h| + 2] == "[" + h + "]" && text[|h| + 3..] == digits;
    assert ExplicitPort(text, |h| + 2) == HostAndPort("[" + h + "]", n);
    assert FirstIndex(text, ']') == |h| + 1;
  }

  lemma BracketedStage(h: seq<char>, c: Credentials, port: nat, logonType: LogonType, protocol: Protocol)
    requires BracketedHost(h) && port <= 65535 && c.rest == "[" + h + "]"
    ensures var n := PortOrDefault(port, protocol);
            HostStage(c, port, logonType, protocol, true) ==
            Parsed(Inferred(protocol, n), h, n, c.user, c.pass, ResultLogon(logonType, c.user, c.pass), None)
  {
    var t := "[" + h + "]";
    assert t[0] == '[' && t[|t| - 1] == ']' && '/' !in t;
    SplitBracketed(h, port, protocol);
    HostStageParsed(c, port, logonType, protocol, t, PortOrDefault(port, protocol), h);
  }

  /** `[address]` loses its brackets, keeps the given port or takes the default. */
  lemma BracketedHostParses(h: seq<char>, port: nat, user: seq<char>, pass: seq<char>, logonType: LogonType,
                            protocol: Protocol)
    requires BracketedHost(h) && port <= 65535
    ensures var text := "[" + h + "]";
            var c := DefaultCredentials(text, user, pass, logonType);
            var n := PortOrDefault(port, protocol);
            ParseUrlValue(text, port, user, pass, logonType, protocol) ==
            Parsed(Inferred(protocol, n), h, n, c.user, c.pass, ResultLogon(logonType, c.user, c.pass), None)
  {
    var text := "[" + h + "]";
    assert '/' !in text && '@' !in text;
    NoSchemeNoUser(text, port, user, pass, logonType, protocol);
    BracketedStage(h, DefaultCredentials(text, user, pass, logonType), port, logonType, protocol);
  }

  /** `[address]:port` loses its brackets and takes the port from the text. */
  lemma BracketedHostWithPort(h: seq<char>, n: nat, port: nat, user: seq<char>, pass: seq<char>, logonType: LogonType,
                              protocol: Protocol)
    requires BracketedHost(h) && 1 <= n <= 65535
    ensures var text := "[" + h + "]:" + Decimal(n);
            var c := DefaultCredentials(text, user, pass, logonType);
            ParseUrlValue(text, port, user, pass, logonType, protocol) ==
            Parsed(Inferred(protocol, n), h, n, c.user, c.pass, ResultLogon(logonType, c.user, c.pass), None)
  {
    var text := "[" + h + "]:" + Decimal(n);
    DecimalChars(n);
    assert '/' !in text && '@' !in text;
    NoSchemeNoUser(text, port, user, pass, logonType, protocol);
    BracketedPortStage(h, n, DefaultCredentials(text, user, pass, logonType), port, logonType, protocol);
  }

  lemma BracketedPortStage(h: seq<char>, n: nat, c: Credentials, port: nat, logonType: LogonType, protocol: Protocol)
    requires BracketedHost(h) && 1 <= n <= 65535 && c.rest == "[" + h + "]:" + Decimal(n)
    ensures HostStage(c, port, logonType, protocol, true) ==
            Parsed(Inferred(protocol, n), h, n, c.user, c.pass, ResultLogon(logonType, c.user, c.pass), None)
  {
    var t := "[" + h + "]";
    assert '/' !in c.rest by { DecimalChars(n); }
    assert SplitPort(c.rest, port, protocol) == HostAndPort(t, n) by { SplitBracketedPort(h, n, port, protocol); }
    assert t[0] == '[' && t[|t| - 1] == ']' && StripBrackets(t) == h by { SplitBracketed(h, 0, protocol); }
    HostStageParsed(c, port, logonType, protocol, t, n, h);
  }

  /**
   * The user part ends at the last `@` before the first `/` that follows
   * the first `@`: in `user@host/path` it is the `@` after `user`, however
   * many `@` the user part or the path hold.
   */
  lemma UserEndBeforePath(u: seq<char>, h: seq<char>, q: seq<char>)
    requires '/' !in u && '@' !in h && '/' !in h && (q == [] || q[0] == '/')
    ensures UserEnd(u + "@" + h + q) == |u|
  {
    var host := u + "@" + h + q;
    var limit := |u| + 1 + |h|;
    assert host[|u|] == '@';
    assert forall j :: 0 <= j < |u| ==> host[j] == u[j];
    assert forall j :: |u| < j < limit ==> host[j] == h[j - |u| - 1];
    assert q != [] ==> host[limit] == '/';
    assert UserLimit(host) == limit;
    assert UserEnd(host) == |u|;
  }

  /** Text without `/` has no scheme: the user stage and then the host stage. */
  lemma NoSchemeParse(text: seq<char>, port: nat, user: seq<char>, pass: seq<char>, logonType: LogonType,
                      protocol: Protocol)
    requires text != [] && '/' !in text
    ensures ParseUrlValue(text, port, user, pass, logonType, protocol) ==
            match UserStage(text, user, pass, logonType)
            case None => Failed(BadUser, protocol)
            case Some(c) => HostStage(c, port, logonType, protocol, true)
  {
    NoSlashNoScheme(text, protocol);
  }

  /**
   * Without `/`, with its last `@` at `at` and its first `:` at `k` before
   * that: the user is the trimmed text before `k`, the password the text
   * between `k` and `at`, the rest what follows `at`.
   */
  lemma UserInfoStage(text: seq<char>, k: nat, at: nat, user: seq<char>, pass: seq<char>, logonType: LogonType)
    requires k < at < |text| && text[k] == ':' && ':' !in text[..k] && Trim(text[..k]) != []
    requires text[at] == '@' && '@' !in text[at + 1..] && '/' !in text
    ensures UserStage(text, user, pass, logonType) == Some(Credentials(Trim(text[..k]), text[k + 1..at], text[at + 1..]))
  {
    UserInfoEnd(text, at);
    CredentialsAtColon(text, at, pass, k);
  }

  /** With the first `:` of the user part at `k`, the user is what precedes it and the password what follows. */
  lemma CredentialsAtColon(host: seq<char>, at: nat, pass: seq<char>, k: nat)
    requires k < at < |host| && host[k] == ':' && ':' !in host[..k]
    ensures CredentialsAt(host, at, pass) ==
            if Trim(host[..k]) == [] then None else Some(Credentials(Trim(host[..k]), host[k + 1..at], host[at + 1..]))
  {
    ColonAt(host, at, k);
  }

  lemma ColonAt(host: seq<char>, at: nat, k: nat)
    requires k < at < |host| && host[k] == ':' && ':' !in host[..k]
    ensures var info := host[..at];
            FirstIndex(info, ':') == k && info[..k] == host[..k] && info[k + 1..] == host[k + 1..at]
  {
    var info := host[..at];
    assert info == host[..k] + [':'] + host[k + 1..at];
    FirstIndexAt(host[..k], ':', host[k + 1..at]);
  }

  /** Without `/`, the user part ends at the last `@`. */
  lemma UserInfoEnd(text: seq<char>, at: nat)
    requires at < |text| && text[at] == '@' && '@' !in text[at + 1..] && '/' !in text
    ensures '@' in text && UserEnd(text) == at
  {
    forall j | at < j < |text|
      ensures text[j] != '@'
    {
      assert text[j] == text[at + 1..][j - at - 1];
    }
    assert UserLimit(text) == |text|;
  }

  /**
   * `user:password@host` without `/`: the user part splits at its first
   * `:` (at `k`), the password runs to the last `@` (at `at`) and may hold
   * `:` and `@`, and the host after it is kept as it is.
   */
  lemma UserInfoParses(text: seq<char>, k: nat, at: nat, port: nat, user: seq<char>, pass: seq<char>,
                       logonType: LogonType, protocol: Protocol)
    requires k < at < |text| && text[k] == ':' && ':' !in text[..k] && Trim(text[..k]) != []
    requires text[at] == '@' && PlainHost(text[at + 1..]) && '/' !in text && port <= 65535
    ensures var n := PortOrDefault(port, protocol);
            var u := Trim(text[..k]);
            var pw := text[k + 1..at];
            ParseUrlValue(text, port, user, pass, logonType, protocol) ==
            Parsed(Inferred(protocol, n), text[at + 1..], n, u, pw, ResultLogon(logonType, u, pw), None)
  {
    NoSchemeParse(text, port, user, pass, logonType, protocol);
    UserInfoStage(text, k, at, user, pass, logonType);
    PlainHostStage(text[at + 1..], Credentials(Trim(text[..k]), text[k + 1..at], text[at + 1..]), port, logonType,
                   protocol);
  }

  lemma PlainHostStage(h: seq<char>, c: Credentials, port: nat, logonType: LogonType, protocol: Protocol)
    requires PlainHost(h) && port <= 65535 && c.rest == h
    ensures var n := PortOrDefault(port, protocol);
            HostStage(c, port, logonType, protocol, true) ==
            Parsed(Inferred(protocol, n), h, n, c.user, c.pass, ResultLogon(logonType, c.user, c.pass), None)
  {
  }

  /** As written, `[]` parses: the brackets are stripped and the host is left empty. */
  lemma EmptyBracketsAccepted(user: seq<char>, pass: seq<char>, logonType: LogonType, protocol: Protocol)
    requires protocol != UNKNOWN
    ensures var r := ParseUrlAsWritten("[]", 0, user, pass, logonType, protocol);
            r.Parsed? && r.host == [] && r.port == DefaultPort(protocol)
  {
    var text := "[]";
    assert '/' !in text && '@' !in text;
    NoSchemeNoUserParse(text, 0, user, pass, logonType, protocol, false);
    EmptyBracketsStage(DefaultCredentials(text, user, pass, logonType), logonType, protocol);
  }

  lemma EmptyBracketsSplit(protocol: Protocol)
    ensures SplitPort("[]", 0, protocol) == HostAndPort("[]", DefaultPort(protocol))
    ensures Trim("[]") == "[]" && StripBrackets("[]") == []
  {
    assert FirstIndex("[]", ']') == 1;
  }

  lemma EmptyBracketsStage(c: Credentials, logonType: LogonType, protocol: Protocol)
    requires c.rest == "[]" && protocol != UNKNOWN
    ensures var r := HostStage(c, 0, logonType, protocol, false);
            r.Parsed? && r.host == [] && r.port == DefaultPort(protocol)
  {
    assert FirstIndex(c.rest, '/') == -1;
    EmptyBracketsSplit(protocol);
  }

  /** With the intended check, `[]` is refused for want of a host. */
  lemma EmptyBracketsRefused(user: seq<char>, pass: seq<char>, logonType: LogonType, protocol: Protocol)
    ensures ParseUrlValue("[]", 0, user, pass, logonType, protocol) == Failed(NoHost, protocol)
  {
    var text := "[]";
    assert '/' !in text && '@' !in text;
    NoSchemeNoUser(text, 0, user, pass, logonType, protocol);
    EmptyBracketsNoHost(DefaultCredentials(text, user, pass, logonType), logonType, protocol);
  }

  lemma EmptyBracketsNoHost(c: Credentials, logonType: LogonType, protocol: Protocol)
    requires c.rest == "[]"
    ensures HostStage(c, 0, logonType, protocol, true) == Failed(NoHost, protocol)
  {
    assert '/' !in c.rest;
    assert FirstIndex(c.rest, ']') == 1;
  }

  // ---------------------------------------------------------------------
  // What ParseUrl refuses

  /** `[address` with no `]` fails for want of the closing bracket. */
  lemma UnclosedBracketFails(h: seq<char>, port: nat, user: seq<char>, pass: seq<char>, logonType: LogonType,
                             protocol: Protocol)
    requires ']' !in h && '/' !in h && '@' !in h
    ensures ParseUrlValue("[" + h, port, user, pass, logonType, protocol) == Failed(NoClosingBracket, protocol)
  {
    var text := "[" + h;
    assert '/' !in text && '@' !in text && ']' !in text;
    NoSchemeNoUser(text, port, user, pass, logonType, protocol);
  }

  /** `[address]` followed by anything but `:` fails: there is junk after the bracket. */
  lemma JunkAfterBracketFails(h: seq<char>, t: seq<char>, port: nat, user: seq<char>, pass: seq<char>,
                              logonType: LogonType, protocol: Protocol)
    requires ']' !in h && '/' !in h && '@' !in h && '/' !in t && '@' !in t && t != [] && t[0] != ':'
    ensures ParseUrlValue("[" + h + "]" + t, port, user, pass, logonType, protocol) == Failed(JunkAfterBracket, protocol)
  {
    var text := "[" + h + "]" + t;
    assert '/' !in text && '@' !in text;
    NoSchemeNoUser(text, port, user, pass, logonType, protocol);
    JunkStage(h, t, DefaultCredentials(text, user, pass, logonType), port, logonType, protocol);
  }

  lemma JunkStage(h: seq<char>, t: seq<char>, c: Credentials, port: nat, logonType: LogonType, protocol: Protocol)
    requires ']' !in h && '/' !in h && '/' !in t && t != [] && t[0] != ':' && c.rest == "[" + h + "]" + t
    ensures HostStage(c, port, logonType, protocol, true) == Failed(JunkAfterBracket, protocol)
  {
    assert '/' !in c.rest;
    FirstIndexAt("[" + h, ']', t);
    assert c.rest == "[" + h + [']'] + t;
    assert c.rest[|h| + 2] == t[0];
  }

  /** A host text that starts with the port separator has no host. */
  lemma LeadingColonFails(p: seq<char>, port: nat, user: seq<char>, pass: seq<char>, logonType: LogonType,
                          protocol: Protocol)
    requires '/' !in p && '@' !in p
    ensures ParseUrlValue(":" + p, port, user, pass, logonType, protocol) == Failed(NoHost, protocol)
  {
    var text := ":" + p;
    assert '/' !in text && '@' !in text;
    NoSchemeNoUser(text, port, user, pass, logonType, protocol);
  }

  /** `user@host` whose user is blank fails with a bad user. */
  lemma BlankUserFails(u: seq<char>, h: seq<char>, port: nat, user: seq<char>, pass: seq<char>, logonType: LogonType,
                       protocol: Protocol)
    requires ':' !in u && Trim(u) == [] && '/' !in u && '/' !in h && '@' !in h
    ensures ParseUrlValue(u + "@" + h, port, user, pass, logonType, protocol) == Failed(BadUser, protocol)
  {
    var text := u + "@" + h;
    assert text[|u|] == '@' && text[..|u|] == u && text[|u| + 1..] == h && '/' !in text;
    NoSchemeParse(text, port, user, pass, logonType, protocol);
    UserInfoEnd(text, |u|);
  }

  /** `user:password@host` whose user is blank fails with a bad user, whatever the password. */
  lemma BlankUserWithPasswordFails(u: seq<char>, pw: seq<char>, h: seq<char>, port: nat, user: seq<char>,
                                   pass: seq<char>, logonType: LogonType, protocol: Protocol)
    requires ':' !in u && Trim(u) == [] && '/' !in u && '/' !in pw && '/' !in h && '@' !in h
    ensures ParseUrlValue(u + ":" + pw + "@" + h, port, user, pass, logonType, protocol) == Failed(BadUser, protocol)
  {
    var text := u + ":" + pw + "@" + h;
    var at := |u| + 1 + |pw|;
    assert text[at] == '@' && text[at + 1..] == h && '/' !in text;
    assert text[|u|] == ':' && text[..|u|] == u;
    NoSchemeParse(text, port, user, pass, logonType, protocol);
    UserInfoEnd(text, at);
    CredentialsAtColon(text, at, pass, |u|);
  }
}
