/**
 * A `CServer`'s fields as a value: the equality and ordering the site
 * list relies on, `EqualsNoPass`, the getters that hide credentials of
 * the wrong logon type, and `Format`.
 */
module ServerData {
  import opened Common
  import opened Text
  import opened Server

  /** The fields of a `CServer`. Server type and passive mode are the ordinals of their enumerations. */
  datatype Data = Data(protocol: Protocol, serverType: nat, host: seq<char>, port: nat, logonType: LogonType,
                       user: seq<char>, pass: seq<char>, account: seq<char>, keyFile: seq<char>,
                       timezoneOffset: int, pasvMode: nat, maxConnections: int, encodingType: Encoding,
                       customEncoding: seq<char>, postLoginCommands: seq<seq<char>>, bypassProxy: bool,
                       name: seq<char>)

  // ---------------------------------------------------------------------
  // String comparison

  /** `compare`: -1, 0 or 1 as `a` sorts before, with or after `b`, character by character. */
  function Compare(a: seq<char>, b: seq<char>): (r: int)
    ensures -1 <= r <= 1
    ensures r == 0 <==> a == b
    decreases |a|
  {
    if a == [] then (if b == [] then 0 else -1)
    else if b == [] then 1
    else if a[0] < b[0] then -1
    else if a[0] > b[0] then 1
    else
      assert a == [a[0]] + a[1..] && b == [b[0]] + b[1..];
      Compare(a[1..], b[1..])
  }

  /** Swapping the operands flips the sign. */
  lemma {:induction false} CompareAntisymmetric(a: seq<char>, b: seq<char>)
    ensures Compare(b, a) == -Compare(a, b)
    decreases |a|
  {
    if a != [] && b != [] && a[0] == b[0] {
      CompareAntisymmetric(a[1..], b[1..]);
    }
  }

  /** Sorting before is transitive. */
  lemma {:induction false} CompareTransitive(a: seq<char>, b: seq<char>, c: seq<char>)
    requires Compare(a, b) < 0 && Compare(b, c) < 0
    ensures Compare(a, c) < 0
    decreases |a|
  {
    if a != [] && b != [] && c != [] && a[0] == b[0] && b[0] == c[0] {
      CompareTransitive(a[1..], b[1..], c[1..]);
    }
  }

  // ---------------------------------------------------------------------
  // Equality and ordering

  /**
   * `operator==`: every field but the connection limit and the name; the
   * user only without anonymous logon, the password for normal and account
   * logon, the account for account logon, the key file for key logon, the
   * custom encoding only when it is in use.
   */
  predicate Equal(a: Data, b: Data)
  {
    a.protocol == b.protocol && a.serverType == b.serverType && a.host == b.host && a.port == b.port &&
    a.logonType == b.logonType &&
    (a.logonType != ANONYMOUS ==>
       a.user == b.user &&
       (a.logonType == NORMAL ==> a.pass == b.pass) &&
       (a.logonType == ACCOUNT ==> a.pass == b.pass && a.account == b.account) &&
       (a.logonType == KEY ==> a.keyFile == b.keyFile)) &&
    a.timezoneOffset == b.timezoneOffset && a.pasvMode == b.pasvMode && a.encodingType == b.encodingType &&
    (a.encodingType == ENCODING_CUSTOM ==> a.customEncoding == b.customEncoding) &&
    a.postLoginCommands == b.postLoginCommands && a.bypassProxy == b.bypassProxy
  }

  /**
   * `operator<`: the first field that differs decides, in the order
   * protocol, type, host, port, logon type, user, password, account,
   * timezone offset, passive mode, encoding type, custom encoding, proxy
   * bypass; credentials and the custom encoding only where `==` looks at
   * them. The key file, the post-login commands, the connection limit and
   * the name are never compared.
   */
  predicate Less(a: Data, b: Data)
  {
    if a.protocol != b.protocol then ProtocolRank(a.protocol) < ProtocolRank(b.protocol)
    else if a.serverType != b.serverType then a.serverType < b.serverType
    else if Compare(a.host, b.host) != 0 then Compare(a.host, b.host) < 0
    else if a.port != b.port then a.port < b.port
    else if a.logonType != b.logonType then LogonRank(a.logonType) < LogonRank(b.logonType)
    else if a.logonType != ANONYMOUS && Compare(a.user, b.user) != 0 then Compare(a.user, b.user) < 0
    else if (a.logonType == NORMAL || a.logonType == ACCOUNT) && Compare(a.pass, b.pass) != 0 then
      Compare(a.pass, b.pass) < 0
    else if a.logonType == ACCOUNT && Compare(a.account, b.account) != 0 then Compare(a.account, b.account) < 0
    else if a.timezoneOffset != b.timezoneOffset then a.timezoneOffset < b.timezoneOffset
    else if a.pasvMode != b.pasvMode then a.pasvMode < b.pasvMode
    else if a.encodingType != b.encodingType then EncodingRank(a.encodingType) < EncodingRank(b.encodingType)
    else if a.encodingType == ENCODING_CUSTOM && Compare(a.customEncoding, b.customEncoding) != 0 then
      Compare(a.customEncoding, b.customEncoding) < 0
    else if a.bypassProxy != b.bypassProxy then !a.bypassProxy
    else false
  }

  /**
   * `EqualsNoPass`: like `==` but blind to the password and the key file,
   * and to the logon type except for being anonymous or account logon.
   */
  predicate EqualsNoPass(a: Data, b: Data)
  {
    a.protocol == b.protocol && a.serverType == b.serverType && a.host == b.host && a.port == b.port &&
    (a.logonType == ANONYMOUS) == (b.logonType == ANONYMOUS) &&
    (a.logonType == ACCOUNT) == (b.logonType == ACCOUNT) &&
    (a.logonType != ANONYMOUS ==> a.user == b.user && (a.logonType == ACCOUNT ==> a.account == b.account)) &&
    a.timezoneOffset == b.timezoneOffset && a.pasvMode == b.pasvMode && a.encodingType == b.encodingType &&
    (a.encodingType == ENCODING_CUSTOM ==> a.customEncoding == b.customEncoding) &&
    a.postLoginCommands == b.postLoginCommands && a.bypassProxy == b.bypassProxy
  }

  /** `==` is an equivalence. */
  lemma EqualEquivalence(a: Data, b: Data, c: Data)
    ensures Equal(a, a)
    ensures Equal(a, b) ==> Equal(b, a)
    ensures Equal(a, b) && Equal(b, c) ==> Equal(a, c)
  {
  }

  /** `==` never looks at the connection limit or the name, nor at any credential of an anonymous logon. */
  lemma EqualIgnores(a: Data, m: int, n: seq<char>, u: seq<char>, p: seq<char>, acct: seq<char>, k: seq<char>)
    ensures Equal(a, a.(maxConnections := m, name := n))
    ensures a.logonType == ANONYMOUS ==> Equal(a, a.(user := u, pass := p, account := acct, keyFile := k))
  {
  }

  /** No server sorts before itself. */
  lemma LessIrreflexive(a: Data)
    ensures !Less(a, a)
  {
  }

  /** Two servers never sort before each other. */
  lemma LessAsymmetric(a: Data, b: Data)
    ensures Less(a, b) ==> !Less(b, a)
  {
    CompareAntisymmetric(a.host, b.host);
    CompareAntisymmetric(a.user, b.user);
    CompareAntisymmetric(a.pass, b.pass);
    CompareAntisymmetric(a.account, b.account);
    CompareAntisymmetric(a.customEncoding, b.customEncoding);
  }

  /** Equal servers are unordered. */
  lemma EqualNotLess(a: Data, b: Data)
    requires Equal(a, b)
    ensures !Less(a, b) && !Less(b, a)
  {
  }

  /** The ordering reads neither the key file nor the post-login commands, on either side. */
  lemma LessIgnores(a: Data, b: Data, k: seq<char>, cmds: seq<seq<char>>)
    ensures Less(a.(keyFile := k, postLoginCommands := cmds), b) == Less(a, b)
    ensures Less(b, a.(keyFile := k, postLoginCommands := cmds)) == Less(b, a)
  {
  }

  /**
   * So two key-file logons that differ only in the key file are unequal,
   * yet neither sorts before the other.
   */
  lemma KeyFileUnordered(a: Data, k: seq<char>)
    requires a.logonType == KEY && k != a.keyFile
    ensures var b := a.(keyFile := k);
            !Equal(a, b) && !Less(a, b) && !Less(b, a)
  {
    LessIrreflexive(a);
    LessIgnores(a, a, k, a.postLoginCommands);
  }

  /** Equal servers are equal without their passwords too. */
  lemma EqualImpliesEqualsNoPass(a: Data, b: Data)
    requires Equal(a, b)
    ensures EqualsNoPass(a, b)
  {
  }

  /** `EqualsNoPass` is blind to the password, and tells a normal logon from an asking one only by user. */
  lemma EqualsNoPassIgnoresPass(a: Data, p: seq<char>, t: LogonType)
    requires a.logonType != ANONYMOUS && a.logonType != ACCOUNT && t != ANONYMOUS && t != ACCOUNT
    ensures EqualsNoPass(a, a.(pass := p))
    ensures EqualsNoPass(a, a.(logonType := t, pass := p))
    ensures t != a.logonType ==> !Equal(a, a.(logonType := t))
  {
  }

  // ---------------------------------------------------------------------
  // Getters

  /** `GetUser`: an anonymous logon reports the user `anonymous`. */
  function GetUser(d: Data): (r: seq<char>)
    ensures d.logonType == ANONYMOUS ==> r == "anonymous"
    ensures d.logonType != ANONYMOUS ==> r == d.user
  {
    if d.logonType == ANONYMOUS then "anonymous" else d.user
  }

  /** `GetPass`: an anonymous logon reports the password `anon@localhost`. */
  function GetPass(d: Data): (r: seq<char>)
    ensures d.logonType == ANONYMOUS ==> r == "anon@localhost"
    ensures d.logonType != ANONYMOUS ==> r == d.pass
  {
    if d.logonType == ANONYMOUS then "anon@localhost" else d.pass
  }

  /** `GetAccount`: empty unless the logon type is account. */
  function GetAccount(d: Data): (r: seq<char>)
    ensures d.logonType != ACCOUNT ==> r == []
    ensures d.logonType == ACCOUNT ==> r == d.account
  {
    if d.logonType != ACCOUNT then [] else d.account
  }

  /** `GetKeyFile`: empty unless the logon type is key file. */
  function GetKeyFile(d: Data): (r: seq<char>)
    ensures d.logonType != KEY ==> r == []
    ensures d.logonType == KEY ==> r == d.keyFile
  {
    if d.logonType != KEY then [] else d.keyFile
  }

  // ---------------------------------------------------------------------
  // Format

  datatype ServerFormat = HostOnly | WithOptionalPort | WithUserAndOptionalPort | Url | UrlWithPassword

  /** The host, in brackets when it holds a `:`. */
  function BracketedName(d: Data): (r: seq<char>)
    ensures ':' in d.host ==> r == "[" + d.host + "]"
    ensures ':' !in d.host ==> r == d.host
  {
    if ':' in d.host then "[" + d.host + "]" else d.host
  }

  /** The host and, unless it is the protocol's default, `:port`. */
  function HostWithPort(d: Data): (r: seq<char>)
    ensures d.port == DefaultPort(d.protocol) ==> r == BracketedName(d)
    ensures d.port != DefaultPort(d.protocol) ==> r == BracketedName(d) + ":" + Decimal(d.port)
  {
    if d.port != DefaultPort(d.protocol) then BracketedName(d) + ":" + Decimal(d.port) else BracketedName(d)
  }

  /** What goes before the user and host: `prefix://`, unless the protocol has none or the format may omit it. */
  function SchemePart(d: Data, f: ServerFormat): (r: seq<char>)
    ensures r == [] || r == Info(d.protocol).prefix + "://"
    ensures (f == Url || f == UrlWithPassword) && d.protocol != UNKNOWN ==> r == Info(d.protocol).prefix + "://"
  {
    var info := Info(d.protocol);
    if f == WithUserAndOptionalPort && !info.alwaysShowPrefix && d.port == info.defaultPort then []
    else if info.prefix != [] then info.prefix + "://"
    else []
  }

  /**
   * The user part and the host of the formats that show a user: nothing
   * for anonymous logon or an empty user; with `UrlWithPassword` the
   * escaped user and password, or nothing without a password; otherwise
   * the user. `reencode` selects how that last user appears: `true` is the
   * code as written (escaped once more), `false` the user as it stands.
   */
  function UserAndHost(d: Data, f: ServerFormat, encode: seq<char> -> seq<char>, reencode: bool): seq<char>
  {
    var server := HostWithPort(d);
    if d.logonType == ANONYMOUS then server
    else
      var user := if f == Url || f == UrlWithPassword then encode(GetUser(d)) else GetUser(d);
      if user == [] then server
      else if f == UrlWithPassword then
        (if GetPass(d) == [] then server else user + ":" + encode(GetPass(d)) + "@" + server)
      else (if reencode then encode(user) else user) + "@" + server
  }

  /** `Format`, with `url_encode` as the parameter `encode`. */
  function FormatWith(d: Data, f: ServerFormat, encode: seq<char> -> seq<char>, reencode: bool): seq<char>
  {
    if f == HostOnly then BracketedName(d)
    else if f == WithOptionalPort then HostWithPort(d)
    else SchemePart(d, f) + UserAndHost(d, f, encode, reencode)
  }

  /** `Format` as written. */
  function FormatAsWritten(d: Data, f: ServerFormat, encode: seq<char> -> seq<char>): seq<char>
  {
    FormatWith(d, f, encode, true)
  }

  /**
   * `Format` as its comment means it: the user is escaped once for the
   * two URL formats and not at all otherwise.
   */
  function FormatValue(d: Data, f: ServerFormat, encode: seq<char> -> seq<char>): seq<char>
  {
    FormatWith(d, f, encode, false)
  }

  /**
   * With the intended escaping, `Url` shows the user escaped once and the
   * user-and-port format shows the user as it is; the scheme and the host
   * with its optional port surround them.
   */
  lemma FormatShowsUser(d: Data, encode: seq<char> -> seq<char>)
    requires d.logonType != ANONYMOUS
    ensures encode(d.user) != [] ==>
              FormatValue(d, Url, encode) == SchemePart(d, Url) + (encode(d.user) + "@" + HostWithPort(d))
    ensures d.user != [] ==>
              FormatValue(d, WithUserAndOptionalPort, encode) ==
              SchemePart(d, WithUserAndOptionalPort) + (d.user + "@" + HostWithPort(d))
  {
  }

  /** Every protocol but `UNKNOWN` has a prefix, and `Url` always puts it in front. */
  lemma UrlHasScheme(d: Data, encode: seq<char> -> seq<char>)
    requires d.protocol != UNKNOWN
    ensures var r := FormatValue(d, Url, encode);
            var prefix := Info(d.protocol).prefix + "://";
            |r| >= |prefix| && r[..|prefix|] == prefix
  {
    var prefix := Info(d.protocol).prefix + "://";
    var r := FormatValue(d, Url, encode);
    assert r == prefix + UserAndHost(d, Url, encode, false);
  }

  /**
   * As written, `Url` escapes the user twice (`a b` becomes `a%2520b`
   * under percent-encoding), so it differs from the intended text whenever
   * escaping the escaped user changes it.
   */
  lemma UrlUserEncodedTwice(d: Data, encode: seq<char> -> seq<char>)
    requires d.logonType != ANONYMOUS && encode(d.user) != [] && encode(encode(d.user)) != encode(d.user)
    ensures FormatAsWritten(d, Url, encode) == SchemePart(d, Url) + (encode(encode(d.user)) + "@" + HostWithPort(d))
    ensures FormatAsWritten(d, Url, encode) != FormatValue(d, Url, encode)
  {
    var once, twice := encode(d.user), encode(encode(d.user));
    var tail := "@" + HostWithPort(d);
    assert UserAndHost(d, Url, encode, true) == twice + tail;
    assert UserAndHost(d, Url, encode, false) == once + tail;
    DropCommonSuffix(twice, once, tail);
    DropCommonPrefix(SchemePart(d, Url), twice + tail, once + tail);
  }

  lemma DropCommonPrefix(p: seq<char>, x: seq<char>, y: seq<char>)
    requires x != y
    ensures p + x != p + y
  {
    assert (p + x)[|p|..] == x;
    assert (p + y)[|p|..] == y;
  }

  lemma DropCommonSuffix(x: seq<char>, y: seq<char>, t: seq<char>)
    requires x != y
    ensures x + t != y + t
  {
    assert (x + t)[..|x|] == x;
    assert |y| == |x| ==> (y + t)[..|x|] == y;
  }

  /**
   * As written, the user is escaped even for the non-URL format that
   * shows the user, against the comment that only URLs are escaped.
   */
  lemma UserFormatEncoded(d: Data, encode: seq<char> -> seq<char>)
    requires d.logonType != ANONYMOUS && d.user != []
    ensures FormatAsWritten(d, WithUserAndOptionalPort, encode) ==
            SchemePart(d, WithUserAndOptionalPort) + (encode(d.user) + "@" + HostWithPort(d))
  {
  }

  /**
   * A host without `:` shows as it is, one with `:` in brackets, and
   * `ParseUrl` strips those brackets again: formatting with the optional
   * port and parsing the text back gives the host, the port and the
   * protocol.
   */
  lemma FormatParseRoundTrip(d: Data, encode: seq<char> -> seq<char>, user: seq<char>, pass: seq<char>,
                             logonType: LogonType)
    requires PlainHost(d.host) || BracketedHost(d.host)
    requires 1 <= d.port <= 65535 && d.protocol != UNKNOWN
    ensures var r := ParseUrlValue(FormatValue(d, WithOptionalPort, encode), 0, user, pass, logonType, d.protocol);
            r.Parsed? && r.host == d.host && r.port == d.port && r.protocol == d.protocol
  {
    assert FormatValue(d, WithOptionalPort, encode) == HostWithPort(d);
    if PlainHost(d.host) {
      PlainRoundTrip(d, user, pass, logonType);
    } else {
      BracketedRoundTrip(d, user, pass, logonType);
    }
  }

  lemma PlainRoundTrip(d: Data, user: seq<char>, pass: seq<char>, logonType: LogonType)
    requires PlainHost(d.host) && 1 <= d.port <= 65535 && d.protocol != UNKNOWN
    ensures var r := ParseUrlValue(HostWithPort(d), 0, user, pass, logonType, d.protocol);
            r.Parsed? && r.host == d.host && r.port == d.port && r.protocol == d.protocol
  {
    if d.port == DefaultPort(d.protocol) {
      PlainHostParses(d.host, 0, user, pass, logonType, d.protocol);
    } else {
      PlainHostWithPort(d.host, d.port, 0, user, pass, logonType, d.protocol);
    }
  }

  lemma BracketedRoundTrip(d: Data, user: seq<char>, pass: seq<char>, logonType: LogonType)
    requires BracketedHost(d.host) && 1 <= d.port <= 65535 && d.protocol != UNKNOWN
    ensures var r := ParseUrlValue(HostWithPort(d), 0, user, pass, logonType, d.protocol);
            r.Parsed? && r.host == d.host && r.port == d.port && r.protocol == d.protocol
  {
    assert ':' in d.host;
    if d.port == DefaultPort(d.protocol) {
      assert HostWithPort(d) == "[" + d.host + "]";
      BracketedDefaultRoundTrip(d, user, pass, logonType);
    } else {
      assert HostWithPort(d) == "[" + d.host + "]" + ":" + Decimal(d.port);
      assert "[" + d.host + "]" + ":" + Decimal(d.port) == "[" + d.host + "]:" + Decimal(d.port);
      BracketedPortRoundTrip(d, user, pass, logonType);
    }
  }

  lemma BracketedDefaultRoundTrip(d: Data, user: seq<char>, pass: seq<char>, logonType: LogonType)
    requires BracketedHost(d.host) && d.port == DefaultPort(d.protocol) && d.protocol != UNKNOWN
    ensures var r := ParseUrlValue("[" + d.host + "]", 0, user, pass, logonType, d.protocol);
            r.Parsed? && r.host == d.host && r.port == d.port && r.protocol == d.protocol
  {
    BracketedHostParses(d.host, 0, user, pass, logonType, d.protocol);
  }

  lemma BracketedPortRoundTrip(d: Data, user: seq<char>, pass: seq<char>, logonType: LogonType)
    requires BracketedHost(d.host) && 1 <= d.port <= 65535 && d.port != DefaultPort(d.protocol) && d.protocol != UNKNOWN
    ensures var r := ParseUrlValue("[" + d.host + "]:" + Decimal(d.port), 0, user, pass, logonType, d.protocol);
            r.Parsed? && r.host == d.host && r.port == d.port && r.protocol == d.protocol
  {
    BracketedHostWithPort(d.host, d.port, 0, user, pass, logonType, d.protocol);
  }

  // ---------------------------------------------------------------------
  // The server object

  /** The fields `Initialize` gives; the key file, commands and name start empty. */
  function Defaults(): Data
  {
    Data(UNKNOWN, 0, [], 21, ANONYMOUS, [], [], [], [], 0, 0, 0, ENCODING_AUTO, [], [], false, [])
  }

  /** A timezone offset the setter accepts: at most a day either way. */
  predicate ValidOffset(minutes: int)
  {
    -24 * 60 <= minutes <= 24 * 60
  }

  /** `CServer`: the fields, updated in place by the setters and by `ParseUrl`. */
  class ServerEntry {
    var protocol: Protocol
    var serverType: nat
    var host: seq<char>
    var port: nat
    var logonType: LogonType
    var user: seq<char>
    var pass: seq<char>
    var account: seq<char>
    var keyFile: seq<char>
    var timezoneOffset: int
    var pasvMode: nat
    var maxConnections: int
    var encodingType: Encoding
    var customEncoding: seq<char>
    var postLoginCommands: seq<seq<char>>
    var bypassProxy: bool
    var name: seq<char>

    /** All fields as one value. */
    function Fields(): (d: Data)
      reads this
    {
      Data(protocol, serverType, host, port, logonType, user, pass, account, keyFile, timezoneOffset, pasvMode,
           maxConnections, encodingType, customEncoding, postLoginCommands, bypassProxy, name)
    }

    /**
     * What the setters keep: the offset within a day, and a custom
     * encoding only with a name.
     */
    predicate Valid()
      reads this
    {
      ValidOffset(timezoneOffset) && (encodingType == ENCODING_CUSTOM ==> customEncoding != [])
    }

    /** The default constructor. */
    constructor ()
      ensures Fields() == Defaults() && Valid()
    {
      protocol, serverType, host, port, logonType := UNKNOWN, 0, [], 21, ANONYMOUS;
      user, pass, account, keyFile := [], [], [], [];
      timezoneOffset, pasvMode, maxConnections := 0, 0, 0;
      encodingType, customEncoding, postLoginCommands, bypassProxy, name := ENCODING_AUTO, [], [], false, [];
    }

    /** The constructor with credentials: the defaults, then normal logon with the given fields. */
    constructor WithCredentials(p: Protocol, t: nat, h: seq<char>, n: nat, u: seq<char>, pw: seq<char>, a: seq<char>)
      ensures Fields() == Defaults().(protocol := p, serverType := t, host := h, port := n, logonType := NORMAL,
                                      user := u, pass := pw, account := a)
      ensures Valid()
    {
      protocol, serverType, host, port, logonType := p, t, h, n, NORMAL;
      user, pass, account, keyFile := u, pw, a, [];
      timezoneOffset, pasvMode, maxConnections := 0, 0, 0;
      encodingType, customEncoding, postLoginCommands, bypassProxy, name := ENCODING_AUTO, [], [], false, [];
    }

    /** The constructor with a host: the defaults with the given protocol, type, host and port. */
    constructor WithHost(p: Protocol, t: nat, h: seq<char>, n: nat)
      ensures Fields() == Defaults().(protocol := p, serverType := t, host := h, port := n)
      ensures Valid()
    {
      protocol, serverType, host, port, logonType := p, t, h, n, ANONYMOUS;
      user, pass, account, keyFile := [], [], [], [];
      timezoneOffset, pasvMode, maxConnections := 0, 0, 0;
      encodingType, customEncoding, postLoginCommands, bypassProxy, name := ENCODING_AUTO, [], [], false, [];
    }

    method SetType(t: nat)
      modifies this
      ensures Fields() == old(Fields()).(serverType := t)
      ensures old(Valid()) ==> Valid()
    {
      serverType := t;
    }

    method SetLogonType(t: LogonType)
      modifies this
      ensures Fields() == old(Fields()).(logonType := t)
      ensures old(Valid()) ==> Valid()
    {
      logonType := t;
    }

    /** `SetProtocol`: a protocol without post-login commands drops them. */
    method SetProtocol(p: Protocol)
      requires p != UNKNOWN
      modifies this
      ensures Fields() == old(Fields()).(protocol := p, postLoginCommands := if SupportsPostLogin(p) then old(postLoginCommands) else [])
      ensures postLoginCommands != [] ==> SupportsPostLogin(protocol)
      ensures old(Valid()) ==> Valid()
    {
      PostLoginAgrees(p);
      if !Info(p).supportsPostlogin {
        postLoginCommands := [];
      }
      protocol := p;
    }

    /**
     * `SetHost`: refused for an empty host or a port outside 1 to 65535;
     * otherwise host and port are set and an unknown protocol is inferred
     * from the port.
     */
    method SetHost(h: seq<char>, n: nat) returns (ok: bool)
      modifies this
      ensures ok <==> h != [] && 1 <= n <= 65535
      ensures !ok ==> Fields() == old(Fields())
      ensures ok ==> Fields() == old(Fields()).(host := h, port := n,
                                                protocol := if old(protocol) == UNKNOWN then ProtocolFromPort(n, false)
                                                            else old(protocol))
      ensures ok ==> protocol != UNKNOWN
      ensures old(Valid()) ==> Valid()
    {
      if h == [] || n < 1 || n > 65535 {
        return false;
      }
      host, port := h, n;
      if protocol == UNKNOWN {
        protocol := GetProtocolFromPort(port, false);
      }
      return true;
    }

    /**
     * `SetUser`: with anonymous logon nothing changes and it succeeds; an
     * empty user is refused unless the logon type asks, and then clears
     * the password; otherwise user and password are set.
     */
    method SetUser(u: seq<char>, pw: seq<char>) returns (ok: bool)
      modifies this
      ensures ok <==> logonType == ANONYMOUS || u != [] || Asks(logonType)
      ensures logonType == ANONYMOUS || !ok ==> Fields() == old(Fields())
      ensures logonType != ANONYMOUS && ok ==> Fields() == old(Fields()).(user := u, pass := if u == [] then [] else pw)
      ensures old(Valid()) ==> Valid()
    {
      if logonType == ANONYMOUS {
        return true;
      }
      if u == [] {
        if logonType != ASK && logonType != INTERACTIVE {
          return false;
        }
        pass := [];
      } else {
        pass := pw;
      }
      user := u;
      return true;
    }

    /** `SetAccount`: only with account logon. */
    method SetAccount(a: seq<char>) returns (ok: bool)
      modifies this
      ensures ok <==> logonType == ACCOUNT
      ensures Fields() == if ok then old(Fields()).(account := a) else old(Fields())
      ensures old(Valid()) ==> Valid()
    {
      if logonType != ACCOUNT {
        return false;
      }
      account := a;
      return true;
    }

    /** `SetKeyFile`: only with key-file logon. */
    method SetKeyFile(k: seq<char>) returns (ok: bool)
      modifies this
      ensures ok <==> logonType == KEY
      ensures Fields() == if ok then old(Fields()).(keyFile := k) else old(Fields())
      ensures old(Valid()) ==> Valid()
    {
      if logonType != KEY {
        return false;
      }
      keyFile := k;
      return true;
    }

    /** `SetTimezoneOffset`: refused beyond a day either way. */
    method SetTimezoneOffset(minutes: int) returns (ok: bool)
      modifies this
      ensures ok <==> ValidOffset(minutes)
      ensures Fields() == if ok then old(Fields()).(timezoneOffset := minutes) else old(Fields())
      ensures old(Valid()) ==> Valid()
    {
      if minutes > 60 * 24 || minutes < -60 * 24 {
        return false;
      }
      timezoneOffset := minutes;
      return true;
    }

    method SetPasvMode(mode: nat)
      modifies this
      ensures Fields() == old(Fields()).(pasvMode := mode)
      ensures old(Valid()) ==> Valid()
    {
      pasvMode := mode;
    }

    /** The connection limit, which `==` does not look at. */
    method SetMaximumMultipleConnections(m: int)
      modifies this
      ensures Fields() == old(Fields()).(maxConnections := m)
      ensures Equal(old(Fields()), Fields())
      ensures old(Valid()) ==> Valid()
    {
      maxConnections := m;
    }

    /** `SetEncodingType`: a custom encoding needs a name; type and name are set together. */
    method SetEncodingType(t: Encoding, encoding: seq<char>) returns (ok: bool)
      modifies this
      ensures ok <==> !(t == ENCODING_CUSTOM && encoding == [])
      ensures Fields() == if ok then old(Fields()).(encodingType := t, customEncoding := encoding) else old(Fields())
      ensures old(Valid()) ==> Valid()
    {
      if t == ENCODING_CUSTOM && encoding == [] {
        return false;
      }
      encodingType, customEncoding := t, encoding;
      return true;
    }

    /** `SetCustomEncoding`: a non-empty name switches to the custom encoding. */
    method SetCustomEncoding(encoding: seq<char>) returns (ok: bool)
      modifies this
      ensures ok <==> encoding != []
      ensures Fields() == if ok then old(Fields()).(encodingType := ENCODING_CUSTOM, customEncoding := encoding)
                          else old(Fields())
      ensures old(Valid()) ==> Valid()
    {
      if encoding == [] {
        return false;
      }
      encodingType, customEncoding := ENCODING_CUSTOM, encoding;
      return true;
    }

    /** `SetPostLoginCommands`: a protocol without them refuses and clears the list. */
    method SetPostLoginCommands(cmds: seq<seq<char>>) returns (ok: bool)
      modifies this
      ensures ok <==> SupportsPostLogin(protocol)
      ensures Fields() == old(Fields()).(postLoginCommands := if ok then cmds else [])
      ensures old(Valid()) ==> Valid()
    {
      if !SupportsPostLogin(protocol) {
        postLoginCommands := [];
        return false;
      }
      postLoginCommands := cmds;
      return true;
    }

    method SetBypassProxy(b: bool)
      modifies this
      ensures Fields() == old(Fields()).(bypassProxy := b)
      ensures old(Valid()) ==> Valid()
    {
      bypassProxy := b;
    }

    /**
     * `ParseUrl` with a numeric port (0 for none): the type goes back to
     * the default; the protocol field ends as the parse leaves it, also on
     * failure; on success host, port, user, password and logon type come
     * from the parse and the account is cleared.
     */
    method ParseUrl(text: seq<char>, n: nat, u: seq<char>, pw: seq<char>) returns (r: ParseResult)
      modifies this
      ensures r == ParseUrlValue(text, n, u, pw, old(logonType), old(protocol))
      ensures r.Failed? ==> Fields() == old(Fields()).(serverType := 0, protocol := r.protocol)
      ensures r.Parsed? ==> Fields() == old(Fields()).(serverType := 0, protocol := r.protocol, host := r.host,
                                                       port := r.port, user := r.user, pass := r.pass,
                                                       logonType := r.logonType, account := [])
      ensures old(Valid()) ==> Valid()
    {
      r := ParseStages(text, n, u, pw, logonType, protocol);
      serverType := 0;
      if r.Parsed? {
        SetAddress(r.protocol, r.host, r.port);
        SetCredentials(r.user, r.pass, r.logonType);
      } else {
        protocol := r.protocol;
      }
    }

    /** Where a successful parse connects to: protocol, host and port. */
    method SetAddress(p: Protocol, h: seq<char>, n: nat)
      modifies this
      ensures Fields() == old(Fields()).(protocol := p, host := h, port := n)
    {
      protocol, host, port := p, h, n;
    }

    /** Who a successful parse logs in as: user, password and logon type, without an account. */
    method SetCredentials(u: seq<char>, pw: seq<char>, t: LogonType)
      modifies this
      ensures Fields() == old(Fields()).(user := u, pass := pw, logonType := t, account := [])
    {
      user, pass, logonType, account := u, pw, t, [];
    }

    /**
     * `ParseUrl` with the port as text: a port that is not empty and not a
     * number from 1 to 65535 fails before anything changes.
     */
    method ParseUrlText(text: seq<char>, portText: seq<char>, u: seq<char>, pw: seq<char>) returns (r: ParseResult)
      modifies this
      ensures PortFromText(portText).None? ==> r == Failed(BadPort, old(protocol)) && Fields() == old(Fields())
      ensures PortFromText(portText).Some? ==>
                r == ParseUrlValue(text, PortFromText(portText).value, u, pw, old(logonType), old(protocol))
      ensures old(Valid()) ==> Valid()
    {
      var n := PortFromText(portText);
      if n.None? {
        return Failed(BadPort, protocol);
      }
      r := ParseUrl(text, n.value, u, pw);
    }
  }

  /**
   * The stages of `ParseUrl` one after the other, the last `@` before the
   * path found by `FindUserEnd`'s loop.
   */
  method ParseStages(text: seq<char>, n: nat, u: seq<char>, pw: seq<char>, logonType: LogonType, protocol: Protocol)
    returns (r: ParseResult)
    ensures r == ParseUrlValue(text, n, u, pw, logonType, protocol)
  {
    if text == [] {
      return Failed(NoHost, protocol);
    }
    var scheme := SchemeStage(text, protocol);
    if !scheme.ok {
      return Failed(BadProtocol, scheme.protocol);
    }
    var cred;
    if '@' in scheme.rest {
      var at := FindUserEnd(scheme.rest);
      var c := CredentialsAt(scheme.rest, at, pw);
      if c.None? {
        return Failed(BadUser, scheme.protocol);
      }
      cred := c.value;
    } else {
      cred := DefaultCredentials(scheme.rest, u, pw, logonType);
    }
    r := HostStage(cred, n, logonType, scheme.protocol, true);
  }
}
