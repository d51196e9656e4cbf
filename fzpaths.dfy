/**
 * Where FileZilla keeps its settings on Unix: `$VAR` expansion of a
 * configured path, the XDG / `~/.config` / `~/.filezilla` candidates, and
 * the location named by a system-wide `fzdefaults.xml`. The environment
 * and the file system are parameters: `env` maps variable names to values
 * and `existing` holds the paths that exist.
 */
module FzPaths {
  import opened Common
  import opened Text

  /** `GetEnv`: the variable's value, empty when unset. */
  function GetEnv(env: map<seq<char>, seq<char>>, name: seq<char>): seq<char>
  {
    if name in env then env[name] else []
  }

  // ---------------------------------------------------------------------
  // ExpandPath

  /**
   * One `/`-separated token: `$$x` stands for the literal `$x`; `$NAME` for
   * the variable's value, or nothing when it is unset; a lone `$` for
   * nothing; any other token for itself.
   */
  function ExpandToken(token: seq<char>, env: map<seq<char>, seq<char>>): seq<char>
  {
    if |token| > 0 && token[0] == '$' then
      if |token| > 1 && token[1] == '$' then token[1..]
      else if |token| > 1 then GetEnv(env, token[1..])
      else []
    else token
  }

  /** The four kinds of token, each written out as its own input. */
  lemma ExpandTokenCases(x: seq<char>, name: seq<char>, t: seq<char>, env: map<seq<char>, seq<char>>)
    ensures ExpandToken("$$" + x, env) == "$" + x
    ensures name != [] && name[0] != '$' ==> ExpandToken("$" + name, env) == GetEnv(env, name)
    ensures ExpandToken("$", env) == []
    ensures t == [] || t[0] != '$' ==> ExpandToken(t, env) == t
  {
    assert ("$$" + x)[1..] == "$" + x;
    assert ("$" + name)[1..] == name;
  }

  /** Every token of the path expanded and followed by exactly one `/`. */
  function ExpandTokens(dir: seq<char>, env: map<seq<char>, seq<char>>): seq<char>
    decreases |dir|
  {
    if dir == [] then []
    else
      var pos := FirstIndex(dir, '/');
      if pos < 0 then ExpandToken(dir, env) + "/"
      else ExpandToken(dir[..pos], env) + "/" + ExpandTokens(dir[pos + 1..], env)
  }

  /** `ExpandPath` as a value: empty stays empty, anything else is expanded token by token. */
  function Expanded(dir: seq<char>, env: map<seq<char>, seq<char>>): (r: seq<char>)
    ensures dir == [] <==> r == []
    ensures r != [] ==> r[|r| - 1] == '/'
  {
    EndsInSlash(dir, env);
    ExpandTokens(dir, env)
  }

  /** Every expanded token is followed by a `/`, so a non-empty path expands to a `/`-terminated one. */
  lemma {:induction false} EndsInSlash(dir: seq<char>, env: map<seq<char>, seq<char>>)
    ensures dir != [] <==> ExpandTokens(dir, env) != []
    ensures dir != [] ==> ExpandTokens(dir, env)[|ExpandTokens(dir, env)| - 1] == '/'
    decreases |dir|
  {
    if dir != [] {
      var pos := FirstIndex(dir, '/');
      var r := ExpandTokens(dir, env);
      if pos < 0 {
        var t := ExpandToken(dir, env) + "/";
        assert r == t && t[|t| - 1] == '/';
      } else {
        var t := ExpandToken(dir[..pos], env) + "/";
        var q := ExpandTokens(dir[pos + 1..], env);
        assert r == t + q && t[|t| - 1] == '/';
        EndsInSlash(dir[pos + 1..], env);
        assert r[|r| - 1] == if q == [] then t[|t| - 1] else q[|q| - 1];
      }
    }
  }

  /**
   * `ExpandPathImpl`: cut the path at each `/`, append each token's
   * expansion and one `/` to the result.
   */
  method ExpandPath(dir: seq<char>, env: map<seq<char>, seq<char>>) returns (result: seq<char>)
    ensures result == Expanded(dir, env)
    ensures dir == [] <==> result == []
    ensures result != [] ==> result[|result| - 1] == '/'
  {
    if |dir| == 0 {
      return dir;
    }
    result := [];
    var rest := dir;
    while |rest| > 0
      invariant result + ExpandTokens(rest, env) == ExpandTokens(dir, env)
      decreases |rest|
    {
      result, rest := AppendToken(result, rest, env);
    }
    assert result + ExpandTokens(rest, env) == result;
  }

  /** One turn of the loop: the next token's expansion and a `/` move from `rest` to `result`. */
  method AppendToken(result: seq<char>, rest: seq<char>, env: map<seq<char>, seq<char>>)
    returns (result': seq<char>, rest': seq<char>)
    requires rest != []
    ensures |rest'| < |rest|
    ensures result' + ExpandTokens(rest', env) == result + ExpandTokens(rest, env)
  {
    var token;
    token, rest' := NextToken(rest, env);
    result' := result + (ExpandToken(token, env) + "/");
  }

  /** The text up to the first `/` (or all of it), and what follows that `/`. */
  method NextToken(dir: seq<char>, ghost env: map<seq<char>, seq<char>>) returns (token: seq<char>, rest: seq<char>)
    requires dir != []
    ensures '/' !in token && |rest| < |dir|
    ensures ExpandTokens(dir, env) == ExpandToken(token, env) + "/" + ExpandTokens(rest, env)
  {
    var pos := FirstIndex(dir, '/');
    if pos < 0 {
      token, rest := dir, [];
    } else {
      token, rest := dir[..pos], dir[pos + 1..];
    }
    ExpandTokensAt(dir, env, pos, token, rest);
  }

  /** `ExpandTokens` unfolded once at the first `/`. */
  lemma ExpandTokensAt(dir: seq<char>, env: map<seq<char>, seq<char>>, pos: int, token: seq<char>, rest: seq<char>)
    requires dir != [] && pos == FirstIndex(dir, '/')
    requires pos < 0 ==> token == dir && rest == []
    requires pos >= 0 ==> token == dir[..pos] && rest == dir[pos + 1..]
    ensures ExpandTokens(dir, env) == ExpandToken(token, env) + "/" + ExpandTokens(rest, env)
  {
    if pos < 0 {
      assert ExpandTokens(rest, env) == [];
      assert ExpandToken(token, env) + "/" + [] == ExpandToken(token, env) + "/";
    }
  }

  /** A path without `$`, already `/`-terminated, expands to itself. */
  lemma ExpandPlain(dir: seq<char>, env: map<seq<char>, seq<char>>)
    requires '$' !in dir && (dir == [] || dir[|dir| - 1] == '/')
    ensures Expanded(dir, env) == dir
  {
    TokensPlain(dir, env);
  }

  lemma {:induction false} TokensPlain(dir: seq<char>, env: map<seq<char>, seq<char>>)
    requires '$' !in dir && (dir == [] || dir[|dir| - 1] == '/')
    ensures ExpandTokens(dir, env) == dir
    decreases |dir|
  {
    if dir != [] {
      var pos := FirstIndex(dir, '/');
      var token, rest := dir[..pos], dir[pos + 1..];
      assert ExpandToken(token, env) == token by {
        assert token == [] || token[0] in dir;
      }
      assert '$' !in rest && (rest == [] || rest[|rest| - 1] == '/') by {
        assert dir == token + "/" + rest;
      }
      ExpandTokensAt(dir, env, pos, token, rest);
      TokensPlain(rest, env);
      assert dir == token + "/" + rest;
    }
  }

  /** A path without `$` expands to itself with a `/` appended if it lacks one. */
  lemma ExpandPlainUnterminated(dir: seq<char>, env: map<seq<char>, seq<char>>)
    requires '$' !in dir && dir != [] && dir[|dir| - 1] != '/'
    ensures Expanded(dir, env) == dir + "/"
  {
    TokensPlainUnterminated(dir, env);
  }

  lemma {:induction false} TokensPlainUnterminated(dir: seq<char>, env: map<seq<char>, seq<char>>)
    requires '$' !in dir && dir != [] && dir[|dir| - 1] != '/'
    ensures ExpandTokens(dir, env) == dir + "/"
    decreases |dir|
  {
    var pos := FirstIndex(dir, '/');
    if pos < 0 {
      LastToken(dir, env);
    } else {
      var token, rest := dir[..pos], dir[pos + 1..];
      PlainParts(dir, pos, token, rest);
      TokensPlainUnterminated(rest, env);
      ExpandTokensAt(dir, env, pos, token, rest);
      assert ExpandToken(token, env) == token;
    }
  }

  /** A plain path without `/` is one token. */
  lemma LastToken(dir: seq<char>, env: map<seq<char>, seq<char>>)
    requires '$' !in dir && dir != [] && '/' !in dir
    ensures ExpandTokens(dir, env) == dir + "/"
  {
    assert ExpandToken(dir, env) == dir by {
      assert dir[0] in dir;
    }
    ExpandTokensAt(dir, env, -1, dir, []);
    assert ExpandTokens([], env) == [];
    assert dir + "/" + [] == dir + "/";
  }

  /** The parts of a plain, unterminated path around its first `/`. */
  lemma PlainParts(dir: seq<char>, pos: int, token: seq<char>, rest: seq<char>)
    requires '$' !in dir && dir != [] && dir[|dir| - 1] != '/' && 0 <= pos < |dir| && dir[pos] == '/'
    requires token == dir[..pos] && rest == dir[pos + 1..]
    ensures token == [] || token[0] != '$'
    ensures '$' !in rest && rest != [] && rest[|rest| - 1] != '/'
    ensures token + "/" + (rest + "/") == dir + "/"
  {
    assert token == [] || token[0] in dir;
    assert dir == token + "/" + rest;
  }

  /** Expanding twice is expanding once, once no `$` is left. */
  lemma ExpandIdempotent(dir: seq<char>, env: map<seq<char>, seq<char>>)
    requires '$' !in Expanded(dir, env)
    ensures Expanded(Expanded(dir, env), env) == Expanded(dir, env)
  {
    ExpandPlain(Expanded(dir, env), env);
  }

  /** A path made of a variable reference and a plain rest: the value, then the rest. */
  lemma ExpandVariable(name: seq<char>, rest: seq<char>, env: map<seq<char>, seq<char>>)
    requires name != [] && name[0] != '$' && '/' !in name && rest != []
    ensures Expanded("$" + name + "/" + rest, env) == GetEnv(env, name) + "/" + Expanded(rest, env)
  {
    var dir := "$" + name + "/" + rest;
    FirstIndexAt("$" + name, '/', rest);
    assert dir[..|name| + 1] == "$" + name;
    assert ("$" + name)[1..] == name;
    assert dir[|name| + 2..] == rest;
  }

  // ---------------------------------------------------------------------
  // Settings directory candidates

  /**
   * `TryDirectory`: only an absolute path is a candidate; it gets a
   * trailing `/` and the suffix, and with `checkExists` a result that does
   * not exist is dropped.
   */
  function TryDirectory(path: seq<char>, suffix: seq<char>, checkExists: bool, existing: set<seq<char>>): (r: seq<char>)
    ensures (path == [] || path[0] != '/') ==> r == []
    ensures r != [] ==> r[0] == '/' && |r| >= |path| + |suffix| && r[..|path|] == path &&
                        r[|r| - |suffix|..] == suffix && r[..|r| - |suffix|][|r| - |suffix| - 1] == '/' &&
                        (checkExists ==> r in existing)
    ensures path != [] && path[0] == '/' && !checkExists ==> r != []
  {
    if path != [] && path[0] == '/' then
      var dir := if path[|path| - 1] != '/' then path + "/" else path;
      assert dir[..|path|] == path;
      var candidate := dir + suffix;
      assert candidate[..|dir|] == dir;
      if checkExists && candidate !in existing then [] else candidate
    else []
  }

  /**
   * `GetUnadjustedSettingsDir` on Unix: the first of `$XDG_CONFIG_HOME/filezilla/`,
   * `$HOME/.config/filezilla/`, `$HOME/.filezilla/` that exists, else the
   * first of them that can be formed at all, else empty.
   */
  function UnadjustedSettingsDir(env: map<seq<char>, seq<char>>, existing: set<seq<char>>): (r: seq<char>)
  {
    var xdg := GetEnv(env, "XDG_CONFIG_HOME");
    var home := GetEnv(env, "HOME");
    var c1 := TryDirectory(xdg, "filezilla/", true, existing);
    var c2 := TryDirectory(home, ".config/filezilla/", true, existing);
    var c3 := TryDirectory(home, ".filezilla/", true, existing);
    var c4 := TryDirectory(xdg, "filezilla/", false, existing);
    var c5 := TryDirectory(home, ".config/filezilla/", false, existing);
    var c6 := TryDirectory(home, ".filezilla/", false, existing);
    if c1 != [] then c1 else if c2 != [] then c2 else if c3 != [] then c3
    else if c4 != [] then c4 else if c5 != [] then c5 else c6
  }

  predicate Absolute(p: seq<char>)
  {
    p != [] && p[0] == '/'
  }

  /** There is a settings directory exactly when one of the two variables holds an absolute path. */
  lemma SettingsDirFound(env: map<seq<char>, seq<char>>, existing: set<seq<char>>)
    ensures UnadjustedSettingsDir(env, existing) != [] <==>
            Absolute(GetEnv(env, "XDG_CONFIG_HOME")) || Absolute(GetEnv(env, "HOME"))
  {
  }

  /** An existing `~/.filezilla/` is never passed over for a directory that does not exist yet. */
  lemma SettingsDirPrefersExisting(env: map<seq<char>, seq<char>>, existing: set<seq<char>>)
    requires Absolute(GetEnv(env, "HOME"))
    requires TryDirectory(GetEnv(env, "HOME"), ".filezilla/", false, existing) in existing
    ensures UnadjustedSettingsDir(env, existing) in existing
  {
  }

  /** With nothing in place, a new configuration goes to the XDG directory when it is set. */
  lemma SettingsDirDefault(env: map<seq<char>, seq<char>>)
    requires Absolute(GetEnv(env, "XDG_CONFIG_HOME"))
    ensures UnadjustedSettingsDir(env, {}) == TryDirectory(GetEnv(env, "XDG_CONFIG_HOME"), "filezilla/", false, {})
  {
  }

  // ---------------------------------------------------------------------
  // fzdefaults.xml

  /**
   * `ReadSettingsFromDefaults`: with a defaults directory, the "Config
   * Location" it names (`configLocation`, read from `fzdefaults.xml` by the
   * caller), expanded, if that path exists; otherwise empty. A result is
   * always `/`-terminated.
   */
  function ReadSettingsFromDefaults(defaultsDir: seq<char>, configLocation: seq<char>,
                                    env: map<seq<char>, seq<char>>, existing: set<seq<char>>): (r: seq<char>)
    ensures defaultsDir == [] ==> r == []
    ensures r != [] ==> r[|r| - 1] == '/' && r == Expanded(configLocation, env) && r in existing
    ensures defaultsDir != [] && Expanded(configLocation, env) in existing && configLocation != [] ==>
              r == Expanded(configLocation, env)
  {
    if defaultsDir == [] then []
    else
      var result := Expanded(configLocation, env);
      if result == [] || result !in existing then []
      else if result[|result| - 1] != '/' then result + "/"
      else result
  }
}
