/**
 * scripts/run-sql-file.js: the second `.env.local` line parser (comments skipped, keys
 * trimmed, quoted or raw values, always overwriting), the choice of the Postgres
 * connection string, and the loop that runs the SQL files named on the command line.
 */
module RunSqlFile {
  import opened Wrappers
  import opened JsText

  /** `process.env`: variable names to string values. */
  type Env = map<string, string>

  // ---------------------------------------------------------------------------
  // The line parser
  // ---------------------------------------------------------------------------

  function IsEquals(c: char): bool {
    c == '='
  }

  /** `t` is `q`, a text without `q`, and `q` again, with nothing after it. */
  predicate QuotedBy(t: string, q: char) {
    |t| >= 2 && t[0] == q && t[|t| - 1] == q && q !in t[1..|t| - 1]
  }

  predicate NoLineTerminator(t: string) {
    forall i :: 0 <= i < |t| ==> !IsLineTerminator(t[i])
  }

  /**
   * `(?:"([^"]*)"|'([^']*)'|(.*))$` applied after the greedy `\s*`, where `t` is the rest of
   * the line with its leading spaces removed. The alternatives are tried in order; the raw
   * one needs a text without line terminators, and giving back some of the spaces to `\s*`
   * cannot help, since those spaces would then be part of the raw text as well.
   */
  function MatchValue(t: string): (r: Option<string>)
    ensures QuotedBy(t, '"') ==> r == Some(t[1..|t| - 1])
    ensures !QuotedBy(t, '"') && QuotedBy(t, '\'') ==> r == Some(t[1..|t| - 1])
    ensures !QuotedBy(t, '"') && !QuotedBy(t, '\'') ==> (r.Some? <==> NoLineTerminator(t)) && (r.Some? ==> r.value == t)
  {
    if QuotedBy(t, '"') || QuotedBy(t, '\'') then Some(t[1..|t| - 1])
    else if NoLineTerminator(t) then Some(t)
    else None
  }

  /** `!line || line.trim().startsWith('#')`. */
  predicate Skipped(line: string) {
    line == [] || (Trim(line) != [] && Trim(line)[0] == '#')
  }

  /** `([^=]+)=`: the text before the first "=", which must not be empty, and the text after it. */
  function SplitAtEquals(line: string): (r: Option<(string, string)>)
    ensures r.Some? ==> line == r.value.0 + "=" + r.value.1 && r.value.0 != [] && '=' !in r.value.0
    ensures r.None? <==> '=' !in line || line[0] == '='
  {
    var eq := FirstWhere(line, IsEquals);
    if eq == 0 || eq == |line| then None
    else
      assert line == line[..eq] + "=" + line[eq + 1..];
      assert forall i :: 0 <= i < eq ==> line[..eq][i] == line[i];
      Some((line[..eq], line[eq + 1..]))
  }

  /**
   * One line: skipped when empty or a `#` comment; otherwise
   * `/^\s*([^=]+)=\s*(?:"([^"]*)"|'([^']*)'|(.*))$/`. The key group ends at the first "=" and
   * needs at least one character before it; the key is that text trimmed, possibly empty.
   */
  function ParseLine(line: string): Option<(string, string)> {
    if Skipped(line) then None
    else
      var parts := SplitAtEquals(line);
      if parts.None? then None
      else
        var v := MatchValue(TrimStart(parts.value.1));
        if v.None? then None else Some((Trim(parts.value.0), v.value))
  }

  /** `process.env[key] = value`: a parsed line always overwrites. */
  function ApplyParsed(env: Env, p: Option<(string, string)>): Env {
    if p.None? then env else env[p.value.0 := p.value.1]
  }

  /** The lines applied in order. */
  function ApplyLines(env: Env, lines: seq<string>): Env {
    if lines == [] then env else ApplyParsed(ApplyLines(env, lines[..|lines| - 1]), ParseLine(lines[|lines| - 1]))
  }

  /** loadEnv: split the file on `\r?\n` and apply each line to `process.env`. */
  method LoadEnv(env: Env, raw: string) returns (result: Env)
    ensures result == ApplyLines(env, SplitLines(raw))
  {
    var lines := SplitLines(raw);
    result := env;
    var i := 0;
    while i < |lines|
      invariant 0 <= i <= |lines|
      invariant result == ApplyLines(env, lines[..i])
    {
      var m := ParseLine(lines[i]);
      ApplyLinesStep(env, lines, i);
      if m.Some? {
        result := result[m.value.0 := m.value.1];
      }
      i := i + 1;
    }
    assert lines[..i] == lines;
  }

  lemma ApplyLinesStep(env: Env, lines: seq<string>, i: nat)
    requires i < |lines|
    ensures ApplyLines(env, lines[..i + 1]) == ApplyParsed(ApplyLines(env, lines[..i]), ParseLine(lines[i]))
  {
    assert lines[..i + 1][..i] == lines[..i];
  }

  /** Empty lines and lines whose trimmed text starts with "#" are skipped. */
  lemma CommentsAndBlanksSkipped(line: string)
    requires line == [] || StartsWith(Trim(line), "#")
    ensures ParseLine(line).None?
  {
    if line != [] {
      assert Trim(line)[..1][0] == '#';
    }
  }

  /** A line without "=", or with "=" as its first character, is skipped. */
  lemma NoKeySkipped(line: string)
    requires '=' !in line || (line != [] && line[0] == '=')
    ensures ParseLine(line).None?
  {
  }

  /** A parsed key is the trimmed text before the first "=", which is not the first character. */
  lemma ParsedKeyIsTrimmedPrefix(line: string)
    requires ParseLine(line).Some?
    ensures exists before, after :: (line == before + "=" + after && before != [] && '=' !in before &&
      ParseLine(line).value.0 == Trim(before))
  {
    var parts := SplitAtEquals(line).value;
    assert line == parts.0 + "=" + parts.1;
  }

  /** Text that starts with a visible character other than "#" and has no "=". */
  predicate PlainKeyText(k: string) {
    k != [] && !IsSpace(k[0]) && k[0] != '#' && '=' !in k
  }

  lemma NotSkipped(line: string)
    requires line != [] && !IsSpace(line[0]) && line[0] != '#'
    ensures !Skipped(line)
  {
    assert TrimStart(line) == line;
  }

  lemma SplitAtEqualsOf(k: string, rest: string)
    requires k != [] && '=' !in k
    ensures SplitAtEquals(k + "=" + rest) == Some((k, rest))
  {
    var line := k + "=" + rest;
    assert line == k + ("=" + rest);
    FirstWhereAfterPrefix(k, "=" + rest, IsEquals);
    assert line[..|k|] == k && line[|k| + 1..] == rest;
  }

  /** A line `KEY=REST` with a plain key text is decided by the value part alone. */
  lemma ParseLineOf(k: string, rest: string)
    requires PlainKeyText(k)
    ensures ParseLine(k + "=" + rest) ==
      (if MatchValue(TrimStart(rest)).None? then None else Some((Trim(k), MatchValue(TrimStart(rest)).value)))
  {
    var line := k + "=" + rest;
    assert line[0] == k[0];
    NotSkipped(line);
    SplitAtEqualsOf(k, rest);
  }

  /** `KEY = "VALUE"` and `KEY = 'VALUE'`: the value is the text between the quotes. */
  lemma QuotedValueParses(k: string, pad: string, q: char, inner: string)
    requires PlainKeyText(k)
    requires forall i :: 0 <= i < |pad| ==> IsSpace(pad[i])
    requires q in {'"', '\''} && q !in inner
    ensures ParseLine(k + "=" + pad + [q] + inner + [q]) == Some((Trim(k), inner))
  {
    var t := [q] + inner + [q];
    assert t[1..|t| - 1] == inner;
    assert QuotedBy(t, q);
    assert k + "=" + pad + [q] + inner + [q] == k + "=" + (pad + t);
    TrimStartAfterSpaces(pad, t);
    ParseLineOf(k, pad + t);
  }

  /** An unquoted value runs to the end of the line, trailing spaces included. */
  lemma RawValueParses(k: string, pad: string, value: string)
    requires PlainKeyText(k)
    requires forall i :: 0 <= i < |pad| ==> IsSpace(pad[i])
    requires value == [] || !IsSpace(value[0])
    requires NoLineTerminator(value) && !QuotedBy(value, '"') && !QuotedBy(value, '\'')
    ensures ParseLine(k + "=" + pad + value) == Some((Trim(k), value))
  {
    assert k + "=" + pad + value == k + "=" + (pad + value);
    TrimStartAfterSpaces(pad, value);
    ParseLineOf(k, pad + value);
  }

  /** A parsed line sets its key to its value, whatever the key held before. */
  lemma ParsedLineOverwrites(env: Env, lines: seq<string>, line: string)
    requires ParseLine(line).Some?
    ensures var r := ApplyLines(env, lines + [line]);
      ParseLine(line).value.0 in r && r[ParseLine(line).value.0] == ParseLine(line).value.1
  {
    var all := lines + [line];
    assert all[..|all| - 1] == lines && all[|all| - 1] == line;
    assert ApplyLines(env, all) == ApplyParsed(ApplyLines(env, lines), ParseLine(line));
    ParsedSetsKey(ApplyLines(env, lines), ParseLine(line));
  }

  lemma ParsedSetsKey(env: Env, p: Option<(string, string)>)
    requires p.Some?
    ensures p.value.0 in ApplyParsed(env, p) && ApplyParsed(env, p)[p.value.0] == p.value.1
  {
  }

  /** Lines that do not parse with key `k` leave `k` as it was. */
  lemma {:induction false} OtherKeysUntouched(env: Env, lines: seq<string>, k: string)
    requires forall i :: 0 <= i < |lines| ==> ParseLine(lines[i]).None? || ParseLine(lines[i]).value.0 != k
    ensures (k in ApplyLines(env, lines)) == (k in env)
    ensures k in env ==> ApplyLines(env, lines)[k] == env[k]
  {
    if lines != [] {
      OtherKeysUntouched(env, lines[..|lines| - 1], k);
    }
  }

  /** The last line that sets a key decides its value. */
  lemma {:induction false} LastDefinitionWins(env: Env, before: seq<string>, line: string, after: seq<string>)
    requires ParseLine(line).Some?
    requires forall i :: 0 <= i < |after| ==>
      ParseLine(after[i]).None? || ParseLine(after[i]).value.0 != ParseLine(line).value.0
    ensures var r := ApplyLines(env, before + [line] + after);
      ParseLine(line).value.0 in r && r[ParseLine(line).value.0] == ParseLine(line).value.1
  {
    var k := ParseLine(line).value.0;
    ParsedLineOverwrites(env, before, line);
    var mid := ApplyLines(env, before + [line]);
    OtherKeysUntouched(mid, after, k);
    ApplyLinesAppend(env, before + [line], after);
  }

  lemma {:induction false} ApplyLinesAppend(env: Env, a: seq<string>, b: seq<string>)
    ensures ApplyLines(env, a + b) == ApplyLines(ApplyLines(env, a), b)
  {
    if b == [] {
      assert a + b == a;
    } else {
      var b' := b[..|b| - 1];
      assert (a + b)[..|a + b| - 1] == a + b';
      ApplyLinesAppend(env, a, b');
    }
  }

  // ---------------------------------------------------------------------------
  // encodeURIComponent
  // ---------------------------------------------------------------------------

  /** The characters encodeURIComponent leaves alone: `A-Z a-z 0-9 - _ . ! ~ * ' ( )`. */
  predicate Unreserved(c: char) {
    'A' <= c <= 'Z' || 'a' <= c <= 'z' || '0' <= c <= '9' ||
    c == '-' || c == '_' || c == '.' || c == '!' || c == '~' || c == '*' || c == '\'' || c == '(' || c == ')'
  }

  predicate IsUpperHex(c: char) {
    '0' <= c <= '9' || 'A' <= c <= 'F'
  }

  /** The characters an encoded text is made of. */
  predicate EncodedChar(c: char) {
    Unreserved(c) || c == '%' || IsUpperHex(c)
  }

  function HexDigit(d: nat): (c: char)
    requires d < 16
    ensures IsUpperHex(c)
  {
    if d < 10 then ('0' as int + d) as char else ('A' as int + d - 10) as char
  }

  function HexValue(c: char): nat
    requires IsUpperHex(c)
  {
    if c <= '9' then c as int - '0' as int else c as int - 'A' as int + 10
  }

  lemma HexRoundTrip(d: nat)
    requires d < 16
    ensures HexValue(HexDigit(d)) == d
  {
  }

  /** The UTF-8 encoding of one Unicode scalar value. */
  function Utf8Bytes(c: char): (bs: seq<nat>)
    ensures 1 <= |bs| <= 4
    ensures forall i :: 0 <= i < |bs| ==> bs[i] < 256
    ensures c as int < 0x80 ==> bs == [c as int]
    ensures c as int >= 0x80 ==> forall i :: 0 <= i < |bs| ==> bs[i] >= 0x80
  {
    var n := c as int;
    if n < 0x80 then [n]
    else if n < 0x800 then [0xC0 + n / 64, 0x80 + n % 64]
    else if n < 0x10000 then [0xE0 + n / 4096, 0x80 + (n / 64) % 64, 0x80 + n % 64]
    else [0xF0 + n / 262144, 0x80 + (n / 4096) % 64, 0x80 + (n / 64) % 64, 0x80 + n % 64]
  }

  /** Each byte as "%" and two upper-case hexadecimal digits. */
  function PercentBytes(bs: seq<nat>): (r: string)
    requires forall i :: 0 <= i < |bs| ==> bs[i] < 256
    ensures |r| == 3 * |bs|
    ensures forall i :: 0 <= i < |r| ==> r[i] == '%' || IsUpperHex(r[i])
  {
    if bs == [] then [] else ['%', HexDigit(bs[0] / 16), HexDigit(bs[0] % 16)] + PercentBytes(bs[1..])
  }

  function EncodeChar(c: char): (r: string)
    ensures forall i :: 0 <= i < |r| ==> EncodedChar(r[i])
    ensures Unreserved(c) ==> r == [c]
  {
    if Unreserved(c) then [c] else PercentBytes(Utf8Bytes(c))
  }

  /** `encodeURIComponent(s)`; no ":", "@" or "/" survives, so the result is safe inside a URL's user information. */
  function EncodeURIComponent(s: string): (r: string)
    ensures forall i :: 0 <= i < |r| ==> EncodedChar(r[i])
    ensures ':' !in r && '@' !in r && '/' !in r
  {
    if s == [] then [] else EncodeChar(s[0]) + EncodeURIComponent(s[1..])
  }

  /** Text made of unreserved characters is left as it is. */
  lemma {:induction false} EncodeUnreservedIsIdentity(s: string)
    requires forall i :: 0 <= i < |s| ==> Unreserved(s[i])
    ensures EncodeURIComponent(s) == s
  {
    if s != [] {
      EncodeUnreservedIsIdentity(s[1..]);
    }
  }

  /** Encoding works character by character. */
  lemma {:induction false} EncodeAppend(a: string, b: string)
    ensures EncodeURIComponent(a + b) == EncodeURIComponent(a) + EncodeURIComponent(b)
  {
    if a != [] {
      assert (a + b)[1..] == a[1..] + b;
      EncodeAppend(a[1..], b);
    } else {
      assert a + b == b;
    }
  }

  /** `decodeURIComponent` restricted to one-byte escapes: "%" and two hexadecimal digits give one character. */
  function DecodeAscii(s: string): string
  {
    if |s| >= 3 && s[0] == '%' && IsUpperHex(s[1]) && IsUpperHex(s[2]) && HexValue(s[1]) < 8 then
      [(16 * HexValue(s[1]) + HexValue(s[2])) as char] + DecodeAscii(s[3..])
    else if s == [] then []
    else [s[0]] + DecodeAscii(s[1..])
  }

  lemma DecodeEncodedChar(c: char, tail: string)
    requires c as int < 0x80
    ensures DecodeAscii(EncodeChar(c) + tail) == [c] + DecodeAscii(tail)
  {
    if Unreserved(c) {
      assert EncodeChar(c) + tail == [c] + tail;
      assert ([c] + tail)[1..] == tail;
    } else {
      var n := c as int;
      HexRoundTrip(n / 16);
      HexRoundTrip(n % 16);
      var e := ['%', HexDigit(n / 16), HexDigit(n % 16)];
      assert PercentBytes([n]) == e + PercentBytes([]);
      assert EncodeChar(c) == e;
      assert (e + tail)[3..] == tail;
      assert (16 * (n / 16) + n % 16) as char == c;
    }
  }

  /** Encoding is undone by decoding, for ASCII text. */
  lemma {:induction false} EncodeAsciiRoundTrip(s: string)
    requires forall i :: 0 <= i < |s| ==> s[i] as int < 0x80
    ensures DecodeAscii(EncodeURIComponent(s)) == s
  {
    if s != [] {
      EncodeAsciiRoundTrip(s[1..]);
      DecodeEncodedChar(s[0], EncodeURIComponent(s[1..]));
    }
  }

  // ---------------------------------------------------------------------------
  // getConnectionString
  // ---------------------------------------------------------------------------

  /** The variables tried, in order, for a ready-made connection string. */
  const CONNECTION_CHAIN: seq<string> :=
    ["POSTGRES_URL_NON_POOLING", "POSTGRES_URL", "POSTGRES_PRISMA_URL", "POSTGRES_CONN", "POSTGRES_DATABASE"]

  const MISSING_CONNECTION_MESSAGE := "Missing Postgres connection info in .env.local"

  /** `process.env[name]`: undefined when the variable is not set. */
  function Lookup(env: Env, name: string): Option<string> {
    if name in env then Some(env[name]) else None
  }

  /** `env[n0] || env[n1] || ...` as far as its truthiness goes: the first non-empty value. */
  function FirstTruthy(env: Env, names: seq<string>): Option<string> {
    if names == [] then None
    else if names[0] in env && env[names[0]] != "" then Some(env[names[0]])
    else FirstTruthy(env, names[1..])
  }

  /** The first truthy variable of the chain is found; every earlier one is unset or empty. */
  lemma {:induction false} FirstTruthyIsFirst(env: Env, names: seq<string>)
    ensures FirstTruthy(env, names).Some? <==> exists i :: 0 <= i < |names| && names[i] in env && env[names[i]] != ""
    ensures FirstTruthy(env, names).Some? ==> exists i :: (0 <= i < |names| && names[i] in env &&
      env[names[i]] == FirstTruthy(env, names).value != "" &&
      forall j :: 0 <= j < i ==> names[j] !in env || env[names[j]] == "")
  {
    if names != [] {
      FirstTruthyIsFirst(env, names[1..]);
      if !(names[0] in env && env[names[0]] != "") {
        if FirstTruthy(env, names).Some? {
          var i :| 0 <= i < |names[1..]| && names[1..][i] in env &&
            env[names[1..][i]] == FirstTruthy(env, names).value != "" &&
            forall j :: 0 <= j < i ==> names[1..][j] !in env || env[names[1..][j]] == "";
          assert names[i + 1] == names[1..][i];
          assert forall j :: 1 <= j < i + 1 ==> names[j] == names[1..][j - 1];
        }
        if exists i :: 0 <= i < |names| && names[i] in env && env[names[i]] != "" {
          var i :| 0 <= i < |names| && names[i] in env && env[names[i]] != "";
          assert i >= 1 && names[1..][i - 1] == names[i];
        }
      }
    }
  }

  /** The URL built from the separate variables. */
  function FallbackUrl(user: string, password: string, host: string, database: string): string {
    "postgres://" + EncodeURIComponent(user) + ":" + EncodeURIComponent(password) + "@" + host + ":5432/" + database
  }

  /** getConnectionString: a ready-made string, or one assembled from host, user, password and database. */
  function GetConnectionString(env: Env): Result<string, string> {
    var candidate := FirstTruthy(env, CONNECTION_CHAIN);
    if candidate.Some? && candidate.value != "postgres" then Ok(candidate.value)
    else
      var host := Lookup(env, "POSTGRES_HOST");
      var user := OrDefault(Lookup(env, "POSTGRES_USER"), "postgres");
      var password := Lookup(env, "POSTGRES_PASSWORD");
      var database := OrDefault(Lookup(env, "POSTGRES_DATABASE"), "postgres");
      if host.None? || host.value == "" || password.None? || password.value == "" then Err(MISSING_CONNECTION_MESSAGE)
      else Ok(FallbackUrl(user, password.value, host.value, database))
  }

  /** A truthy chain value other than "postgres" is used as it is. */
  lemma CandidateUsed(env: Env)
    requires FirstTruthy(env, CONNECTION_CHAIN).Some? && FirstTruthy(env, CONNECTION_CHAIN).value != "postgres"
    ensures GetConnectionString(env) == Ok(FirstTruthy(env, CONNECTION_CHAIN).value)
  {
  }

  /** Without a usable candidate, a missing or empty host or password aborts. */
  lemma MissingCredentialsAbort(env: Env)
    requires FirstTruthy(env, CONNECTION_CHAIN).None? || FirstTruthy(env, CONNECTION_CHAIN).value == "postgres"
    requires "POSTGRES_HOST" !in env || env["POSTGRES_HOST"] == "" ||
      "POSTGRES_PASSWORD" !in env || env["POSTGRES_PASSWORD"] == ""
    ensures GetConnectionString(env) == Err(MISSING_CONNECTION_MESSAGE)
  {
  }

  /** Otherwise the URL is assembled, with "postgres" for a missing user or database. */
  lemma FallbackAssembled(env: Env)
    requires FirstTruthy(env, CONNECTION_CHAIN).None? || FirstTruthy(env, CONNECTION_CHAIN).value == "postgres"
    requires "POSTGRES_HOST" in env && env["POSTGRES_HOST"] != ""
    requires "POSTGRES_PASSWORD" in env && env["POSTGRES_PASSWORD"] != ""
    ensures GetConnectionString(env) == Ok(FallbackUrl(
      if "POSTGRES_USER" in env && env["POSTGRES_USER"] != "" then env["POSTGRES_USER"] else "postgres",
      env["POSTGRES_PASSWORD"], env["POSTGRES_HOST"],
      if "POSTGRES_DATABASE" in env && env["POSTGRES_DATABASE"] != "" then env["POSTGRES_DATABASE"] else "postgres"))
  {
  }

  function IsColon(c: char): bool {
    c == ':'
  }

  function IsAt(c: char): bool {
    c == '@'
  }

  /** `u:p@...` splits back into `u` and `p` when `u` has no ":" and `p` has no "@". */
  lemma CredentialsDelimited(u: string, p: string, tail: string)
    requires ':' !in u && '@' !in p && tail != [] && tail[0] == '@'
    ensures var rest := u + ":" + p + tail;
      && FirstWhere(rest, IsColon) == |u| && rest[..|u|] == u
      && FirstWhere(rest[|u| + 1..], IsAt) == |p| && rest[|u| + 1..][..|p|] == p
  {
    var rest := u + ":" + p + tail;
    assert rest == u + (":" + p + tail);
    FirstWhereAfterPrefix(u, ":" + p + tail, IsColon);
    assert rest[|u| + 1..] == p + tail;
    FirstWhereAfterPrefix(p, tail, IsAt);
  }

  /** `postgres://u:p@host:5432/db` with a user free of ":" and a password free of "@". */
  lemma UrlSeparatesCredentials(u: string, p: string, host: string, database: string)
    requires ':' !in u && '@' !in p
    ensures var url := "postgres://" + u + ":" + p + "@" + host + ":5432/" + database;
      && StartsWith(url, "postgres://")
      && FirstWhere(url[11..], IsColon) == |u| && url[11..][..|u|] == u
      && FirstWhere(url[12 + |u|..], IsAt) == |p| && url[12 + |u|..][..|p|] == p
  {
    var tail := "@" + host + ":5432/" + database;
    var rest := u + ":" + p + tail;
    var url := "postgres://" + u + ":" + p + "@" + host + ":5432/" + database;
    assert url == "postgres://" + rest;
    assert url[11..] == rest;
    assert url[12 + |u|..] == rest[|u| + 1..];
    CredentialsDelimited(u, p, tail);
  }

  /** In the assembled URL the first ":" after the scheme ends the user and the next "@" ends the password. */
  lemma FallbackUrlSeparatesCredentials(user: string, password: string, host: string, database: string)
    ensures var url := FallbackUrl(user, password, host, database);
      var u := EncodeURIComponent(user);
      var p := EncodeURIComponent(password);
      && StartsWith(url, "postgres://")
      && FirstWhere(url[11..], IsColon) == |u| && url[11..][..|u|] == u
      && FirstWhere(url[12 + |u|..], IsAt) == |p| && url[12 + |u|..][..|p|] == p
  {
    UrlSeparatesCredentials(EncodeURIComponent(user), EncodeURIComponent(password), host, database);
  }

  // ---------------------------------------------------------------------------
  // The argument loop
  // ---------------------------------------------------------------------------

  /** How one `runSqlFile(arg)` ends: its query finished, or the script stopped. */
  datatype FileResult = Finished | FileMissing | NoConnection(message: string) | QueryFailed

  /** How the script ends. */
  datatype RunOutcome = Usage | Completed | Stopped(file: string, reason: FileResult)

  const USAGE_MESSAGE := "Usage: node run-sql-file.js <relative-sql-path> [more-sql-paths]"

  /**
   * runSqlFile: a missing file exits, then the connection string is chosen (which may
   * exit), then the query runs. The file system and the database are parameters.
   */
  function RunSqlFileResult(env: Env, fileExists: string -> bool, queryOk: string -> bool, file: string): (r: FileResult)
    ensures r == Finished <==> fileExists(file) && GetConnectionString(env).Ok? && queryOk(file)
  {
    if !fileExists(file) then FileMissing
    else
      var conn := GetConnectionString(env);
      if conn.Err? then NoConnection(conn.error)
      else if !queryOk(file) then QueryFailed
      else Finished
  }

  /** The main block after loadEnv: usage without arguments, else each file in turn until one stops the script. */
  method RunSqlFiles(env: Env, args: seq<string>, fileExists: string -> bool, queryOk: string -> bool)
    returns (ran: seq<string>, outcome: RunOutcome)
    ensures args == [] <==> outcome == Usage
    ensures outcome == Usage ==> ran == []
    ensures |ran| <= |args| && ran == args[..|ran|]
    ensures forall i :: 0 <= i < |ran| - 1 ==> RunSqlFileResult(env, fileExists, queryOk, ran[i]) == Finished
    ensures outcome == Completed <==>
      args != [] && forall i :: 0 <= i < |args| ==> RunSqlFileResult(env, fileExists, queryOk, args[i]) == Finished
    ensures outcome == Completed ==> ran == args
    ensures outcome.Stopped? ==> (ran != [] && outcome.file == ran[|ran| - 1] &&
      outcome.reason == RunSqlFileResult(env, fileExists, queryOk, outcome.file) != Finished)
  {
    if args == [] {
      return [], Usage;
    }
    ran := [];
    var i := 0;
    while i < |args|
      invariant 0 <= i <= |args|
      invariant ran == args[..i]
      invariant forall j :: 0 <= j < i ==> RunSqlFileResult(env, fileExists, queryOk, args[j]) == Finished
    {
      ran := ran + [args[i]];
      var result := RunSqlFileResult(env, fileExists, queryOk, args[i]);
      if result != Finished {
        return ran, Stopped(args[i], result);
      }
      i := i + 1;
    }
    assert args[..i] == args;
    outcome := Completed;
  }
}
