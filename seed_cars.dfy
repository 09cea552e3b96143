/**
 * scripts/seed-cars.js: the first `.env.local` line parser (the one that keeps values
 * already set and strips one pair of quotes) and the rent/sale price normalisation of
 * the seed rows.
 */
module SeedCars {
  import opened Wrappers
  import opened JsText
  import opened JsValues

  /** `process.env`: variable names to string values. */
  type Env = map<string, string>

  /** `[A-Za-z0-9_]`. */
  predicate IsKeyChar(c: char) {
    'A' <= c <= 'Z' || 'a' <= c <= 'z' || '0' <= c <= '9' || c == '_'
  }

  function NotKeyChar(c: char): bool {
    !IsKeyChar(c)
  }

  predicate AllSpaces(s: string) {
    forall i :: 0 <= i < |s| ==> IsSpace(s[i])
  }

  /** `val.slice(1, -1)` when the value starts and ends with the same quote (`"` or `'`). */
  function StripQuotes(val: string): (r: string)
    ensures |val| >= 2 && val[0] == val[|val| - 1] && val[0] in {'"', '\''} ==> r == val[1..|val| - 1]
    ensures |val| == 1 && val[0] in {'"', '\''} ==> r == ""
    ensures (val == [] || val[0] !in {'"', '\''} || val[0] != val[|val| - 1]) ==> r == val
  {
    if |val| >= 1 && ((val[0] == '"' && val[|val| - 1] == '"') || (val[0] == '\'' && val[|val| - 1] == '\''))
    then (if |val| >= 2 then val[1..|val| - 1] else "")
    else val
  }

  /** `^\s*([A-Za-z0-9_]+)`: the maximal run of key characters after the leading spaces, and what follows. */
  function SplitKey(line: string): (r: Option<(string, string)>)
    ensures r.Some? ==> r.value.0 != [] && forall i :: 0 <= i < |r.value.0| ==> IsKeyChar(r.value.0[i])
    ensures r.Some? ==> r.value.1 == [] || !IsKeyChar(r.value.1[0])
    ensures r.None? <==> TrimStart(line) == [] || !IsKeyChar(TrimStart(line)[0])
  {
    var a := TrimStart(line);
    var n := FirstWhere(a, NotKeyChar);
    if n == 0 then None else Some((a[..n], a[n..]))
  }

  /** `\s*=\s*`: what follows the "=" and the spaces around it. */
  function AfterEquals(rest: string): Option<string> {
    var b := TrimStart(rest);
    if b == [] || b[0] != '=' then None else Some(TrimStart(b[1..]))
  }

  /** `(.*)\s*$`: the value up to the first line terminator, when only spaces follow it. */
  function ValueToEnd(c: string): (r: Option<string>)
    ensures r.Some? ==> r.value <= c && forall i :: 0 <= i < |r.value| ==> !IsLineTerminator(r.value[i])
    ensures r.Some? ==> |r.value| == |c| || IsLineTerminator(c[|r.value|])
    ensures (forall i :: 0 <= i < |c| ==> !IsLineTerminator(c[i])) ==> r == Some(c)
  {
    var v := FirstWhere(c, IsLineTerminator);
    assert (forall i :: 0 <= i < |c| ==> !IsLineTerminator(c[i])) ==> v == |c| && c[v..] == [] && c[..v] == c;
    if !AllSpaces(c[v..]) then None else Some(c[..v])
  }

  /**
   * `line.match(/^\s*([A-Za-z0-9_]+)\s*=\s*(.*)\s*$/)`: the key is the maximal run of key
   * characters after the leading spaces; the value runs from the first non-space after "="
   * to the first line terminator, and only spaces may follow it. Trailing spaces stay in
   * the value, because `(.*)` is greedy.
   */
  function MatchLine(line: string): Option<(string, string)> {
    var k := SplitKey(line);
    if k.None? then None else
    var c := AfterEquals(k.value.1);
    if c.None? then None else
    var v := ValueToEnd(c.value);
    if v.None? then None else Some((k.value.0, v.value))
  }

  /** One line: the key and the value with one pair of quotes removed. */
  function ParseLine(line: string): Option<(string, string)> {
    var m := MatchLine(line);
    if m.None? then None else Some((m.value.0, StripQuotes(m.value.1)))
  }

  /** `if (!process.env[key]) process.env[key] = val` for a parsed line; a line that does not match changes nothing. */
  function ApplyParsed(env: Env, p: Option<(string, string)>): Env {
    if p.None? then env
    else if p.value.0 !in env || env[p.value.0] == "" then env[p.value.0 := p.value.1]
    else env
  }

  /** The lines applied in order. */
  function ApplyLines(env: Env, lines: seq<string>): Env {
    if lines == [] then env else ApplyParsed(ApplyLines(env, lines[..|lines| - 1]), ParseLine(lines[|lines| - 1]))
  }

  /** loadEnv: split the file on `\r?\n` and apply each line to `process.env`. */
  method LoadEnv(env: Env, raw: string) returns (result: Env)
    ensures result == ApplyLines(env, SplitLines(raw))
  {
    var lines := SplitLines(raw);
    result := env;
    var i := 0;
    while i < |lines|
      invariant 0 <= i <= |lines|
      invariant result == ApplyLines(env, lines[..i])
    {
      assert lines[..i + 1][..i] == lines[..i];
      var m := ParseLine(lines[i]);
      assert ApplyLines(env, lines[..i + 1]) == ApplyParsed(result, m);
      if m.Some? {
        var key := m.value.0;
        if key !in result || result[key] == "" {
          result := result[key := m.value.1];
        }
      }
      i := i + 1;
    }
    assert lines[..i] == lines;
  }

  /** A parsed key is a non-empty run of `[A-Za-z0-9_]`. */
  lemma ParsedKeyIsWord(line: string)
    requires ParseLine(line).Some?
    ensures ParseLine(line).value.0 != []
    ensures forall i :: 0 <= i < |ParseLine(line).value.0| ==> IsKeyChar(ParseLine(line).value.0[i])
  {
  }

  /** A line whose first non-space character is not a key character is skipped. */
  lemma NonKeyStartSkipped(line: string)
    requires TrimStart(line) == [] || !IsKeyChar(TrimStart(line)[0])
    ensures ParseLine(line).None?
  {
  }

  lemma SplitKeyOf(key: string, rest: string)
    requires key != [] && forall i :: 0 <= i < |key| ==> IsKeyChar(key[i])
    requires rest == [] || !IsKeyChar(rest[0])
    ensures SplitKey(key + rest) == Some((key, rest))
  {
    var line := key + rest;
    assert line[0] == key[0] && !IsSpace(line[0]);
    assert TrimStart(line) == line;
    var n := FirstWhere(line, NotKeyChar);
    assert n >= |key|;
    assert n <= |key| by {
      if rest != [] {
        assert line[|key|] == rest[0];
      }
    }
    assert line[..|key|] == key && line[|key|..] == rest;
  }

  lemma KeyCharIsNotSpace(c: char)
    ensures IsKeyChar(c) ==> !IsSpace(c)
  {
  }

  /** Spaces in front of the key change nothing: `^\s*` skips them. */
  lemma SplitKeyAfterSpaces(pre: string, line: string)
    requires AllSpaces(pre)
    requires line == [] || !IsSpace(line[0])
    ensures SplitKey(pre + line) == SplitKey(line)
  {
    TrimStartAfterSpaces(pre, line);
    TrimStartAfterSpaces([], line);
    assert [] + line == line;
  }

  /** The three steps of the match, put together. */
  lemma MatchLineOf(line: string, key: string, rest: string, value: string)
    requires SplitKey(line) == Some((key, rest))
    requires AfterEquals(rest) == Some(value)
    requires ValueToEnd(value) == Some(value)
    ensures MatchLine(line) == Some((key, value))
  {
  }

  /** `\s*=` skips the spaces before "=" and drops it; the spaces after it are trimmed. */
  lemma AfterEqualsOf(sp1: string, u: string)
    requires AllSpaces(sp1)
    ensures AfterEquals(sp1 + "=" + u) == Some(TrimStart(u))
  {
    var t := "=" + u;
    assert sp1 + "=" + u == sp1 + t;
    assert !IsSpace(t[0]);
    TrimStartAfterSpaces(sp1, t);
    assert t[1..] == u;
  }

  /**
   * `KEY = VALUE`, with any spaces before the key and around "=", a plain key and a value
   * without line breaks or leading space, matches with exactly that key and value.
   */
  lemma PlainAssignmentMatches(pre: string, key: string, sp1: string, sp2: string, value: string)
    requires AllSpaces(pre) && AllSpaces(sp1) && AllSpaces(sp2)
    requires key != [] && forall i :: 0 <= i < |key| ==> IsKeyChar(key[i])
    requires value == [] || !IsSpace(value[0])
    requires forall i :: 0 <= i < |value| ==> !IsLineTerminator(value[i])
    ensures MatchLine(pre + key + sp1 + "=" + sp2 + value) == Some((key, value))
  {
    var rest := sp1 + "=" + (sp2 + value);
    assert rest[0] == if sp1 == [] then '=' else sp1[0];
    assert !IsKeyChar(rest[0]) by {
      KeyCharIsNotSpace(rest[0]);
    }
    var line := key + rest;
    assert pre + key + sp1 + "=" + sp2 + value == pre + line;
    assert !IsSpace(line[0]) by {
      assert line[0] == key[0];
      KeyCharIsNotSpace(key[0]);
    }
    SplitKeyOf(key, rest);
    SplitKeyAfterSpaces(pre, line);
    AfterEqualsOf(sp1, sp2 + value);
    TrimStartAfterSpaces(sp2, value);
    MatchLineOf(pre + line, key, rest, value);
  }

  /** Such a value, when it is not quoted, is kept verbatim. */
  lemma PlainAssignmentParses(pre: string, key: string, sp1: string, sp2: string, value: string)
    requires AllSpaces(pre) && AllSpaces(sp1) && AllSpaces(sp2)
    requires key != [] && forall i :: 0 <= i < |key| ==> IsKeyChar(key[i])
    requires value == [] || (!IsSpace(value[0]) && value[0] !in {'"', '\''})
    requires forall i :: 0 <= i < |value| ==> !IsLineTerminator(value[i])
    ensures ParseLine(pre + key + sp1 + "=" + sp2 + value) == Some((key, value))
  {
    PlainAssignmentMatches(pre, key, sp1, sp2, value);
  }

  /** `KEY = "VALUE"` and `KEY = 'VALUE'` lose exactly the two quotes. */
  lemma QuotedAssignmentParses(pre: string, key: string, sp1: string, sp2: string, q: char, inner: string)
    requires AllSpaces(pre) && AllSpaces(sp1) && AllSpaces(sp2)
    requires key != [] && forall i :: 0 <= i < |key| ==> IsKeyChar(key[i])
    requires q in {'"', '\''}
    requires forall i :: 0 <= i < |inner| ==> !IsLineTerminator(inner[i])
    ensures ParseLine(pre + key + sp1 + "=" + sp2 + [q] + inner + [q]) == Some((key, inner))
  {
    var value := QuoteWith(q, inner);
    assert pre + key + sp1 + "=" + sp2 + [q] + inner + [q] == pre + key + sp1 + "=" + sp2 + value;
    PlainAssignmentMatches(pre, key, sp1, sp2, value);
  }

  /** `\s*=` needs an "=" in the text after the key. */
  lemma AfterEqualsNeedsEquals(rest: string)
    ensures AfterEquals(rest).Some? ==> '=' in rest
  {
    var b := TrimStart(rest);
    if b != [] && b[0] == '=' {
      assert rest[|rest| - |b|] == '=';
    }
  }

  /** A line without "=" is not of the form `KEY=VALUE` and is skipped. */
  lemma NoEqualsSkipped(line: string)
    requires '=' !in line
    ensures ParseLine(line).None?
  {
    var k := SplitKey(line);
    if k.Some? {
      var a := TrimStart(line);
      var n := FirstWhere(a, NotKeyChar);
      var rest := a[n..];
      assert k.value.1 == rest;
      assert rest == line[|line| - |a| + n..];
      assert forall j :: 0 <= j < |rest| ==> rest[j] == line[|line| - |a| + n + j];
      AfterEqualsNeedsEquals(rest);
    }
  }

  /** An inner text between two copies of a quote character. */
  function QuoteWith(q: char, inner: string): (v: string)
    requires q in {'"', '\''}
    requires forall i :: 0 <= i < |inner| ==> !IsLineTerminator(inner[i])
    ensures |v| >= 2 && v[0] == q && v[|v| - 1] == q && v[1..|v| - 1] == inner
    ensures forall i :: 0 <= i < |v| ==> !IsLineTerminator(v[i])
    ensures StripQuotes(v) == inner
  {
    var v := [q] + inner + [q];
    assert v[1..|v| - 1] == inner;
    assert forall i :: 1 <= i < |v| - 1 ==> v[i] == inner[i - 1];
    v
  }

  /** A variable that already holds a non-empty value is never overwritten. */
  lemma {:induction false} NeverOverwrites(env: Env, lines: seq<string>, k: string)
    requires k in env && env[k] != ""
    ensures k in ApplyLines(env, lines) && ApplyLines(env, lines)[k] == env[k]
  {
    if lines != [] {
      NeverOverwrites(env, lines[..|lines| - 1], k);
    }
  }

  /** One parsed line keeps every variable, and changes or adds only the key it names. */
  lemma ApplyParsedOnlyAdds(env: Env, p: Option<(string, string)>)
    ensures env.Keys <= ApplyParsed(env, p).Keys
    ensures forall k :: k in ApplyParsed(env, p) && (k !in env || ApplyParsed(env, p)[k] != env[k]) ==>
      p.Some? && p.value.0 == k
  {
  }

  /** The key-by-key reading of ApplyParsedOnlyAdds. */
  lemma ApplyParsedNewKey(env: Env, p: Option<(string, string)>, k: string)
    ensures k in ApplyParsed(env, p) && (k !in env || ApplyParsed(env, p)[k] != env[k]) ==>
      p.Some? && p.value.0 == k
  {
  }

  /** The keys named by the lines that `parse` accepts. */
  function KeysParsedBy(lines: seq<string>, parse: string -> Option<(string, string)>): set<string> {
    if lines == [] then {} else
    var p := parse(lines[|lines| - 1]);
    KeysParsedBy(lines[..|lines| - 1], parse) + if p.Some? then {p.value.0} else {}
  }

  /** Each of those keys comes from one of the lines. */
  lemma {:induction false} KeysParsedByDefined(lines: seq<string>, parse: string -> Option<(string, string)>, k: string)
    ensures k in KeysParsedBy(lines, parse) ==>
      exists i :: 0 <= i < |lines| && parse(lines[i]).Some? && parse(lines[i]).value.0 == k
  {
    if lines != [] {
      var init := lines[..|lines| - 1];
      KeysParsedByDefined(init, parse, k);
      if k in KeysParsedBy(lines, parse) {
        if k in KeysParsedBy(init, parse) {
          var i :| 0 <= i < |init| && parse(init[i]).Some? && parse(init[i]).value.0 == k;
          assert lines[i] == init[i];
        } else {
          var last := |lines| - 1;
          assert parse(lines[last]).Some? && parse(lines[last]).value.0 == k;
        }
      }
    }
  }

  /** A variable that was not there before was set by a line that parsed to its key. */
  lemma {:induction false} NewKeyFromLine(env: Env, lines: seq<string>, k: string)
    ensures k in ApplyLines(env, lines) && k !in env ==> k in KeysParsedBy(lines, ParseLine)
  {
    if lines != [] {
      var init := lines[..|lines| - 1];
      var p := ParseLine(lines[|lines| - 1]);
      var mid := ApplyLines(env, init);
      assert ApplyLines(env, lines) == ApplyParsed(mid, p);
      assert KeysParsedBy(lines, ParseLine) == KeysParsedBy(init, ParseLine) + if p.Some? then {p.value.0} else {};
      NewKeyFromLine(env, init, k);
      ApplyParsedNewKey(mid, p, k);
    }
  }

  /** Loading only adds variables or fills empty ones; it never removes one. */
  lemma {:induction false} LoadOnlyAdds(env: Env, lines: seq<string>)
    ensures env.Keys <= ApplyLines(env, lines).Keys
    ensures forall k :: k in ApplyLines(env, lines) && k !in env ==>
      exists i :: 0 <= i < |lines| && ParseLine(lines[i]).Some? && ParseLine(lines[i]).value.0 == k
  {
    if lines != [] {
      var init := lines[..|lines| - 1];
      var p := ParseLine(lines[|lines| - 1]);
      assert ApplyLines(env, lines) == ApplyParsed(ApplyLines(env, init), p);
      LoadOnlyAdds(env, init);
      ApplyParsedOnlyAdds(ApplyLines(env, init), p);
    }
    forall k | k in ApplyLines(env, lines) && k !in env
      ensures exists i :: 0 <= i < |lines| && ParseLine(lines[i]).Some? && ParseLine(lines[i]).value.0 == k
    {
      NewKeyFromLine(env, lines, k);
      KeysParsedByDefined(lines, ParseLine, k);
    }
  }

  // ---------------------------------------------------------------------------
  // The seed payload
  // ---------------------------------------------------------------------------

  /** `{ ...listing, price_per_day: rent ? price_per_day : null, price_buy: rent ? null : price_buy ?? null }`. */
  function NormalizeRow(listing: Record): (row: Record)
    ensures row.Keys == listing.Keys + {"price_per_day", "price_buy"}
    ensures forall k :: k in listing && k !in {"price_per_day", "price_buy"} ==> row[k] == listing[k]
  {
    var rent := Truthy(Get(listing, "is_for_rent"));
    listing["price_per_day" := if rent then Get(listing, "price_per_day") else Null]
           ["price_buy" := if rent then Null else Nullish(Get(listing, "price_buy"), Null)]
  }

  /** `listings.map(...)`. */
  function NormalizeRows(listings: seq<Record>): (rows: seq<Record>)
    ensures |rows| == |listings|
    ensures forall i :: 0 <= i < |listings| ==> rows[i] == NormalizeRow(listings[i])
  {
    seq(|listings|, i requires 0 <= i < |listings| => NormalizeRow(listings[i]))
  }

  /** Rent rows lose their sale price and sale rows their day rate; a sale price is never undefined. */
  lemma NormalizedPrices(listing: Record)
    ensures var row := NormalizeRow(listing);
      && (Truthy(Get(listing, "is_for_rent")) ==>
            row["price_buy"] == Null && row["price_per_day"] == Get(listing, "price_per_day"))
      && (!Truthy(Get(listing, "is_for_rent")) ==>
            row["price_per_day"] == Null && row["price_buy"] != Undefined &&
            (Get(listing, "price_buy") !in {Undefined, Null} ==> row["price_buy"] == listing["price_buy"]))
  {
  }
}
