/**
 * The start-up loader of `server/env.ts`: when `DATABASE_URL` is not set, the
 * lines of the `.env` file of the working directory are read as `KEY=VALUE`
 * assignments into the process environment.
 */
module EnvFile {
  import opened Wrappers
  import opened Text
  import opened Records

  const DatabaseUrl: string := "DATABASE_URL"

  /**
   * One line of the file: split at `=`; with at least two pieces the key is the
   * trimmed first piece and the value the rest (its `=` kept) trimmed and with
   * every double quote removed. An empty key or one starting with `#` is skipped.
   */
  function ParseLine(line: string): (r: Option<(string, string)>)
    ensures '=' !in line ==> r.None?
    ensures '=' in line ==>
      var i := IndexOfChar(line, '=').value;
      var key := Trim(line[..i]);
      r == if key != "" && !StartsWith(key, "#") then Some((key, RemoveAll(Trim(line[i + 1..]), '"'))) else None
    ensures r.Some? ==> r.value.0 != "" && !StartsWith(r.value.0, "#") && '"' !in r.value.1
  {
    var parts := Split(line, '=');
    SplitAtFirst(line, '=');
    if |parts| >= 2 then
      var key := Trim(parts[0]);
      var value := RemoveAll(Trim(Join(parts[1..], '=')), '"');
      if key != "" && !StartsWith(key, "#") then Some((key, value)) else None
    else None
  }

  /** A key and value as a line of the file writes them without loss. */
  predicate Writable(key: string, value: string) {
    && key != "" && !StartsWith(key, "#") && '=' !in key && '\n' !in key
    && !IsSpace(key[0]) && !IsSpace(key[|key| - 1])
    && '"' !in value && '\n' !in value
    && (value == [] || (!IsSpace(value[0]) && !IsSpace(value[|value| - 1])))
  }

  /** A line `KEY=VALUE` reads back as the key and value it was written from. */
  lemma ParseLineRoundTrip(key: string, value: string)
    requires Writable(key, value)
    ensures ParseLine(key + "=" + value) == Some((key, value))
  {
    var line := key + "=" + value;
    assert line[|key|] == '=';
    assert line[..|key|] == key;
    assert line[|key| + 1..] == value;
    var i := IndexOfChar(line, '=').value;
    assert i == |key| by {
      assert i <= |key| ==> line[..i] == key[..i];
    }
    TrimTrimmed(key);
    TrimTrimmed(value);
  }

  /** Each line of the file as the assignment it makes, if any. */
  function ParseLines(lines: seq<string>): (r: seq<Option<(string, string)>>)
    ensures |r| == |lines|
    ensures forall i :: 0 <= i < |lines| ==> r[i] == ParseLine(lines[i])
  {
    seq(|lines|, i requires 0 <= i < |lines| => ParseLine(lines[i]))
  }

  /**
   * The environment after the assignments of `lines`: every assigning line sets
   * its key, a later line overriding an earlier one, and every other variable
   * keeps its value.
   */
  function LoadLines(env: map<string, string>, lines: seq<string>): (r: map<string, string>)
    ensures var parsed := ParseLines(lines);
      && (forall k :: k in r <==> k in env || exists i :: 0 <= i < |parsed| && KeyedAt(parsed, i, k))
      && (forall i :: 0 <= i < |parsed| && parsed[i].Some? && LastSomeFor(parsed, i) ==>
            parsed[i].value.0 in r && r[parsed[i].value.0] == parsed[i].value.1)
      && (forall k :: k in env && (forall i :: 0 <= i < |parsed| ==> !KeyedAt(parsed, i, k)) ==> r[k] == env[k])
  {
    AssignSome(env, ParseLines(lines))
  }

  /** `DATABASE_URL` is set to a non-empty value. */
  predicate HasDatabaseUrl(env: map<string, string>) {
    DatabaseUrl in env && env[DatabaseUrl] != ""
  }

  /**
   * The environment after start-up; `file` is the text of `.env`, or `None` when
   * there is no such file or it cannot be read. With `DATABASE_URL` already set,
   * or without a file, nothing changes; otherwise the lines of the file are
   * loaded.
   */
  function LoadEnv(env: map<string, string>, file: Option<string>): (r: map<string, string>)
    ensures HasDatabaseUrl(env) || file.None? ==> r == env
    ensures !HasDatabaseUrl(env) && file.Some? ==> r == LoadLines(env, Split(file.value, '\n'))
  {
    if HasDatabaseUrl(env) || file.None? then env
    else
      LoadLines(env, Split(file.value, '\n'))
  }
}
