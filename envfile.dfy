/**
 * `_load_env_file`: the package reads `KEY=value` lines from a `.env` file into the
 * process environment, filling only keys that are not set yet. The file's lines are
 * handed in (None when the file does not exist); reading and splitting the file is
 * not modelled.
 */
module EnvFile {
  import opened Wrappers
  import opened PyStr

  datatype Entry = Entry(key: string, value: string)

  /** `line.split(sep, 1)` on a line holding `sep`. */
  function SplitOnce(line: string, sep: char): (string, string)
  {
    if line == [] then ([], [])
    else if line[0] == sep then ([], line[1..])
    else
      var rest := SplitOnce(line[1..], sep);
      ([line[0]] + rest.0, rest.1)
  }

  /** The split is at the first `sep`: the text before it and the text after it. */
  lemma {:induction false} SplitOnceParts(line: string, sep: char)
    requires sep in line
    ensures var r := SplitOnce(line, sep);
      line == r.0 + [sep] + r.1 && sep !in r.0
  {
    if line[0] != sep {
      assert sep in line[1..];
      SplitOnceParts(line[1..], sep);
      assert line == [line[0]] + line[1..];
    }
  }

  predicate IsDoubleQuote(c: char) { c == '"' }
  predicate IsSingleQuote(c: char) { c == '\'' }

  /** `value.strip().strip('"').strip("'")`. */
  function Unquote(value: string): string {
    StripChars(StripChars(Strip(value), IsDoubleQuote), IsSingleQuote)
  }

  lemma StripCharsWithin(s: string, strip: char -> bool)
    ensures forall c :: c in StripChars(s, strip) ==> c in s
  {
    var l := TrimLeft(s, strip);
    assert forall c :: c in l ==> c in s by {
      forall c | c in l ensures c in s {
        var i :| 0 <= i < |l| && l[i] == c;
        assert s[|s| - |l| + i] == c;
      }
    }
    var r := TrimRight(l, strip);
    assert forall c :: c in r ==> c in l by {
      forall c | c in r ensures c in l {
        var i :| 0 <= i < |r| && r[i] == c;
        assert l[i] == c;
      }
    }
  }

  /** One line of the file: skipped (None), or split into a key and a value. */
  function ParseLine(raw: string): Option<Entry>
  {
    var line := Strip(raw);
    if line == "" || line[0] == '#' || '=' !in line then None
    else
      var parts := SplitOnce(line, '=');
      Some(Entry(Strip(parts.0), Unquote(parts.1)))
  }

  /**
   * After stripping, a blank line, a comment (`#` first) and a line without `=` are
   * skipped; any other line splits at its first `=`, so the key never holds `=` and the
   * value keeps any later ones.
   */
  lemma ParseLineCases(raw: string)
    ensures var line := Strip(raw);
      ParseLine(raw).None? <==> line == "" || line[0] == '#' || '=' !in line
    ensures ParseLine(raw).Some? ==>
      exists key, value :: Strip(raw) == key + "=" + value && '=' !in key
        && ParseLine(raw).value == Entry(Strip(key), Unquote(value))
    ensures ParseLine(raw).Some? ==> '=' !in ParseLine(raw).value.key
  {
    var line := Strip(raw);
    if ParseLine(raw).Some? {
      var parts := SplitOnce(line, '=');
      SplitOnceParts(line, '=');
      assert line == parts.0 + "=" + parts.1;
      StripCharsWithin(parts.0, IsSpace);
    }
  }

  /** `f` applied to each element. */
  function MapSeq<A, B>(f: A -> B, xs: seq<A>): (r: seq<B>)
    ensures |r| == |xs|
  {
    if xs == [] then [] else MapSeq(f, xs[..|xs| - 1]) + [f(xs[|xs| - 1])]
  }

  lemma {:induction false} MapSeqAt<A, B>(f: A -> B, xs: seq<A>, i: nat)
    requires i < |xs|
    ensures MapSeq(f, xs)[i] == f(xs[i])
  {
    var init := xs[..|xs| - 1];
    if i < |init| {
      MapSeqAt(f, init, i);
      assert init[i] == xs[i];
    }
  }

  lemma MapSeqStep<A, B>(f: A -> B, xs: seq<A>, n: nat)
    requires n < |xs|
    ensures MapSeq(f, xs[..n + 1]) == MapSeq(f, xs[..n]) + [f(xs[n])]
  {
    assert xs[..n + 1][..n] == xs[..n];
  }

  /** Each line parsed on its own. */
  function ParseLines(lines: seq<string>): seq<Option<Entry>> {
    MapSeq(ParseLine, lines)
  }

  /** One parsed line applied to the environment: a new non-empty key is set, anything else is ignored. */
  function Apply(env: map<string, string>, e: Option<Entry>): map<string, string> {
    match e
    case Some(Entry(key, value)) => if key != "" && key !in env then env[key := value] else env
    case None => env
  }

  /** The loop over the parsed lines, writing into the environment `env`. */
  function LoadEntries(env: map<string, string>, entries: seq<Option<Entry>>): map<string, string> {
    if entries == [] then env
    else Apply(LoadEntries(env, entries[..|entries| - 1]), entries[|entries| - 1])
  }

  lemma LoadEntriesSnoc(env: map<string, string>, entries: seq<Option<Entry>>, e: Option<Entry>)
    ensures LoadEntries(env, entries + [e]) == Apply(LoadEntries(env, entries), e)
  {
    assert (entries + [e])[..|entries|] == entries;
  }

  /** The environment after the loop over the file's lines. */
  function LoadLines(env: map<string, string>, lines: seq<string>): map<string, string> {
    LoadEntries(env, ParseLines(lines))
  }

  /** The parsed line `entries[i]` names `key`. */
  predicate Names(entries: seq<Option<Entry>>, i: int, key: string)
    requires 0 <= i < |entries|
  {
    entries[i].Some? && entries[i].value.key == key
  }

  /** A key already in the environment keeps its value. */
  lemma {:induction false} ExistingKept(env: map<string, string>, entries: seq<Option<Entry>>, key: string)
    requires key in env
    ensures key in LoadEntries(env, entries) && LoadEntries(env, entries)[key] == env[key]
  {
    if entries != [] {
      ExistingKept(env, entries[..|entries| - 1], key);
    }
  }

  /**
   * The keys afterwards are those before plus the non-empty keys the lines name: no other
   * key appears, and the empty key is never added.
   */
  lemma {:induction false} LoadedKeys(env: map<string, string>, entries: seq<Option<Entry>>, key: string)
    ensures key in LoadEntries(env, entries) <==>
      key in env || (key != "" && exists i :: 0 <= i < |entries| && Names(entries, i, key))
  {
    if entries != [] {
      var n := |entries| - 1;
      var init := entries[..n];
      LoadedKeys(env, init, key);
      assert LoadEntries(env, entries) == Apply(LoadEntries(env, init), entries[n]);
      var named := exists i :: 0 <= i < |entries| && Names(entries, i, key);
      var namedBefore := exists i :: 0 <= i < |init| && Names(init, i, key);
      if namedBefore {
        var i :| 0 <= i < |init| && Names(init, i, key);
        assert Names(entries, i, key);
      }
      if named {
        var i :| 0 <= i < |entries| && Names(entries, i, key);
        if i < n {
          assert Names(init, i, key);
        }
      }
      assert named <==> namedBefore || Names(entries, n, key);
    }
  }

  /** For a key not set before, the first line that names it decides its value. */
  lemma {:induction false} FirstOccurrenceWins(env: map<string, string>, entries: seq<Option<Entry>>, i: nat)
    requires i < |entries| && entries[i].Some?
    requires var key := entries[i].value.key;
      key != "" && key !in env && forall j :: 0 <= j < i ==> !Names(entries, j, key)
    ensures var e := entries[i].value;
      e.key in LoadEntries(env, entries) && LoadEntries(env, entries)[e.key] == e.value
  {
    var e := entries[i].value;
    var n := |entries| - 1;
    var init := entries[..n];
    var before := LoadEntries(env, init);
    assert LoadEntries(env, entries) == Apply(before, entries[n]);
    if i == n {
      LoadedKeys(env, init, e.key);
      if e.key in before {
        var j :| 0 <= j < |init| && Names(init, j, e.key);
        assert Names(entries, j, e.key);
      }
    } else {
      assert init[i] == entries[i];
      forall j | 0 <= j < i
        ensures !Names(init, j, e.key)
      {
        assert init[j] == entries[j];
        assert !Names(entries, j, e.key);
      }
      FirstOccurrenceWins(env, init, i);
    }
  }

  /** `os.environ`, which the loop writes in place. */
  class Environ {
    var vars: map<string, string>

    constructor (vars: map<string, string>)
      ensures this.vars == vars
    {
      this.vars := vars;
    }
  }

  /** `_load_env_file`: a missing file changes nothing; otherwise each line is applied in turn. */
  method LoadEnvFile(environ: Environ, file: Option<seq<string>>)
    modifies environ
    ensures file.None? ==> environ.vars == old(environ.vars)
    ensures file.Some? ==> environ.vars == LoadLines(old(environ.vars), file.value)
  {
    if file.None? {
      return;
    }
    var lines := file.value;
    for n := 0 to |lines|
      invariant environ.vars == LoadLines(old(environ.vars), lines[..n])
    {
      MapSeqStep(ParseLine, lines, n);
      LoadEntriesSnoc(old(environ.vars), ParseLines(lines[..n]), ParseLine(lines[n]));
      var line := Strip(lines[n]);
      if line == "" || line[0] == '#' || '=' !in line {
        continue;
      }
      var parts := SplitOnce(line, '=');
      var key := Strip(parts.0);
      var value := Unquote(parts.1);
      if key != "" && key !in environ.vars {
        environ.vars := environ.vars[key := value];
      }
    }
    assert lines[..|lines|] == lines;
  }
}
