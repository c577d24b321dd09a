/**
 * `.env` handling (`utils/env.py`): loading `KEY=VALUE` lines into the
 * process environment without overriding what is already set, and reading
 * one key's value without touching the environment.
 *
 * The file is a parameter: `None` when there is no `.env` in the working
 * directory, otherwise its text after newline translation.
 */
module DotEnv {
  import opened Wrappers
  import opened Text

  // ---------------------------------------------------------------------
  // Lines
  // ---------------------------------------------------------------------

  /** The lines `for raw in fh` yields, without their '\n': the pieces between newlines. */
  function Lines(s: string): (r: seq<string>)
    ensures |r| >= 1
  {
    if s == [] then [[]] else ConsLine(s[0], Lines(s[1..]))
  }

  /** The lines of `[c] + s` from the lines of `s`. */
  function ConsLine(c: char, rest: seq<string>): (r: seq<string>)
    requires |rest| >= 1
    ensures |r| >= 1
  {
    if c == '\n' then [[]] + rest else [[c] + rest[0]] + rest[1..]
  }

  /** No line holds a newline. */
  lemma {:induction false} LinesHaveNoNewline(s: string)
    ensures forall i :: 0 <= i < |Lines(s)| ==> '\n' !in Lines(s)[i]
  {
    if s != [] {
      LinesHaveNoNewline(s[1..]);
      ConsLineNoNewline(s[0], Lines(s[1..]));
    }
  }

  lemma ConsLineNoNewline(c: char, rest: seq<string>)
    requires |rest| >= 1 && forall i :: 0 <= i < |rest| ==> '\n' !in rest[i]
    ensures forall i :: 0 <= i < |ConsLine(c, rest)| ==> '\n' !in ConsLine(c, rest)[i]
  {
    if c != '\n' {
      assert '\n' !in [c] + rest[0];
    }
  }

  /** Joining the lines with newlines gives back the file. */
  lemma {:induction false} JoinLines(s: string)
    ensures Join(Lines(s), '\n') == s
  {
    if s != [] {
      JoinLines(s[1..]);
      JoinConsLine(s[0], Lines(s[1..]));
      assert s == [s[0]] + s[1..];
    }
  }

  lemma JoinConsLine(c: char, rest: seq<string>)
    requires |rest| >= 1
    ensures Join(ConsLine(c, rest), '\n') == [c] + Join(rest, '\n')
  {
    if c == '\n' {
      JoinBlankHead(rest);
    } else {
      JoinHead(c, rest[0], rest[1..]);
      assert [rest[0]] + rest[1..] == rest;
    }
  }

  lemma JoinBlankHead(rest: seq<string>)
    requires |rest| >= 1
    ensures Join([[]] + rest, '\n') == ['\n'] + Join(rest, '\n')
  {
    JoinCons([], rest, '\n');
    assert [] + ['\n'] == ['\n'];
  }

  lemma JoinHead(c: char, r0: string, tl: seq<string>)
    ensures Join([[c] + r0] + tl, '\n') == [c] + Join([r0] + tl, '\n')
  {
    var t := JoinTail(tl, '\n');
    JoinFirst([c] + r0, tl, '\n');
    JoinFirst(r0, tl, '\n');
    assert ([c] + r0) + t == [c] + (r0 + t);
  }


  // ---------------------------------------------------------------------
  // One line
  // ---------------------------------------------------------------------

  /** The first position of `c` in `s`: `s.split(c, 1)` cuts there. */
  function IndexOf(s: string, c: char): (i: nat)
    requires c in s
    ensures i < |s| && s[i] == c && c !in s[..i]
  {
    if s[0] == c then 0
    else
      var j := IndexOf(s[1..], c);
      assert s[..j + 1] == [s[0]] + s[1..][..j];
      j + 1
  }

  /** `v.strip().strip('"').strip("'")` */
  function CleanValue(v: string): string
  {
    StripQuotes(Strip(v, Whitespace))
  }

  /** `.strip('"').strip("'")` */
  function StripQuotes(u: string): string
  {
    Strip(Strip(u, Only('"')), Only('\''))
  }

  /**
   * A line's `(key, value)`: `None` for a blank line, a comment or a line
   * without '='; otherwise the stripped text before the first '=' and the
   * cleaned text after it.
   */
  function ParseLine(raw: string): (r: Option<(string, string)>)
    ensures r.Some? ==> '=' !in r.value.0
  {
    ParseStripped(Strip(raw, Whitespace))
  }

  function ParseStripped(line: string): (r: Option<(string, string)>)
    ensures r.Some? ==> '=' !in r.value.0
  {
    if line == [] || line[0] == '#' || '=' !in line then None
    else SplitAt(line, IndexOf(line, '='))
  }

  /** `k, v = line.split("=", 1)` with `k.strip()` and the cleaned `v`. */
  function SplitAt(line: string, i: nat): (r: Option<(string, string)>)
    requires i < |line| && '=' !in line[..i]
    ensures r.Some? && '=' !in r.value.0
  {
    StripInside(line[..i], Whitespace);
    Some((Strip(line[..i], Whitespace), CleanValue(line[i + 1..])))
  }

  lemma StripInside(s: string, st: StripSet)
    ensures forall c :: c in Strip(s, st) ==> c in s
  {
    var l := TrimLeft(s, st);
    assert forall c :: c in TrimRight(l, st) ==> c in l;
    assert forall c :: c in l ==> c in s;
  }

  /** A string the given strip leaves alone. */
  predicate Unstripped(s: string, st: StripSet)
  {
    s == [] || (!Strips(st, s[0]) && !Strips(st, s[|s| - 1]))
  }

  lemma StripUnstripped(s: string, st: StripSet)
    requires Unstripped(s, st)
    ensures Strip(s, st) == s
  {
    TrimLeftKeptStart(s, st);
  }

  /** A key `KEY=VALUE` can carry: nonempty, no '=', not a comment, no surrounding whitespace. */
  predicate IsKey(k: string)
  {
    k != [] && '=' !in k && k[0] != '#' && Unstripped(k, Whitespace)
  }

  /** A value that comes back as written: no surrounding whitespace or quotes. */
  predicate IsPlainValue(v: string)
  {
    Unstripped(v, Whitespace) && Unstripped(v, Only('"')) && Unstripped(v, Only('\''))
  }

  /** Writing `KEY=VALUE` and parsing it gives back the key and the value. */
  lemma ParseLineRoundTrip(k: string, v: string)
    requires IsKey(k) && IsPlainValue(v)
    ensures ParseLine(k + ['='] + v) == Some((k, v))
  {
    var line := k + ['='] + v;
    assert line[..|k|] == k;
    assert line[|k|] == '=';
    assert line[|k| + 1..] == v;
    assert Strip(line, Whitespace) == line by {
      assert line[0] == k[0];
      assert line[|line| - 1] == if v == [] then '=' else v[|v| - 1];
      StripUnstripped(line, Whitespace);
    }
    ParseLineAt(line, |k|);
    StripUnstripped(k, Whitespace);
    assert CleanValue(v) == v by {
      StripUnstripped(v, Whitespace);
      StripUnstripped(v, Only('"'));
      StripUnstripped(v, Only('\''));
    }
  }

  /** A strip removes one stripped character from each end of a string it otherwise leaves alone. */
  lemma StripWrapped(v: string, st: StripSet, c: char)
    requires Strips(st, c) && Unstripped(v, st)
    ensures Strip([c] + v + [c], st) == v
  {
    var w := [c] + v + [c];
    assert w == [c] + (v + [c]);
    if v == [] {
      assert w == [c, c];
      TrimLeftAll(w, st);
    } else {
      assert (v + [c])[0] == v[0];
      TrimLeftOnce(c, v + [c], st);
      TrimRightOnce(v, c, st);
    }
  }

  lemma TrimLeftOnce(c: char, u: string, st: StripSet)
    requires Strips(st, c) && (u == [] || !Strips(st, u[0]))
    ensures TrimLeft([c] + u, st) == u
  {
    assert ([c] + u)[1..] == u;
  }

  lemma TrimRightOnce(u: string, c: char, st: StripSet)
    requires Strips(st, c) && (u == [] || !Strips(st, u[|u| - 1]))
    ensures TrimRight(u + [c], st) == u
  {
    assert (u + [c])[..|u|] == u;
  }

  lemma TrimLeftAll(w: string, st: StripSet)
    requires |w| == 2 && Strips(st, w[0]) && Strips(st, w[1])
    ensures TrimLeft(w, st) == []
  {
    assert w[1..][1..] == [];
  }

  /** `"value"` comes back as `value`. */
  lemma CleanValueDoubleQuoted(v: string)
    requires IsPlainValue(v)
    ensures CleanValue(['"'] + v + ['"']) == v
  {
    QuotedKeepsSpace(v, '"');
    StripQuotesDouble(v);
  }

  /** `'value'` comes back as `value`. */
  lemma CleanValueSingleQuoted(v: string)
    requires IsPlainValue(v)
    ensures CleanValue(['\''] + v + ['\'']) == v
  {
    QuotedKeepsSpace(v, '\'');
    StripQuotesSingle(v);
  }

  lemma QuotedKeepsSpace(v: string, q: char)
    requires q == '"' || q == '\''
    ensures Strip([q] + v + [q], Whitespace) == [q] + v + [q]
  {
    var w := [q] + v + [q];
    assert w[0] == q && w[|w| - 1] == q;
    StripUnstripped(w, Whitespace);
  }

  lemma StripQuotesDouble(v: string)
    requires IsPlainValue(v)
    ensures StripQuotes(['"'] + v + ['"']) == v
  {
    StripWrapped(v, Only('"'), '"');
    StripUnstripped(v, Only('\''));
  }

  lemma StripQuotesSingle(v: string)
    requires IsPlainValue(v)
    ensures StripQuotes(['\''] + v + ['\'']) == v
  {
    StripWrapped(v, Only('\''), '\'');
    SingleQuotedKeepsDouble(v);
  }

  lemma SingleQuotedKeepsDouble(v: string)
    ensures Strip(['\''] + v + ['\''], Only('"')) == ['\''] + v + ['\'']
  {
    var w := ['\''] + v + ['\''];
    assert w[0] == '\'' && w[|w| - 1] == '\'';
    StripUnstripped(w, Only('"'));
  }

  /**
   * `KEY=raw`, with a key as above and a raw value that does not start or end
   * with whitespace, parses to the key and the cleaned value.
   */
  lemma ParseLineCleaned(k: string, raw: string)
    requires IsKey(k) && raw != [] && Unstripped(raw, Whitespace)
    ensures ParseLine(k + ['='] + raw) == Some((k, CleanValue(raw)))
  {
    var line := k + ['='] + raw;
    assert line[..|k|] == k;
    assert line[|k|] == '=';
    assert line[|k| + 1..] == raw;
    assert Strip(line, Whitespace) == line by {
      assert line[0] == k[0];
      assert line[|line| - 1] == raw[|raw| - 1];
      StripUnstripped(line, Whitespace);
    }
    ParseLineAt(line, |k|);
    StripUnstripped(k, Whitespace);
  }

  /** `KEY='value'` parses to the key and the unquoted value. */
  lemma ParseLineSingleQuoted(k: string, v: string)
    requires IsKey(k) && IsPlainValue(v)
    ensures ParseLine(k + ['='] + (['\''] + v + ['\''])) == Some((k, v))
  {
    var raw := ['\''] + v + ['\''];
    assert raw[0] == '\'' && raw[|raw| - 1] == '\'';
    ParseLineCleaned(k, raw);
    CleanValueSingleQuoted(v);
  }

  /** A stripped, uncommented line splits at its first '='. */
  lemma ParseLineAt(line: string, i: nat)
    requires Strip(line, Whitespace) == line && line != [] && line[0] != '#'
    requires i < |line| && line[i] == '=' && '=' !in line[..i]
    ensures ParseLine(line) == SplitAt(line, i)
  {
    assert '=' in line;
    var j := IndexOf(line, '=');
    assert j == i by {
      NoneBefore(line, i, '=');
      NoneBefore(line, j, '=');
    }
    assert ParseStripped(line) == SplitAt(line, i);
  }

  lemma NoneBefore(s: string, n: nat, c: char)
    requires n <= |s| && c !in s[..n]
    ensures forall p :: 0 <= p < n ==> s[p] != c
  {
    forall p | 0 <= p < n
      ensures s[p] != c
    {
      assert s[..n][p] == s[p];
    }
  }

  // ---------------------------------------------------------------------
  // read_dotenv_value
  // ---------------------------------------------------------------------

  /** A parsed line: its key and value, or `None` for a line that is skipped. */
  type Entry = Option<(string, string)>

  /** Every line of the file, parsed. */
  function Entries(lines: seq<string>): (r: seq<Entry>)
    ensures |r| == |lines|
    ensures forall i :: 0 <= i < |lines| ==> r[i] == ParseLine(lines[i])
  {
    seq(|lines|, i requires 0 <= i < |lines| => ParseLine(lines[i]))
  }

  /** The value of the first entry whose key is `key`. */
  function FirstValue(es: seq<Entry>, key: string): Option<string>
  {
    if es == [] then None
    else if es[0].Some? && es[0].value.0 == key then Some(es[0].value.1)
    else FirstValue(es[1..], key)
  }

  /** What `read_dotenv_value(key)` returns. */
  function DotenvValue(file: Option<string>, key: string): Option<string>
  {
    if file.None? then None else FirstValue(Entries(Lines(file.value)), key)
  }

  /** `read_dotenv_value` */
  method ReadDotenvValue(file: Option<string>, key: string) returns (r: Option<string>)
    ensures r == DotenvValue(file, key)
  {
    if file.None? {
      return None;
    }
    var lines := Lines(file.value);
    ghost var es := Entries(lines);
    for i := 0 to |lines|
      invariant FirstValue(es[i..], key) == FirstValue(es, key)
    {
      assert es[i..][1..] == es[i + 1..];
      var p := ParseLine(lines[i]);
      if p.Some? && p.value.0 == key {
        return Some(p.value.1);
      }
    }
    return None;
  }

  /** Entry `i` has key `key` and value `value`. */
  predicate DefinesAt(es: seq<Entry>, i: int, key: string, value: string)
  {
    0 <= i < |es| && es[i] == Some((key, value))
  }

  /** No entry before `i` has key `key`. */
  predicate NoEarlierKey(es: seq<Entry>, i: int, key: string)
    requires 0 <= i <= |es|
  {
    forall j :: 0 <= j < i ==> es[j].None? || es[j].value.0 != key
  }

  /** The value read is that of the first line with the key, and there is none when no line has it. */
  lemma {:induction false} FirstValueMeaning(es: seq<Entry>, key: string)
    ensures FirstValue(es, key).None? <==> NoEarlierKey(es, |es|, key)
    ensures FirstValue(es, key).Some? ==>
      exists i :: DefinesAt(es, i, key, FirstValue(es, key).value) && NoEarlierKey(es, i, key)
  {
    if es != [] {
      var tail := es[1..];
      FirstValueMeaning(tail, key);
      if es[0].Some? && es[0].value.0 == key {
        assert DefinesAt(es, 0, key, es[0].value.1) && NoEarlierKey(es, 0, key);
      } else {
        assert forall j :: 0 < j < |es| ==> es[j] == tail[j - 1];
        if FirstValue(tail, key).Some? {
          var i :| DefinesAt(tail, i, key, FirstValue(tail, key).value) && NoEarlierKey(tail, i, key);
          assert DefinesAt(es, i + 1, key, FirstValue(es, key).value);
        }
      }
    }
  }

  // ---------------------------------------------------------------------
  // load_env_from_dotenv
  // ---------------------------------------------------------------------

  /** One entry's effect on the environment: a new nonempty key is set, nothing else changes. */
  function LoadEntry(m: map<string, string>, e: Entry): map<string, string>
  {
    if e.Some? && e.value.0 != [] && e.value.0 !in m then m[e.value.0 := e.value.1] else m
  }

  function LoadEntries(m: map<string, string>, es: seq<Entry>): map<string, string>
    decreases |es|
  {
    if es == [] then m else LoadEntries(LoadEntry(m, es[0]), es[1..])
  }

  /** The environment after `load_env_from_dotenv`. */
  function Loaded(m: map<string, string>, file: Option<string>): map<string, string>
  {
    if file.None? then m else LoadEntries(m, Entries(Lines(file.value)))
  }

  /** `os.environ` */
  class Environ {
    var vars: map<string, string>

    constructor (initial: map<string, string>)
      ensures vars == initial
    {
      vars := initial;
    }

    /** `load_env_from_dotenv` */
    method LoadEnvFromDotenv(file: Option<string>)
      modifies this
      ensures vars == Loaded(old(vars), file)
    {
      if file.None? {
        return;
      }
      var lines := Lines(file.value);
      ghost var es := Entries(lines);
      for i := 0 to |lines|
        invariant LoadEntries(vars, es[i..]) == Loaded(old(vars), file)
      {
        assert es[i..][1..] == es[i + 1..];
        var p := ParseLine(lines[i]);
        if p.Some? {
          var key, val := p.value.0, p.value.1;
          if key != [] && key !in vars {
            vars := vars[key := val];
          }
        }
      }
    }
  }

  /** Loading never overrides a variable that is already set. */
  lemma {:induction false} LoadEntriesKeeps(m: map<string, string>, es: seq<Entry>)
    ensures forall k :: k in m ==> k in LoadEntries(m, es) && LoadEntries(m, es)[k] == m[k]
    decreases |es|
  {
    if es != [] {
      LoadEntriesKeeps(LoadEntry(m, es[0]), es[1..]);
    }
  }

  /** Every variable loading adds is the key of some line of the file. */
  lemma {:induction false} LoadEntriesAddsOnlyFileKeys(m: map<string, string>, es: seq<Entry>)
    ensures forall k :: k in LoadEntries(m, es) ==>
      k in m || exists i :: 0 <= i < |es| && es[i].Some? && es[i].value.0 == k
    decreases |es|
  {
    if es != [] {
      var m' := LoadEntry(m, es[0]);
      LoadEntriesAddsOnlyFileKeys(m', es[1..]);
      forall k | k in LoadEntries(m, es) && k !in m
        ensures exists i :: 0 <= i < |es| && es[i].Some? && es[i].value.0 == k
      {
        if k in m' {
          assert es[0].Some? && es[0].value.0 == k;
        } else {
          var i :| 0 <= i < |es[1..]| && es[1..][i].Some? && es[1..][i].value.0 == k;
          assert es[1..][i] == es[i + 1];
        }
      }
    }
  }

  /**
   * For a nonempty key not yet set, loading sets it exactly when reading the
   * file finds it, and to the same value: the first line with the key wins.
   */
  lemma {:induction false} LoadAgreesWithRead(m: map<string, string>, es: seq<Entry>, k: string)
    requires k != [] && k !in m
    ensures k in LoadEntries(m, es) <==> FirstValue(es, k).Some?
    ensures k in LoadEntries(m, es) ==> LoadEntries(m, es)[k] == FirstValue(es, k).value
    decreases |es|
  {
    if es != [] {
      var m' := LoadEntry(m, es[0]);
      if es[0].Some? && es[0].value.0 == k {
        LoadEntriesKeeps(m', es[1..]);
      } else {
        LoadAgreesWithRead(m', es[1..], k);
      }
    }
  }

  /** With a `.env` file, the loaded environment keeps every old value and takes new keys from the file. */
  lemma LoadedMeaning(m: map<string, string>, file: Option<string>, k: string)
    ensures k in m ==> k in Loaded(m, file) && Loaded(m, file)[k] == m[k]
    ensures k != [] && k !in m ==>
      (k in Loaded(m, file) <==> DotenvValue(file, k).Some?)
      && (k in Loaded(m, file) ==> Loaded(m, file)[k] == DotenvValue(file, k).value)
  {
    if file.Some? {
      LoadEntriesKeeps(m, Entries(Lines(file.value)));
      if k != [] && k !in m {
        LoadAgreesWithRead(m, Entries(Lines(file.value)), k);
      }
    }
  }
}
