/**
 * String primitives shared by the whole core, written the way the source's
 * Python expressions behave: `str.lower`, `re.sub(r"[^...]+", c, s)`,
 * `str.strip`, `str.split`, `" ".join`, `in` on strings and `sorted` on a
 * list of strings.
 *
 * The central fact proved here is that the source's three-step title
 * normalisation (lower-case, replace every run of non `[a-z0-9]` characters
 * by one space, strip, collapse whitespace runs) equals "the lower-case
 * alphanumeric words of the input joined by single spaces", from which its
 * character set, its shape and its idempotence follow.
 */
module Text {

  // ---------------------------------------------------------------------
  // Characters
  // ---------------------------------------------------------------------

  predicate IsLowerAlnum(c: char) { 'a' <= c <= 'z' || '0' <= c <= '9' }

  predicate IsAsciiUpper(c: char) { 'A' <= c <= 'Z' }

  predicate IsAsciiLower(c: char) { 'a' <= c <= 'z' }

  /** Python's `str.isspace`: the characters `strip()`, `split()` and `\s` treat as whitespace. */
  predicate IsSpace(c: char)
  {
    ('\t' <= c <= '\r') || ('\U{1c}' <= c <= ' ') || c == '\U{85}' || c == '\U{a0}'
    || c == '\U{1680}' || ('\U{2000}' <= c <= '\U{200a}') || c == '\U{2028}' || c == '\U{2029}'
    || c == '\U{202f}' || c == '\U{205f}' || c == '\U{3000}'
  }

  /** `str.lower` on one character; only ASCII letters are mapped. */
  function LowerChar(c: char): (r: char)
    ensures IsAsciiUpper(c) ==> IsAsciiLower(r)
    ensures !IsAsciiUpper(r)
    ensures IsLowerAlnum(c) ==> r == c
  {
    if IsAsciiUpper(c) then (c as int + 32) as char else c
  }

  /** `str.upper` on one character; only ASCII letters are mapped. */
  function UpperChar(c: char): (r: char)
    ensures IsAsciiLower(c) ==> IsAsciiUpper(r) && LowerChar(r) == c
    ensures !IsAsciiLower(c) ==> r == c
  {
    if IsAsciiLower(c) then (c as int - 32) as char else c
  }

  /** `s.lower()` */
  function Lower(s: string): (r: string)
    ensures |r| == |s|
    ensures forall i :: 0 <= i < |s| ==> r[i] == LowerChar(s[i])
  {
    if s == [] then [] else [LowerChar(s[0])] + Lower(s[1..])
  }

  lemma LowerOfLowerAlnum(s: string)
    requires forall i :: 0 <= i < |s| ==> IsLowerAlnum(s[i]) || s[i] == ' ' || s[i] == '-'
    ensures Lower(s) == s
  {
  }

  // ---------------------------------------------------------------------
  // re.sub over maximal runs
  // ---------------------------------------------------------------------

  /**
   * The characters a substitution `re.sub(r"<class>+", rep, s)` leaves in
   * place; every maximal run of the other characters becomes one `rep`.
   */
  datatype Keep =
    | LowerAlnum     // re.sub(r"[^a-z0-9]+", ...)
    | AlnumOrHyphen  // re.sub(r"[^A-Za-z0-9-]+", ...)
    | NotHyphen      // re.sub(r"-+", ...)
    | NotSpace       // re.sub(r"\s+", ...)

  predicate Keeps(k: Keep, c: char)
  {
    match k
    case LowerAlnum => IsLowerAlnum(c)
    case AlnumOrHyphen => IsLowerAlnum(c) || IsAsciiUpper(c) || c == '-'
    case NotHyphen => c != '-'
    case NotSpace => !IsSpace(c)
  }

  /** Drops the leading run of characters that `k` does not keep. */
  function SkipRun(s: string, k: Keep): (r: string)
    ensures |r| <= |s| && r == s[|s| - |r|..]
    ensures r == [] || Keeps(k, r[0])
    ensures forall i :: 0 <= i < |s| - |r| ==> !Keeps(k, s[i])
  {
    if s == [] || Keeps(k, s[0]) then s else SkipRun(s[1..], k)
  }

  /** `re.sub(r"<complement of k>+", [rep], s)` */
  function SubRuns(s: string, k: Keep, rep: char): string
    decreases |s|
  {
    if s == [] then []
    else if Keeps(k, s[0]) then [s[0]] + SubRuns(s[1..], k, rep)
    else [rep] + SubRuns(SkipRun(s[1..], k), k, rep)
  }

  lemma SubRunsStartsKept(s: string, k: Keep, rep: char)
    requires s != [] && Keeps(k, s[0])
    ensures SubRuns(s, k, rep) != [] && SubRuns(s, k, rep)[0] == s[0]
  {
  }

  lemma SubRunsKeptCons(c: char, z: string, k: Keep, rep: char)
    requires Keeps(k, c)
    ensures SubRuns([c] + z, k, rep) == [c] + SubRuns(z, k, rep)
  {
    assert ([c] + z)[1..] == z;
  }

  lemma {:induction false} SubRunsKeptPrefix(w: string, y: string, k: Keep, rep: char)
    requires forall i :: 0 <= i < |w| ==> Keeps(k, w[i])
    ensures SubRuns(w + y, k, rep) == w + SubRuns(y, k, rep)
    decreases |w|
  {
    if w != [] {
      var z := w[1..] + y;
      assert w + y == [w[0]] + z;
      SubRunsKeptCons(w[0], z, k, rep);
      SubRunsKeptPrefix(w[1..], y, k, rep);
      assert w == [w[0]] + w[1..];
      ConcatAssoc([w[0]], w[1..], SubRuns(y, k, rep));
    } else {
      assert w + y == y;
    }
  }

  // ---------------------------------------------------------------------
  // str.strip
  // ---------------------------------------------------------------------

  /** What a Python strip removes: `strip()` (whitespace) or `strip(c)`. */
  datatype StripSet = Whitespace | Only(c: char)

  predicate Strips(st: StripSet, c: char)
  {
    match st
    case Whitespace => IsSpace(c)
    case Only(d) => c == d
  }

  function TrimLeft(s: string, st: StripSet): (r: string)
    ensures |r| <= |s| && r == s[|s| - |r|..]
    ensures r == [] || !Strips(st, r[0])
  {
    if s != [] && Strips(st, s[0]) then TrimLeft(s[1..], st) else s
  }

  function TrimRight(s: string, st: StripSet): (r: string)
    ensures |r| <= |s| && r == s[..|r|]
    ensures r == [] || !Strips(st, r[|r| - 1])
  {
    if s != [] && Strips(st, s[|s| - 1]) then TrimRight(s[..|s| - 1], st) else s
  }

  /** `s.strip()` or `s.strip(c)` */
  function Strip(s: string, st: StripSet): (r: string)
    ensures r == [] || (!Strips(st, r[0]) && !Strips(st, r[|r| - 1]))
  {
    TrimRight(TrimLeft(s, st), st)
  }

  /** Strip leaves a string alone when neither end is stripped. */
  lemma StripUntouched(s: string, st: StripSet)
    requires s != [] && !Strips(st, s[0]) && !Strips(st, s[|s| - 1])
    ensures Strip(s, st) == s
  {
  }

  lemma TrimLeftStripsCons(c: char, y: string, st: StripSet)
    requires Strips(st, c)
    ensures TrimLeft([c] + y, st) == TrimLeft(y, st)
  {
    assert ([c] + y)[1..] == y;
  }

  lemma TrimLeftKeptStart(s: string, st: StripSet)
    requires s == [] || !Strips(st, s[0])
    ensures TrimLeft(s, st) == s
  {
  }

  /** Stripping on the right of `a + y` only reaches into `a` once `y` is used up. */
  lemma {:induction false} TrimRightAppend(a: string, y: string, st: StripSet)
    ensures TrimRight(a + y, st)
         == if TrimRight(y, st) == [] then TrimRight(a, st) else a + TrimRight(y, st)
    decreases |y|
  {
    if y == [] {
      assert a + y == a;
    } else if Strips(st, y[|y| - 1]) {
      var y' := y[..|y| - 1];
      assert (a + y)[..|a + y| - 1] == a + y';
      TrimRightAppend(a, y', st);
    } else {
    }
  }

  // ---------------------------------------------------------------------
  // Words and joining
  // ---------------------------------------------------------------------

  /** The leading run of characters kept by `k`. */
  function TakeRun(s: string, k: Keep): (w: string)
    ensures |w| <= |s| && w == s[..|w|]
    ensures forall i :: 0 <= i < |w| ==> Keeps(k, w[i])
    ensures |w| == |s| || !Keeps(k, s[|w|])
    ensures s != [] && Keeps(k, s[0]) ==> w != []
  {
    if s != [] && Keeps(k, s[0]) then [s[0]] + TakeRun(s[1..], k) else []
  }

  /** The maximal runs of characters kept by `k`, left to right. */
  function Words(s: string, k: Keep): seq<string>
    decreases |s|
  {
    var t := SkipRun(s, k);
    if t == [] then []
    else
      var w := TakeRun(t, k);
      [w] + Words(t[|w|..], k)
  }

  /** A nonempty run of characters kept by `k`. */
  predicate IsRun(w: string, k: Keep)
  {
    w != [] && forall j :: 0 <= j < |w| ==> Keeps(k, w[j])
  }

  predicate AllRuns(ws: seq<string>, k: Keep)
  {
    forall i :: 0 <= i < |ws| ==> IsRun(ws[i], k)
  }

  lemma {:induction false} WordsAreRuns(s: string, k: Keep)
    ensures AllRuns(Words(s, k), k)
    decreases |s|
  {
    var t := SkipRun(s, k);
    if t != [] {
      var w := TakeRun(t, k);
      WordsAreRuns(t[|w|..], k);
      FirstWordIsRun(t, k);
      AllRunsCons(w, Words(t[|w|..], k), k);
    }
  }

  lemma FirstWordIsRun(t: string, k: Keep)
    requires t != [] && Keeps(k, t[0])
    ensures IsRun(TakeRun(t, k), k)
  {
  }

  lemma AllRunsCons(w: string, ws: seq<string>, k: Keep)
    requires IsRun(w, k) && AllRuns(ws, k)
    ensures AllRuns([w] + ws, k)
  {
    assert forall i :: 1 <= i < |[w] + ws| ==> ([w] + ws)[i] == ws[i - 1];
  }

  /** `sep.join(ws)` */
  function Join(ws: seq<string>, sep: char): (r: string)
    ensures ws == [] ==> r == []
  {
    if ws == [] then [] else if |ws| == 1 then ws[0] else ws[0] + [sep] + Join(ws[1..], sep)
  }

  lemma JoinCons(w: string, ws: seq<string>, sep: char)
    requires ws != []
    ensures Join([w] + ws, sep) == w + [sep] + Join(ws, sep)
  {
    assert ([w] + ws)[1..] == ws;
  }

  lemma {:induction false} JoinOfRunsStartsKept(ws: seq<string>, k: Keep, sep: char)
    requires AllRuns(ws, k) && ws != []
    ensures Join(ws, sep) != [] && Join(ws, sep)[0] == ws[0][0]
  {
  }

  /** `Join` with a separator as a prefix of every word: what follows the first word. */
  function JoinTail(ws: seq<string>, sep: char): string
  {
    if ws == [] then [] else [sep] + Join(ws, sep)
  }

  lemma JoinFirst(w: string, ws: seq<string>, sep: char)
    ensures Join([w] + ws, sep) == w + JoinTail(ws, sep)
  {
    if ws == [] {
      assert [w] + ws == [w];
    } else {
      JoinCons(w, ws, sep);
    }
  }

  // ---------------------------------------------------------------------
  // The regex pipeline equals joining the words
  // ---------------------------------------------------------------------

  /** `rep` is stripped by `st` and is not one of the kept characters. */
  predicate Separates(k: Keep, st: StripSet, rep: char)
  {
    Strips(st, rep) && !Keeps(k, rep) && forall c :: Keeps(k, c) ==> !Strips(st, c)
  }

  lemma WordsOfKeptStart(s: string, k: Keep)
    requires s != [] && Keeps(k, s[0])
    ensures Words(s, k) == [TakeRun(s, k)] + Words(s[|TakeRun(s, k)|..], k)
  {
  }

  lemma WordsOfSkip(u: string, k: Keep)
    ensures Words(u, k) == Words(SkipRun(u, k), k)
  {
    var v := SkipRun(u, k);
    assert SkipRun(v, k) == v;
  }

  /** Right-stripping the substitution of a string that starts inside a word. */
  lemma {:induction false} TrimRightSubRunsAtWord(x: string, k: Keep, st: StripSet, rep: char)
    requires Separates(k, st, rep)
    requires x == [] || Keeps(k, x[0])
    ensures TrimRight(SubRuns(x, k, rep), st) == Join(Words(x, k), rep)
    decreases |x|, 1
  {
    if x != [] {
      var w := TakeRun(x, k);
      var u := x[|w|..];
      assert x == w + u;
      SubRunsKeptPrefix(w, u, k, rep);
      WordsOfKeptStart(x, k);
      TrimRightAppend(w, SubRuns(u, k, rep), st);
      TrimRightSubRunsAtGap(u, k, st, rep);
      assert w[|w| - 1] == x[|w| - 1];
      assert TrimRight(w, st) == w;
      JoinFirst(w, Words(u, k), rep);
    }
  }

  /** Right-stripping the substitution of a string that starts in a gap between words. */
  lemma {:induction false} TrimRightSubRunsAtGap(u: string, k: Keep, st: StripSet, rep: char)
    requires Separates(k, st, rep)
    requires u == [] || !Keeps(k, u[0])
    ensures TrimRight(SubRuns(u, k, rep), st) == JoinTail(Words(u, k), rep)
    decreases |u|, 0
  {
    if u != [] {
      var v := SkipRun(u[1..], k);
      assert SkipRun(u, k) == v;
      WordsOfSkip(u, k);
      assert SubRuns(u, k, rep) == [rep] + SubRuns(v, k, rep);
      TrimRightSubRunsAtWord(v, k, st, rep);
      if v == [] {
        assert Words(v, k) == [];
      } else {
        TrimRightGapThenWord(v, k, st, rep);
      }
    }
  }

  /** One separator before a word survives right-stripping. */
  lemma TrimRightGapThenWord(v: string, k: Keep, st: StripSet, rep: char)
    requires Separates(k, st, rep)
    requires v != [] && Keeps(k, v[0])
    requires TrimRight(SubRuns(v, k, rep), st) == Join(Words(v, k), rep)
    ensures TrimRight([rep] + SubRuns(v, k, rep), st) == JoinTail(Words(v, k), rep)
  {
    SubRunsStartsKept(v, k, rep);
    var y := SubRuns(v, k, rep);
    WordsAreRuns(v, k);
    TrimRightAppend([rep], y, st);
    assert Words(v, k) != [] by {
      assert SkipRun(v, k) == v;
    }
    JoinOfRunsStartsKept(Words(v, k), k, rep);
  }

  /** Stripping on the left removes exactly the substituted leading gap. */
  lemma TrimLeftSubRuns(s: string, k: Keep, st: StripSet, rep: char)
    requires Separates(k, st, rep)
    ensures TrimLeft(SubRuns(s, k, rep), st) == SubRuns(SkipRun(s, k), k, rep)
  {
    var t := SkipRun(s, k);
    if t != [] {
      SubRunsStartsKept(t, k, rep);
    }
    TrimLeftKeptStart(SubRuns(t, k, rep), st);
    if t != s {
      assert s != [] && !Keeps(k, s[0]);
      assert SkipRun(s[1..], k) == t;
      SubRunsAtGap(s, k, rep);
      TrimLeftStripsCons(rep, SubRuns(t, k, rep), st);
    }
  }

  /**
   * `re.sub(r"<not k>+", rep, s).strip(...)`: substituting the gaps and then
   * stripping the separators at both ends joins the words.
   */
  lemma StripSubRunsIsJoin(s: string, k: Keep, st: StripSet, rep: char)
    requires Separates(k, st, rep)
    ensures Strip(SubRuns(s, k, rep), st) == Join(Words(s, k), rep)
  {
    TrimLeftSubRuns(s, k, st, rep);
    WordsOfSkip(s, k);
    TrimRightSubRunsAtWord(SkipRun(s, k), k, st, rep);
  }

  /** A joined sequence of runs has no run of separators to substitute. */
  lemma {:induction false} SubRunsOfJoin(ws: seq<string>, k: Keep, k2: Keep, sep: char)
    requires AllRuns(ws, k)
    requires forall c :: Keeps(k, c) ==> Keeps(k2, c)
    requires !Keeps(k2, sep)
    ensures SubRuns(Join(ws, sep), k2, sep) == Join(ws, sep)
    decreases |ws|
  {
    if |ws| == 1 {
      SubRunsKeptPrefix(ws[0], [], k2, sep);
      assert ws[0] + [] == ws[0];
    } else if |ws| > 1 {
      AllRunsTail(ws, k);
      SubRunsOfJoin(ws[1..], k, k2, sep);
      JoinOfRunsStartsKept(ws[1..], k, sep);
      var rest := Join(ws[1..], sep);
      assert Keeps(k2, rest[0]);
      assert forall i :: 0 <= i < |ws[0]| ==> Keeps(k2, ws[0][i]);
      SubRunsAroundSep(ws[0], rest, k2, sep);
      ConcatAssoc(ws[0], [sep], rest);
    }
  }

  lemma ConcatAssoc(a: string, b: string, c: string)
    ensures a + b + c == a + (b + c)
  {
  }

  /** A separator between a kept word and a fixed point of the substitution is left in place. */
  lemma SubRunsAroundSep(w: string, rest: string, k: Keep, sep: char)
    requires forall i :: 0 <= i < |w| ==> Keeps(k, w[i])
    requires !Keeps(k, sep) && rest != [] && Keeps(k, rest[0]) && SubRuns(rest, k, sep) == rest
    ensures SubRuns(w + ([sep] + rest), k, sep) == w + ([sep] + rest)
  {
    var g := [sep] + rest;
    assert g[0] == sep && g[1..] == rest;
    assert SkipRun(rest, k) == rest;
    assert SubRuns(g, k, sep) == [sep] + SubRuns(rest, k, sep);
    SubRunsKeptPrefix(w, g, k, sep);
  }

  lemma {:induction false} TakeRunOfJoin(w: string, y: string, k: Keep)
    requires forall i :: 0 <= i < |w| ==> Keeps(k, w[i])
    requires y == [] || !Keeps(k, y[0])
    ensures TakeRun(w + y, k) == w
    decreases |w|
  {
    if w != [] {
      assert (w + y)[1..] == w[1..] + y;
      TakeRunOfJoin(w[1..], y, k);
    } else {
      assert w + y == y;
    }
  }

  lemma WordsOfRunThenGap(w: string, y: string, k: Keep)
    requires IsRun(w, k)
    requires y == [] || !Keeps(k, y[0])
    ensures Words(w + y, k) == [w] + Words(y, k)
  {
    var s := w + y;
    assert s[0] == w[0];
    WordsOfKeptStart(s, k);
    TakeRunOfJoin(w, y, k);
    assert s[|w|..] == y;
  }

  lemma WordsOfRun(w: string, k: Keep)
    requires IsRun(w, k)
    ensures Words(w, k) == [w]
  {
    WordsOfRunThenGap(w, [], k);
    assert w + [] == w;
    assert Words(w + [], k) == [w] + Words([], k);
    assert Words(w, k) == [w] + Words([], k);
    assert SkipRun([], k) == [];
    assert Words([], k) == [];
  }

  /** Splitting `w + sep + rest` finds `w` and then the words of `rest`. */
  lemma WordsOfRunSepRest(w: string, rest: string, k: Keep, sep: char)
    requires IsRun(w, k)
    requires !Keeps(k, sep)
    requires rest != [] && Keeps(k, rest[0])
    ensures Words(w + [sep] + rest, k) == [w] + Words(rest, k)
  {
    var gap := [sep] + rest;
    assert w + [sep] + rest == w + gap;
    WordsOfRunThenGap(w, gap, k);
    assert gap[1..] == rest;
    assert SkipRun(gap, k) == rest;
    WordsOfSkip(gap, k);
  }

  lemma WordsOfJoinCons(w: string, ws: seq<string>, k: Keep, sep: char)
    requires IsRun(w, k) && AllRuns(ws, k) && ws != []
    requires !Keeps(k, sep)
    requires Words(Join(ws, sep), k) == ws
    ensures Words(Join([w] + ws, sep), k) == [w] + ws
  {
    JoinCons(w, ws, sep);
    JoinOfRunsStartsKept(ws, k, sep);
    WordsOfRunSepRest(w, Join(ws, sep), k, sep);
  }

  /** Splitting a join of runs at its separator gives the runs back. */
  lemma {:induction false} WordsOfJoin(ws: seq<string>, k: Keep, sep: char)
    requires AllRuns(ws, k)
    requires !Keeps(k, sep)
    ensures Words(Join(ws, sep), k) == ws
    decreases |ws|
  {
    if |ws| == 1 {
      WordsOfJoinSingle(ws, k, sep);
    } else if |ws| > 1 {
      AllRunsTail(ws, k);
      WordsOfJoin(ws[1..], k, sep);
      WordsOfJoinStep(ws, k, sep);
    }
  }

  lemma WordsOfJoinStep(ws: seq<string>, k: Keep, sep: char)
    requires |ws| > 1 && AllRuns(ws, k) && !Keeps(k, sep)
    requires Words(Join(ws[1..], sep), k) == ws[1..]
    ensures Words(Join(ws, sep), k) == ws
  {
    AllRunsTail(ws, k);
    WordsOfJoinCons(ws[0], ws[1..], k, sep);
    assert [ws[0]] + ws[1..] == ws;
  }

  lemma WordsOfJoinSingle(ws: seq<string>, k: Keep, sep: char)
    requires |ws| == 1 && AllRuns(ws, k)
    ensures Words(Join(ws, sep), k) == ws
  {
    assert ws == [ws[0]] && IsRun(ws[0], k);
    WordsOfRun(ws[0], k);
  }

  lemma AllRunsTail(ws: seq<string>, k: Keep)
    requires ws != [] && AllRuns(ws, k)
    ensures IsRun(ws[0], k) && AllRuns(ws[1..], k)
  {
    assert forall i :: 0 <= i < |ws| - 1 ==> ws[1..][i] == ws[i + 1];
  }

  // ---------------------------------------------------------------------
  // The title normal form
  // ---------------------------------------------------------------------

  /**
   * `_norm` / `normalize_title`: lower-case, every run of characters outside
   * `[a-z0-9]` becomes one space, strip whitespace, collapse whitespace runs.
   */
  function Norm(s: string): string
  {
    var t := Strip(SubRuns(Lower(s), LowerAlnum, ' '), Whitespace);
    SubRuns(t, NotSpace, ' ')
  }

  /** The alphanumeric words of `s`, lower-cased. */
  function Tokens(s: string): seq<string>
  {
    Words(Lower(s), LowerAlnum)
  }

  lemma TokensAreRuns(s: string)
    ensures AllRuns(Tokens(s), LowerAlnum)
  {
    WordsAreRuns(Lower(s), LowerAlnum);
  }

  /** The normal form is the lower-case alphanumeric words joined by single spaces. */
  lemma NormIsJoinedTokens(s: string)
    ensures Norm(s) == Join(Tokens(s), ' ')
  {
    StripSubRunsIsJoin(Lower(s), LowerAlnum, Whitespace, ' ');
    TokensAreRuns(s);
    SubRunsOfJoin(Tokens(s), LowerAlnum, NotSpace, ' ');
  }

  /** `s` is a nonempty string of `[a-z0-9]` runs separated by single `sep` characters. */
  predicate IsJoinForm(r: string, sep: char)
  {
    (forall i :: 0 <= i < |r| ==> IsLowerAlnum(r[i]) || r[i] == sep)
    && (r != [] ==> IsLowerAlnum(r[0]) && IsLowerAlnum(r[|r| - 1]))
    && (forall i :: 0 <= i < |r| - 1 ==> r[i] == sep ==> IsLowerAlnum(r[i + 1]))
  }

  lemma {:induction false} JoinOfAlnumRuns(ws: seq<string>, sep: char)
    requires AllRuns(ws, LowerAlnum)
    requires !IsLowerAlnum(sep)
    ensures IsJoinForm(Join(ws, sep), sep)
    decreases |ws|
  {
    if |ws| > 1 {
      var w := ws[0];
      var rest := Join(ws[1..], sep);
      JoinOfAlnumRuns(ws[1..], sep);
      JoinOfRunsStartsKept(ws[1..], LowerAlnum, sep);
      var r := w + [sep] + rest;
      assert Join(ws, sep) == r;
      forall i | 0 <= i < |r|
        ensures IsLowerAlnum(r[i]) || r[i] == sep
      {
        if i > |w| {
          assert r[i] == rest[i - |w| - 1];
        }
      }
      forall i | 0 <= i < |r| - 1 && r[i] == sep
        ensures IsLowerAlnum(r[i + 1])
      {
        if i > |w| {
          assert r[i] == rest[i - |w| - 1];
          assert r[i + 1] == rest[i - |w|];
        } else if i == |w| {
          assert r[i + 1] == rest[0];
        }
      }
      assert r[|r| - 1] == rest[|rest| - 1];
    }
  }

  /**
   * The normal form holds only `[a-z0-9]` and single inner spaces, and it is
   * empty exactly when the input has no ASCII letter or digit.
   */
  lemma NormShape(s: string)
    ensures IsJoinForm(Norm(s), ' ')
    ensures Norm(s) == [] <==> Tokens(s) == []
  {
    NormIsJoinedTokens(s);
    TokensAreRuns(s);
    JoinOfAlnumRuns(Tokens(s), ' ');
    if Tokens(s) != [] {
      JoinOfRunsStartsKept(Tokens(s), LowerAlnum, ' ');
    }
  }

  /** Normalising twice changes nothing. */
  lemma NormIdempotent(s: string)
    ensures Norm(Norm(s)) == Norm(s)
    ensures Tokens(Norm(s)) == Tokens(s)
  {
    NormIsJoinedTokens(s);
    TokensAreRuns(s);
    NormOfJoinedRuns(Tokens(s));
    TokensOfJoinedRuns(Tokens(s));
  }

  /** The tokens of alphanumeric runs joined by spaces are those runs. */
  lemma TokensOfJoinedRuns(ws: seq<string>)
    requires AllRuns(ws, LowerAlnum)
    ensures Tokens(Join(ws, ' ')) == ws
  {
    var s := Join(ws, ' ');
    JoinOfAlnumRuns(ws, ' ');
    LowerOfLowerAlnum(s);
    WordsOfJoin(ws, LowerAlnum, ' ');
  }

  /** A string already in normal form: lower-case alphanumeric runs joined by single spaces. */
  lemma NormOfJoinedRuns(ws: seq<string>)
    requires AllRuns(ws, LowerAlnum)
    ensures Norm(Join(ws, ' ')) == Join(ws, ' ')
  {
    var s := Join(ws, ' ');
    JoinOfAlnumRuns(ws, ' ');
    LowerOfLowerAlnum(s);
    WordsOfJoin(ws, LowerAlnum, ' ');
    NormIsJoinedTokens(s);
  }

  lemma {:induction false} RunsWiden(ws: seq<string>, k: Keep, k2: Keep)
    requires AllRuns(ws, k)
    requires forall c :: Keeps(k, c) ==> Keeps(k2, c)
    ensures AllRuns(ws, k2)
  {
    forall i | 0 <= i < |ws|
      ensures IsRun(ws[i], k2)
    {
      assert IsRun(ws[i], k);
    }
  }

  /** `norm(s).split()`: splitting the normal form at whitespace gives the tokens. */
  lemma SplitNorm(s: string)
    ensures Words(Norm(s), NotSpace) == Tokens(s)
  {
    NormIsJoinedTokens(s);
    TokensAreRuns(s);
    RunsWiden(Tokens(s), LowerAlnum, NotSpace);
    WordsOfJoin(Tokens(s), NotSpace, ' ');
  }

  // ---------------------------------------------------------------------
  // Words under rewriting
  // ---------------------------------------------------------------------

  /** The words of `[c] + y` for a kept `c`: `c` joins the first word when `y` starts inside one. */
  function ConsWord(c: char, ws: seq<string>, glued: bool): seq<string>
  {
    if glued && ws != [] then [[c] + ws[0]] + ws[1..] else [[c]] + ws
  }

  predicate StartsKept(s: string, k: Keep)
  {
    s != [] && Keeps(k, s[0])
  }

  lemma WordsNonKeptCons(c: char, y: string, k: Keep)
    requires !Keeps(k, c)
    ensures Words([c] + y, k) == Words(y, k)
  {
    assert ([c] + y)[1..] == y;
    assert SkipRun([c] + y, k) == SkipRun(y, k);
  }

  lemma WordsKeptCons(c: char, y: string, k: Keep)
    requires Keeps(k, c)
    ensures Words([c] + y, k) == ConsWord(c, Words(y, k), StartsKept(y, k))
  {
    var s := [c] + y;
    assert s[0] == c && s[1..] == y;
    assert SkipRun(s, k) == s;
    var w := TakeRun(y, k);
    assert TakeRun(s, k) == [c] + w;
    assert s[|[c] + w|..] == y[|w|..];
    if StartsKept(y, k) {
      WordsOfKeptStart(y, k);
    } else {
      assert w == [];
      assert y[|w|..] == y;
      WordsOfSkip(y, k);
    }
  }

  /** Prepending a character preserves equal words when both tails start alike. */
  lemma WordsConsCongruent(c: char, y: string, z: string, k: Keep)
    requires Words(y, k) == Words(z, k)
    requires StartsKept(y, k) == StartsKept(z, k)
    ensures Words([c] + y, k) == Words([c] + z, k)
  {
    if Keeps(k, c) {
      WordsKeptCons(c, y, k);
      WordsKeptCons(c, z, k);
    } else {
      WordsNonKeptCons(c, y, k);
      WordsNonKeptCons(c, z, k);
    }
  }

  /** Characters `k` does not keep, in front, do not change the words. */
  lemma {:induction false} WordsDropPrefix(p: string, q: string, k: Keep)
    requires forall i :: 0 <= i < |p| ==> !Keeps(k, p[i])
    ensures Words(p + q, k) == Words(q, k)
    decreases |p|
  {
    if p == [] {
      assert p + q == q;
    } else {
      assert p + q == [p[0]] + (p[1..] + q);
      WordsNonKeptCons(p[0], p[1..] + q, k);
      WordsDropPrefix(p[1..], q, k);
    }
  }

  /** Characters `k` does not keep, at the end, do not change the words. */
  lemma {:induction false} WordsDropSuffix(m: string, q: string, k: Keep)
    requires forall i :: 0 <= i < |q| ==> !Keeps(k, q[i])
    ensures Words(m + q, k) == Words(m, k)
    decreases |m|
  {
    if m == [] {
      assert m + q == q + [];
      WordsDropPrefix(q, [], k);
    } else {
      var t := m[1..];
      assert m + q == [m[0]] + (t + q);
      assert m == [m[0]] + t;
      WordsDropSuffix(t, q, k);
      if t != [] {
        assert (t + q)[0] == t[0];
      }
      WordsConsCongruent(m[0], t + q, t, k);
    }
  }

  /** Two classes that agree on every character of `s` split it the same way. */
  lemma {:induction false} WordsSameClass(s: string, k: Keep, k2: Keep)
    requires forall i :: 0 <= i < |s| ==> (Keeps(k, s[i]) <==> Keeps(k2, s[i]))
    ensures Words(s, k) == Words(s, k2)
    decreases |s|
  {
    if s != [] {
      var y := s[1..];
      assert s == [s[0]] + y;
      WordsSameClass(y, k, k2);
      if Keeps(k, s[0]) {
        WordsKeptCons(s[0], y, k);
        WordsKeptCons(s[0], y, k2);
        if y != [] {
          assert y[0] == s[1];
        }
      } else {
        WordsNonKeptCons(s[0], y, k);
        WordsNonKeptCons(s[0], y, k2);
      }
    }
  }

  /** Every character of a substitution is the replacement or a kept character of the input. */
  lemma {:induction false} SubRunsChars(x: string, k: Keep, rep: char)
    ensures forall i :: 0 <= i < |SubRuns(x, k, rep)| ==>
      SubRuns(x, k, rep)[i] == rep || (Keeps(k, SubRuns(x, k, rep)[i]) && SubRuns(x, k, rep)[i] in x)
    decreases |x|
  {
    if x != [] {
      if Keeps(k, x[0]) {
        SubRunsChars(x[1..], k, rep);
        forall c | c in x[1..]
          ensures c in x
        {
        }
      } else {
        var z := SkipRun(x[1..], k);
        SubRunsChars(z, k, rep);
        forall c | c in z
          ensures c in x
        {
          assert z == x[1..][|x[1..]| - |z|..];
        }
      }
    }
  }

  /**
   * Substituting the runs `k` does not keep by a `rep` that `k2` does not
   * keep leaves the `k2`-words unchanged, when `k2` keeps no more than `k`.
   */
  lemma {:induction false} WordsOfSubRuns(x: string, k: Keep, k2: Keep, rep: char)
    requires !Keeps(k2, rep)
    requires forall c :: Keeps(k2, c) ==> Keeps(k, c)
    ensures Words(SubRuns(x, k, rep), k2) == Words(x, k2)
    ensures StartsKept(SubRuns(x, k, rep), k2) == StartsKept(x, k2)
    decreases |x|
  {
    if x != [] {
      if Keeps(k, x[0]) {
        WordsOfSubRuns(x[1..], k, k2, rep);
        WordsOfSubRunsKept(x, k, k2, rep);
      } else {
        WordsOfSubRuns(SkipRun(x[1..], k), k, k2, rep);
        WordsOfSubRunsGap(x, k, k2, rep);
        SubRunsGapStart(x, k, k2, rep);
      }
    }
  }

  lemma WordsOfSubRunsKept(x: string, k: Keep, k2: Keep, rep: char)
    requires x != [] && Keeps(k, x[0])
    requires !Keeps(k2, rep)
    requires Words(SubRuns(x[1..], k, rep), k2) == Words(x[1..], k2)
    requires StartsKept(SubRuns(x[1..], k, rep), k2) == StartsKept(x[1..], k2)
    ensures Words(SubRuns(x, k, rep), k2) == Words(x, k2)
    ensures StartsKept(SubRuns(x, k, rep), k2) == StartsKept(x, k2)
  {
    var y := x[1..];
    var sx := [x[0]] + SubRuns(y, k, rep);
    assert x == [x[0]] + y;
    assert SubRuns(x, k, rep) == sx;
    assert sx[0] == x[0];
    WordsConsCongruent(x[0], SubRuns(y, k, rep), y, k2);
  }

  lemma WordsOfSubRunsGap(x: string, k: Keep, k2: Keep, rep: char)
    requires x != [] && !Keeps(k, x[0])
    requires !Keeps(k2, rep)
    requires forall c :: Keeps(k2, c) ==> Keeps(k, c)
    requires Words(SubRuns(SkipRun(x[1..], k), k, rep), k2) == Words(SkipRun(x[1..], k), k2)
    ensures Words(SubRuns(x, k, rep), k2) == Words(x, k2)
  {
    var z := SkipRun(x[1..], k);
    SubRunsAtGap(x, k, rep);
    WordsNonKeptCons(rep, SubRuns(z, k, rep), k2);
    assert !Keeps(k2, x[0]);
    WordsNonKeptHead(x, k2);
    WordsOfSkipRun(x[1..], k, k2);
  }

  lemma SubRunsAtGap(x: string, k: Keep, rep: char)
    requires x != [] && !Keeps(k, x[0])
    ensures SubRuns(x, k, rep) == [rep] + SubRuns(SkipRun(x[1..], k), k, rep)
  {
  }

  lemma WordsNonKeptHead(x: string, k: Keep)
    requires x != [] && !Keeps(k, x[0])
    ensures Words(x, k) == Words(x[1..], k)
  {
    assert x == [x[0]] + x[1..];
    WordsNonKeptCons(x[0], x[1..], k);
  }

  lemma SubRunsGapStart(x: string, k: Keep, k2: Keep, rep: char)
    requires x != [] && !Keeps(k, x[0])
    requires !Keeps(k2, rep)
    requires forall c :: Keeps(k2, c) ==> Keeps(k, c)
    ensures !StartsKept(SubRuns(x, k, rep), k2) && !StartsKept(x, k2)
  {
  }

  /** Skipping characters `k` does not keep skips nothing `k2` keeps. */
  lemma WordsOfSkipRun(y: string, k: Keep, k2: Keep)
    requires forall c :: Keeps(k2, c) ==> Keeps(k, c)
    ensures Words(SkipRun(y, k), k2) == Words(y, k2)
  {
    var n := |y| - |SkipRun(y, k)|;
    SkippedNotKept(y, k, k2);
    WordsDropFirst(y, n, k2);
  }

  lemma SkippedNotKept(y: string, k: Keep, k2: Keep)
    requires forall c :: Keeps(k2, c) ==> Keeps(k, c)
    ensures forall i :: 0 <= i < |y| - |SkipRun(y, k)| ==> !Keeps(k2, y[i])
  {
  }

  lemma WordsDropFirst(y: string, n: nat, k: Keep)
    requires n <= |y|
    requires forall i :: 0 <= i < n ==> !Keeps(k, y[i])
    ensures Words(y[n..], k) == Words(y, k)
  {
    var p := y[..n];
    assert y == p + y[n..];
    assert forall i :: 0 <= i < |p| ==> p[i] == y[i];
    WordsDropPrefix(p, y[n..], k);
  }

  lemma {:induction false} TrimLeftRemoves(s: string, st: StripSet)
    ensures forall i :: 0 <= i < |s| - |TrimLeft(s, st)| ==> Strips(st, s[i])
    decreases |s|
  {
    if s != [] && Strips(st, s[0]) {
      TrimLeftRemoves(s[1..], st);
      forall i | 1 <= i < |s| - |TrimLeft(s, st)|
        ensures Strips(st, s[i])
      {
        assert s[i] == s[1..][i - 1];
      }
    }
  }

  lemma {:induction false} TrimRightRemoves(s: string, st: StripSet)
    ensures forall i :: |TrimRight(s, st)| <= i < |s| ==> Strips(st, s[i])
    decreases |s|
  {
    if s != [] && Strips(st, s[|s| - 1]) {
      TrimRightRemoves(s[..|s| - 1], st);
    }
  }

  lemma LowerAppend(a: string, b: string)
    ensures Lower(a + b) == Lower(a) + Lower(b)
  {
  }

  /** Whitespace around a string holds no ASCII letter or digit. */
  lemma TokensOfStrip(s: string)
    ensures Words(Lower(Strip(s, Whitespace)), LowerAlnum) == Tokens(s)
  {
    var m := Strip(s, Whitespace);
    var p, q := StripParts(s);
    LowerOfSpaces(p);
    LowerOfSpaces(q);
    LowerAppend(p, m + q);
    LowerAppend(m, q);
    WordsDropEnds(Lower(p), Lower(m), Lower(q), LowerAlnum);
  }

  /** What `strip()` removes is whitespace on either side. */
  lemma StripParts(s: string) returns (p: string, q: string)
    ensures s == p + (Strip(s, Whitespace) + q)
    ensures forall i :: 0 <= i < |p| ==> IsSpace(p[i])
    ensures forall i :: 0 <= i < |q| ==> IsSpace(q[i])
  {
    var t := TrimLeft(s, Whitespace);
    p := TrimLeftPart(s, Whitespace);
    q := TrimRightPart(t, Whitespace);
  }

  lemma TrimLeftPart(s: string, st: StripSet) returns (p: string)
    ensures s == p + TrimLeft(s, st)
    ensures forall i :: 0 <= i < |p| ==> Strips(st, p[i])
  {
    var t := TrimLeft(s, st);
    var n := |s| - |t|;
    p := s[..n];
    assert t == s[n..];
    assert s == p + t;
    TrimLeftRemoves(s, st);
    forall i | 0 <= i < |p|
      ensures Strips(st, p[i])
    {
      assert p[i] == s[i];
    }
  }

  lemma TrimRightPart(t: string, st: StripSet) returns (q: string)
    ensures t == TrimRight(t, st) + q
    ensures forall i :: 0 <= i < |q| ==> Strips(st, q[i])
  {
    var m := TrimRight(t, st);
    q := t[|m|..];
    TrimRightRemoves(t, st);
    assert t == t[..|m|] + t[|m|..];
    forall i | 0 <= i < |q|
      ensures Strips(st, q[i])
    {
      assert q[i] == t[|m| + i];
    }
  }

  lemma LowerOfSpaces(s: string)
    requires forall i :: 0 <= i < |s| ==> IsSpace(s[i])
    ensures forall i :: 0 <= i < |Lower(s)| ==> !Keeps(LowerAlnum, Lower(s)[i])
  {
  }

  lemma WordsDropEnds(p: string, m: string, q: string, k: Keep)
    requires forall i :: 0 <= i < |p| ==> !Keeps(k, p[i])
    requires forall i :: 0 <= i < |q| ==> !Keeps(k, q[i])
    ensures Words(p + (m + q), k) == Words(m, k)
  {
    WordsDropPrefix(p, m + q, k);
    WordsDropSuffix(m, q, k);
  }

  // ---------------------------------------------------------------------
  // Removing a character, substrings
  // ---------------------------------------------------------------------

  /** `s.replace(c, "")` */
  function RemoveChar(s: string, c: char): (r: string)
    ensures |r| <= |s|
    ensures forall i :: 0 <= i < |r| ==> r[i] != c && r[i] in s
  {
    if s == [] then []
    else if s[0] == c then RemoveChar(s[1..], c)
    else [s[0]] + RemoveChar(s[1..], c)
  }

  lemma {:induction false} RemoveCharAppend(a: string, b: string, c: char)
    ensures RemoveChar(a + b, c) == RemoveChar(a, c) + RemoveChar(b, c)
  {
    if a == [] {
      assert a + b == b;
    } else {
      assert (a + b)[0] == a[0] && (a + b)[1..] == a[1..] + b;
      RemoveCharAppend(a[1..], b, c);
    }
  }

  lemma {:induction false} RemoveCharAbsent(s: string, c: char)
    requires forall i :: 0 <= i < |s| ==> s[i] != c
    ensures RemoveChar(s, c) == s
  {
    if s != [] {
      RemoveCharAbsent(s[1..], c);
      assert s == [s[0]] + s[1..];
    }
  }

  /** Removing the separator from two separated pieces that lack it glues them. */
  lemma RemoveCharGlue(a: string, b: string, c: char)
    requires forall i :: 0 <= i < |a| ==> a[i] != c
    requires forall i :: 0 <= i < |b| ==> b[i] != c
    ensures RemoveChar(a + [c] + b, c) == a + b
  {
    var ac := a + [c];
    assert RemoveChar([c], c) == [] by {
      assert [c][1..] == [];
    }
    RemoveCharAbsent(a, c);
    RemoveCharAbsent(b, c);
    RemoveCharAppend(a, [c], c);
    assert RemoveChar(ac, c) == a by {
      assert a + [] == a;
    }
    RemoveCharAppend(ac, b, c);
  }

  /** Python's `needle in hay` on strings. */
  predicate Contains(hay: string, needle: string)
  {
    needle <= hay || (hay != [] && Contains(hay[1..], needle))
  }

  /** `needle in hay` holds exactly when `needle` starts some suffix of `hay`. */
  lemma {:induction false} ContainsAt(hay: string, needle: string)
    ensures Contains(hay, needle) <==> exists i :: 0 <= i <= |hay| && needle <= hay[i..]
    decreases |hay|
  {
    if needle <= hay {
      assert hay[0..] == hay;
    } else if hay != [] {
      ContainsAt(hay[1..], needle);
      if exists i :: 0 <= i <= |hay| && needle <= hay[i..] {
        var i :| 0 <= i <= |hay| && needle <= hay[i..];
        assert i != 0;
        assert hay[1..][i - 1..] == hay[i..];
      }
      if Contains(hay[1..], needle) {
        var j :| 0 <= j <= |hay[1..]| && needle <= hay[1..][j..];
        assert hay[1..][j..] == hay[j + 1..];
      }
    }
  }

  lemma ContainsSelf(s: string)
    ensures Contains(s, s) && Contains(s, [])
  {
  }

  // ---------------------------------------------------------------------
  // Decimal rendering, for messages
  // ---------------------------------------------------------------------

  function DigitChar(d: nat): char
    requires d < 10
  {
    ['0', '1', '2', '3', '4', '5', '6', '7', '8', '9'][d]
  }

  /** `str(n)` for a natural number. */
  function NatToString(n: nat): (r: string)
    ensures r != []
    ensures forall i :: 0 <= i < |r| ==> '0' <= r[i] <= '9'
    ensures (r[0] == '0') == (n == 0)
  {
    if n < 10 then [DigitChar(n)] else NatToString(n / 10) + [DigitChar(n % 10)]
  }

  /** `str(n)` for any integer. */
  function IntToString(n: int): (r: string)
    ensures r != []
    ensures (r[0] == '-') == (n < 0)
  {
    if n < 0 then "-" + NatToString(-n) else NatToString(n)
  }
}
