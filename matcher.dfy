/**
 * The matching engines of the uniqueness evaluation (`evaluate/matcher.py`):
 * a pair score in [0, 100] and per-query statistics over a list of
 * candidate titles.
 *
 * The two similarity libraries are parameters: `difflib.SequenceMatcher`'s
 * ratio is any function into [0, 1] that gives 1 on equal strings (which it
 * does: two equal strings match completely), and RapidFuzz's `WRatio` is
 * any function into [0, 100].
 */
module Matcher {
  import opened Wrappers
  import opened Text
  import StringOrder
  import opened EvalTypes
  import Json

  /** `SequenceMatcher(None, a, b).ratio()` */
  ghost predicate IsRatio(f: (string, string) -> real)
  {
    (forall a, b :: 0.0 <= f(a, b) <= 1.0) && (forall a :: f(a, a) == 1.0)
  }

  type Ratio = f: (string, string) -> real | IsRatio(f) witness (a: string, b: string) => 1.0

  /** `fuzz.WRatio(a, b, processor=utils.default_process)` */
  ghost predicate IsWRatio(f: (string, string) -> real)
  {
    forall a, b :: 0.0 <= f(a, b) <= 100.0
  }

  type WRatio = f: (string, string) -> real | IsWRatio(f) witness (a: string, b: string) => 0.0

  /** `BuiltinMatcher()` or `RapidFuzzMatcher()` (the latter holding the library). */
  datatype Matcher = BuiltinMatcher(ratio: Ratio) | RapidFuzzMatcher(wratio: WRatio)

  /** `_compact`: the normal form without its spaces. */
  function Compact(s: string): (r: string)
    ensures forall i :: 0 <= i < |r| ==> IsLowerAlnum(r[i])
  {
    NormShape(s);
    RemoveChar(Norm(s), ' ')
  }

  /** `_token_sort_key`: the normal form's tokens, sorted, joined by spaces. */
  function TokenSortKey(s: string): string
  {
    Join(StringOrder.Sort(Words(Norm(s), NotSpace)), ' ')
  }

  /** `score_pair`: `int(100 * ratio)` on the normal forms, or `int(WRatio)` on the raw titles. */
  function ScorePair(m: Matcher, a: string, b: string): (r: int)
    ensures 0 <= r <= 100
    ensures m.BuiltinMatcher? && Norm(a) == Norm(b) ==> r == 100
  {
    match m
    case BuiltinMatcher(ratio) =>
      assert 0.0 <= ratio(Norm(a), Norm(b)) <= 1.0;
      (100.0 * ratio(Norm(a), Norm(b))).Floor
    case RapidFuzzMatcher(wratio) =>
      assert 0.0 <= wratio(a, b) <= 100.0;
      Json.Truncate(wratio(a, b))
  }

  /** The compact forms are substrings of one another, in either direction. */
  predicate CompactOverlap(a: string, b: string)
  {
    Contains(Compact(b), Compact(a)) || Contains(Compact(a), Compact(b))
  }

  /**
   * The score `stats` counts for one candidate: the builtin matcher lifts a
   * score below 90 to 90 when the compact forms overlap, and then a score
   * still below 88 to 88 when the token sort keys agree.
   */
  function Boosted(m: Matcher, query: string, c: string): int
  {
    var sc := ScorePair(m, query, c);
    if m.RapidFuzzMatcher? then sc
    else Boost(sc, CompactOverlap(query, c), TokenSortKey(query) == TokenSortKey(c))
  }

  /** The two boosts of the builtin matcher, given whether the compact forms overlap and the sort keys agree. */
  function Boost(sc: int, overlap: bool, sameKey: bool): int
  {
    var sc1 := if sc < 90 && overlap then 90 else sc;
    if sc1 < 88 && sameKey then 88 else sc1
  }

  /**
   * The boost only ever raises a score, to 90 on overlapping compact forms
   * or to 88 on equal token sort keys, and only for the builtin matcher.
   */
  lemma BoostedBounds(m: Matcher, query: string, c: string)
    ensures ScorePair(m, query, c) <= Boosted(m, query, c) <= 100
    ensures m.RapidFuzzMatcher? ==> Boosted(m, query, c) == ScorePair(m, query, c)
    ensures m.BuiltinMatcher? && CompactOverlap(query, c) ==> Boosted(m, query, c) >= 90
    ensures m.BuiltinMatcher? && TokenSortKey(query) == TokenSortKey(c) ==> Boosted(m, query, c) >= 88
    ensures Boosted(m, query, c) != ScorePair(m, query, c) ==> Boosted(m, query, c) in {88, 90}
  {
  }

  /** The boosted score of every candidate, in order. */
  function Scores(m: Matcher, query: string, cs: seq<string>): (r: seq<int>)
    ensures |r| == |cs|
    ensures forall i :: 0 <= i < |cs| ==> r[i] == Boosted(m, query, cs[i])
  {
    ScoresBy(c => Boosted(m, query, c), cs)
  }

  /** A score per candidate, in order. */
  function ScoresBy(f: string -> int, cs: seq<string>): (r: seq<int>)
    ensures |r| == |cs|
    ensures forall i :: 0 <= i < |cs| ==> r[i] == f(cs[i])
  {
    seq(|cs|, i requires 0 <= i < |cs| => f(cs[i]))
  }

  /** How many of `s` are at least `t`. */
  function CountAtLeast(s: seq<int>, t: int): (n: nat)
    ensures n <= |s|
  {
    if s == [] then 0 else CountAtLeast(s[..|s| - 1], t) + (if s[|s| - 1] >= t then 1 else 0)
  }

  lemma CountSnoc(s: seq<int>, x: int, t: int)
    ensures CountAtLeast(s + [x], t) == CountAtLeast(s, t) + (if x >= t then 1 else 0)
  {
    assert (s + [x])[..|s + [x]| - 1] == s;
  }

  /** `max(0, *s)` */
  function MaxOr0(s: seq<int>): (r: int)
    ensures r >= 0
    ensures forall i :: 0 <= i < |s| ==> s[i] <= r
    ensures r == 0 || exists i :: 0 <= i < |s| && s[i] == r
  {
    if s == [] then 0
    else
      var p := MaxOr0(s[..|s| - 1]);
      assert forall i :: 0 <= i < |s| - 1 ==> s[..|s| - 1][i] == s[i];
      if s[|s| - 1] > p then s[|s| - 1] else p
  }

  lemma MaxSnoc(s: seq<int>, x: int)
    ensures MaxOr0(s + [x]) == if x > MaxOr0(s) then x else MaxOr0(s)
  {
    assert (s + [x])[..|s + [x]| - 1] == s;
  }

  /** The statistics of a list of (boosted) scores. */
  function StatsOfScores(s: seq<int>): MatchStats
  {
    MatchStats(MaxOr0(s), CountAtLeast(s, 95), CountAtLeast(s, 90), CountAtLeast(s, 80), None)
  }

  /** What `stats(query, candidates)` returns. */
  function StatsOf(m: Matcher, query: string, cs: seq<string>): MatchStats
  {
    StatsOfScores(Scores(m, query, cs))
  }

  /** The statistics after one more score: a new maximum, and a count in each band it reaches. */
  function Counted(st: MatchStats, sc: int): MatchStats
  {
    MatchStats(if sc > st.maxScore then sc else st.maxScore,
               st.n95 + (if sc >= 95 then 1 else 0),
               st.n90 + (if sc >= 90 then 1 else 0),
               st.n80 + (if sc >= 80 then 1 else 0),
               st.topHitPos)
  }

  lemma StatsOfScoresStep(s: seq<int>, i: nat)
    requires i < |s|
    ensures StatsOfScores(s[..i + 1]) == Counted(StatsOfScores(s[..i]), s[i])
  {
    assert s[..i + 1] == s[..i] + [s[i]];
    CountSnoc(s[..i], s[i], 95);
    CountSnoc(s[..i], s[i], 90);
    CountSnoc(s[..i], s[i], 80);
    MaxSnoc(s[..i], s[i]);
  }

  /** The score `stats` counts for candidate `c`: the pair score, then the builtin matcher's boosts. */
  method BoostedScore(m: Matcher, query: string, c: string) returns (sc: int)
    ensures sc == Boosted(m, query, c)
  {
    sc := ScorePair(m, query, c);
    if m.BuiltinMatcher? {
      var overlap := CompactOverlap(query, c);
      var sameKey := TokenSortKey(query) == TokenSortKey(c);
      if sc < 90 && overlap {
        sc := if sc > 90 then sc else 90;
      }
      if sc < 90 && sameKey {
        sc := if sc > 88 then sc else 88;
      }
    }
  }

  /** The loop body of `stats` for one score: the running maximum and the three band counters. */
  method Count(st: MatchStats, sc: int) returns (st': MatchStats)
    ensures st' == Counted(st, sc)
  {
    var n80, n90, n95, maxScore := st.n80, st.n90, st.n95, st.maxScore;
    maxScore := if maxScore > sc then maxScore else sc;
    if sc >= 95 {
      n95 := n95 + 1;
    }
    if sc >= 90 {
      n90 := n90 + 1;
    }
    if sc >= 80 {
      n80 := n80 + 1;
    }
    st' := MatchStats(maxScore, n95, n90, n80, st.topHitPos);
  }

  /** `stats`: one pass over the candidates, boosting each score as described at `Boosted`. */
  method Stats(m: Matcher, query: string, candidates: seq<string>) returns (st: MatchStats)
    ensures st == StatsOf(m, query, candidates)
  {
    ghost var s := Scores(m, query, candidates);
    st := MatchStats(0, 0, 0, 0, None);
    assert st == StatsOfScores(s[..0]);
    for i := 0 to |candidates|
      invariant st == StatsOfScores(s[..i])
    {
      var sc := BoostedScore(m, query, candidates[i]);
      StatsOfScoresStep(s, i);
      st := Count(st, sc);
    }
    assert s[..|candidates|] == s;
  }

  // ---------------------------------------------------------------------
  // Properties of the statistics
  // ---------------------------------------------------------------------

  lemma {:induction false} CountAtLeastMonotone(s: seq<int>, t: int, u: int)
    requires t <= u
    ensures CountAtLeast(s, u) <= CountAtLeast(s, t)
  {
    if s != [] {
      CountAtLeastMonotone(s[..|s| - 1], t, u);
    }
  }

  /** Some entry reaches a positive threshold exactly when the maximum does. */
  lemma {:induction false} CountPositiveIffMax(s: seq<int>, t: int)
    requires t > 0
    ensures CountAtLeast(s, t) > 0 <==> MaxOr0(s) >= t
  {
    if s != [] {
      CountPositiveIffMax(s[..|s| - 1], t);
    }
  }

  /**
   * The statistics are nested bands bounded by the number of candidates,
   * the maximum is a score in [0, 100], and a band is nonempty exactly when
   * the maximum reaches it.
   */
  lemma StatsShape(m: Matcher, query: string, cs: seq<string>)
    ensures var st := StatsOf(m, query, cs);
      && 0 <= st.n95 <= st.n90 <= st.n80 <= |cs|
      && 0 <= st.maxScore <= 100
      && (st.n95 > 0 <==> st.maxScore >= 95)
      && (st.n90 > 0 <==> st.maxScore >= 90)
      && (st.n80 > 0 <==> st.maxScore >= 80)
      && st.topHitPos == None
  {
    var s := Scores(m, query, cs);
    forall i | 0 <= i < |s|
      ensures s[i] <= 100
    {
      BoostedBounds(m, query, cs[i]);
    }
    StatsOfScoresShape(s);
  }

  /** The statistics of scores of at most 100. */
  lemma StatsOfScoresShape(s: seq<int>)
    requires forall i :: 0 <= i < |s| ==> s[i] <= 100
    ensures var st := StatsOfScores(s);
      && 0 <= st.n95 <= st.n90 <= st.n80 <= |s|
      && 0 <= st.maxScore <= 100
      && (st.n95 > 0 <==> st.maxScore >= 95)
      && (st.n90 > 0 <==> st.maxScore >= 90)
      && (st.n80 > 0 <==> st.maxScore >= 80)
      && st.topHitPos == None
  {
    CountAtLeastMonotone(s, 90, 95);
    CountAtLeastMonotone(s, 80, 90);
    CountPositiveIffMax(s, 95);
    CountPositiveIffMax(s, 90);
    CountPositiveIffMax(s, 80);
  }

  lemma {:induction false} CountAllAtLeast(s: seq<int>, t: int)
    requires forall i :: 0 <= i < |s| ==> s[i] >= t
    ensures CountAtLeast(s, t) == |s|
  {
    if s != [] {
      CountAllAtLeast(s[..|s| - 1], t);
    }
  }

  /**
   * A title with no ASCII letter or digit has an empty compact form, which
   * every candidate's compact form contains: the builtin matcher then puts
   * every candidate in the 90 band.
   */
  lemma EmptyQueryMatchesAll(r: Ratio, query: string, cs: seq<string>)
    requires Tokens(query) == []
    ensures StatsOf(BuiltinMatcher(r), query, cs).n90 == |cs|
  {
    NormShape(query);
    assert Compact(query) == [];
    var s := Scores(BuiltinMatcher(r), query, cs);
    forall i | 0 <= i < |s|
      ensures s[i] >= 90
    {
      ContainsSelf(Compact(cs[i]));
      assert Contains(Compact(cs[i]), Compact(query));
      assert CompactOverlap(query, cs[i]);
      BoostedBounds(BuiltinMatcher(r), query, cs[i]);
    }
    CountAllAtLeast(s, 90);
  }

  /** Two titles get the same token sort key exactly when they have the same tokens, in any order. */
  lemma TokenSortKeyIffSameTokens(a: string, b: string)
    ensures TokenSortKey(a) == TokenSortKey(b) <==> multiset(Tokens(a)) == multiset(Tokens(b))
  {
    if multiset(Tokens(a)) == multiset(Tokens(b)) {
      SameTokensSameKey(a, b);
    }
    if TokenSortKey(a) == TokenSortKey(b) {
      SameKeySameTokens(a, b);
    }
  }

  lemma SameTokensSameKey(a: string, b: string)
    requires multiset(Tokens(a)) == multiset(Tokens(b))
    ensures TokenSortKey(a) == TokenSortKey(b)
  {
    SplitNorm(a);
    SplitNorm(b);
    StringOrder.SortPermutationInvariant(Tokens(a), Tokens(b));
  }

  lemma SameKeySameTokens(a: string, b: string)
    requires TokenSortKey(a) == TokenSortKey(b)
    ensures multiset(Tokens(a)) == multiset(Tokens(b))
  {
    KeyWords(a);
    KeyWords(b);
  }

  /** The token sort key splits back into the sorted tokens. */
  lemma KeyWords(s: string)
    ensures Words(TokenSortKey(s), LowerAlnum) == StringOrder.Sort(Tokens(s))
  {
    SplitNorm(s);
    TokensAreRuns(s);
    SortedRunsSplit(Tokens(s));
  }

  lemma SortedRunsSplit(ws: seq<string>)
    requires AllRuns(ws, LowerAlnum)
    ensures Words(Join(StringOrder.Sort(ws), ' '), LowerAlnum) == StringOrder.Sort(ws)
  {
    var st := StringOrder.Sort(ws);
    forall i | 0 <= i < |st|
      ensures IsRun(st[i], LowerAlnum)
    {
      assert st[i] in multiset(st);
      assert st[i] in multiset(ws);
      var j :| 0 <= j < |ws| && ws[j] == st[i];
    }
    WordsOfJoin(st, LowerAlnum, ' ');
  }

  /** Reordering the words of a title never drops the builtin score below 88. */
  lemma ReorderedTitleScoresAtLeast88(r: Ratio, a: string, b: string)
    requires multiset(Tokens(a)) == multiset(Tokens(b))
    ensures Boosted(BuiltinMatcher(r), a, b) >= 88
  {
    TokenSortKeyIffSameTokens(a, b);
    BoostedBounds(BuiltinMatcher(r), a, b);
  }

  /** Titles with the same normal form score 100 under the builtin matcher. */
  lemma SameNormScores100(r: Ratio, a: string, b: string)
    requires Norm(a) == Norm(b)
    ensures Boosted(BuiltinMatcher(r), a, b) == 100
  {
    BoostedBounds(BuiltinMatcher(r), a, b);
  }
}
