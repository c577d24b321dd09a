/**
 * Component scorers of the uniqueness evaluation (`evaluate/scoring.py`):
 * each turns provider results into points for one component, starting
 * from the component's weight and subtracting penalties for near-duplicate
 * titles, by similarity band and by how high the best such title ranks.
 *
 * The scorers count bands with the plain pair score: the boosts of
 * `stats` play no part, and the `stats` argument they receive is not read.
 */
module Scoring {
  import opened Wrappers
  import opened EvalTypes
  import opened Dicts
  import opened Matcher
  import DomainCheck
  import Seqs

  /** Candidate titles with their optional list positions. */
  type TitledPos = seq<(string, Option<int>)>

  /** What `_band_counts` returns: counts of scores >= 95, >= 90, >= 80, and the best position among hits. */
  datatype Bands = Bands(n95: nat, n90: nat, n80: nat, topPos: Option<int>)

  /** Each candidate's pair score against the title, with its position. */
  function Scored(m: Matcher, title: string, tp: TitledPos): (r: seq<(int, Option<int>)>)
    ensures |r| == |tp|
    ensures forall i :: 0 <= i < |tp| ==> r[i] == (ScorePair(m, title, tp[i].0), tp[i].1)
  {
    seq(|tp|, i requires 0 <= i < |tp| => (ScorePair(m, title, tp[i].0), tp[i].1))
  }

  /** A hit: a score of at least 80 with a known position. */
  predicate PositionedHit(e: (int, Option<int>))
  {
    e.0 >= 80 && e.1.Some?
  }

  /** The smallest position among the hits, if any. */
  function MinHitPos(sp: seq<(int, Option<int>)>): Option<int>
  {
    if sp == [] then None
    else
      var p := MinHitPos(sp[..|sp| - 1]);
      var e := sp[|sp| - 1];
      if !PositionedHit(e) then p
      else if p.None? || e.1.value < p.value then e.1
      else p
  }

  function BandsOf(sp: seq<(int, Option<int>)>): Bands
  {
    var s := Seqs.Firsts(sp);
    Bands(CountAtLeast(s, 95), CountAtLeast(s, 90), CountAtLeast(s, 80), MinHitPos(sp))
  }

  /** The bands after one more entry: it counts in each band it reaches and may lower the best position. */
  function Tallied(b: Bands, e: (int, Option<int>)): Bands
  {
    Bands(b.n95 + (if e.0 >= 95 then 1 else 0),
          b.n90 + (if e.0 >= 90 then 1 else 0),
          b.n80 + (if e.0 >= 80 then 1 else 0),
          if !PositionedHit(e) then b.topPos
          else if b.topPos.None? || e.1.value < b.topPos.value then e.1
          else b.topPos)
  }

  lemma BandsSnoc(sp: seq<(int, Option<int>)>, e: (int, Option<int>))
    ensures BandsOf(sp + [e]) == Tallied(BandsOf(sp), e)
  {
    Seqs.FirstsSnoc(sp, e);
    CountSnoc(Seqs.Firsts(sp), e.0, 95);
    CountSnoc(Seqs.Firsts(sp), e.0, 90);
    CountSnoc(Seqs.Firsts(sp), e.0, 80);
    assert (sp + [e])[..|sp|] == sp;
  }

  lemma BandsStep(sp: seq<(int, Option<int>)>, i: nat)
    requires i < |sp|
    ensures BandsOf(sp[..i + 1]) == Tallied(BandsOf(sp[..i]), sp[i])
  {
    assert sp[..i + 1] == sp[..i] + [sp[i]];
    BandsSnoc(sp[..i], sp[i]);
  }

  /** The loop body of `_band_counts` for one scored entry. */
  method Tally(b: Bands, sc: int, pos: Option<int>) returns (b': Bands)
    ensures b' == Tallied(b, (sc, pos))
  {
    var n95, n90, n80, topPos := b.n95, b.n90, b.n80, b.topPos;
    if sc >= 80 {
      if pos.Some? {
        topPos := if topPos.None? then pos else Some(if topPos.value <= pos.value then topPos.value else pos.value);
      }
      n80 := n80 + 1;
    }
    if sc >= 90 {
      n90 := n90 + 1;
    }
    if sc >= 95 {
      n95 := n95 + 1;
    }
    b' := Bands(n95, n90, n80, topPos);
  }

  /** `_band_counts`: one pass over the titled positions. */
  method BandCounts(m: Matcher, title: string, tp: TitledPos) returns (b: Bands)
    ensures b == BandsOf(Scored(m, title, tp))
  {
    ghost var sp := Scored(m, title, tp);
    b := Bands(0, 0, 0, None);
    for i := 0 to |tp|
      invariant b == BandsOf(sp[..i])
    {
      var (t, pos) := tp[i];
      var sc := ScorePair(m, title, t);
      BandsStep(sp, i);
      b := Tally(b, sc, pos);
    }
    assert sp[..|tp|] == sp;
  }

  // ---------------------------------------------------------------------
  // What the bands mean
  // ---------------------------------------------------------------------

  /**
   * The best position is absent exactly when no hit has a position, and
   * otherwise it is the position of some hit and no hit ranks higher.
   */
  lemma {:induction false} MinHitPosMeaning(sp: seq<(int, Option<int>)>)
    ensures MinHitPos(sp).None? <==> forall i :: 0 <= i < |sp| ==> !PositionedHit(sp[i])
    ensures MinHitPos(sp).Some? ==>
      && (exists i :: 0 <= i < |sp| && PositionedHit(sp[i]) && sp[i].1 == MinHitPos(sp))
      && (forall i :: 0 <= i < |sp| && PositionedHit(sp[i]) ==> MinHitPos(sp).value <= sp[i].1.value)
  {
    if sp != [] {
      var init := sp[..|sp| - 1];
      MinHitPosMeaning(init);
      forall i | 0 <= i < |init|
        ensures init[i] == sp[i]
      {
      }
    }
  }

  /** The bands are nested and bounded by the number of candidates. */
  lemma BandsNested(sp: seq<(int, Option<int>)>)
    ensures BandsOf(sp).n95 <= BandsOf(sp).n90 <= BandsOf(sp).n80 <= |sp|
  {
    CountAtLeastMonotone(Seqs.Firsts(sp), 90, 95);
    CountAtLeastMonotone(Seqs.Firsts(sp), 80, 90);
  }

  /** Counting at a threshold respects a pointwise order of the scores. */
  lemma {:induction false} CountPointwise(s: seq<int>, t: seq<int>, k: int)
    requires |s| == |t|
    requires forall i :: 0 <= i < |s| ==> s[i] <= t[i]
    ensures CountAtLeast(s, k) <= CountAtLeast(t, k)
  {
    if s != [] {
      CountPointwise(s[..|s| - 1], t[..|t| - 1], k);
    }
  }

  /**
   * The scorers' bands never exceed the counts of `stats` on the same
   * titles, since `stats` only boosts; for RapidFuzz, which has no boost,
   * they agree.
   */
  lemma BandsBelowStats(m: Matcher, title: string, tp: TitledPos, cs: seq<string>)
    requires |cs| == |tp| && forall i :: 0 <= i < |tp| ==> cs[i] == tp[i].0
    ensures var b, st := BandsOf(Scored(m, title, tp)), StatsOf(m, title, cs);
      && b.n95 <= st.n95 && b.n90 <= st.n90 && b.n80 <= st.n80
      && (m.RapidFuzzMatcher? ==> b.n95 == st.n95 && b.n90 == st.n90 && b.n80 == st.n80)
  {
    var s := Seqs.Firsts(Scored(m, title, tp));
    var u := Scores(m, title, cs);
    forall i | 0 <= i < |s|
      ensures s[i] <= u[i] && (m.RapidFuzzMatcher? ==> s[i] == u[i])
    {
      BoostedBounds(m, title, cs[i]);
    }
    CountPointwise(s, u, 95);
    CountPointwise(s, u, 90);
    CountPointwise(s, u, 80);
    if m.RapidFuzzMatcher? {
      assert s == u;
    }
  }

  // ---------------------------------------------------------------------
  // The scorers
  // ---------------------------------------------------------------------

  function Max0(x: int): (r: int)
    ensures r >= 0 && r >= x && (r == 0 || r == x)
  {
    if x > 0 then x else 0
  }

  /** `score_domain` */
  function ScoreDomain(av: DomainCheck.DomainAvailability, cfg: UniquenessConfig): (r: ComponentScore)
    ensures r.name == "domain"
    ensures r.details == DomainDetails(av.available, av.rdapStatus)
    ensures var base := DictGet(cfg.weights, "domain", 25);
      && (av.available == Some(true) ==> r.score == base)
      && (av.available != Some(true) ==> r.score >= 0 && r.score == if base >= 10 then base - 10 else 0)
  {
    var base := DictGet(cfg.weights, "domain", 25);
    var score := if av.available == Some(true) then base else Max0(base - 10);
    ComponentScore("domain", score, DomainDetails(av.available, av.rdapStatus))
  }

  /**
   * An unknown availability scores like a registered domain, and a free
   * domain scores at least as well as either whenever the weight is
   * non-negative.
   */
  lemma ScoreDomainOrder(av: DomainCheck.DomainAvailability, cfg: UniquenessConfig)
    requires DictGet(cfg.weights, "domain", 25) >= 0
    ensures var free, taken, unknown := av.(available := Some(true)), av.(available := Some(false)), av.(available := None);
      && ScoreDomain(unknown, cfg).score == ScoreDomain(taken, cfg).score
      && ScoreDomain(taken, cfg).score <= ScoreDomain(free, cfg).score
      && ScoreDomain(free, cfg).score - ScoreDomain(taken, cfg).score <= 10
  {
  }

  /** The points of `score_appfollow`: 8 per >=95 title, 4 per 90-94, 2 per 80-89, 3 more for a hit in the top 3. */
  function AppFollowPoints(base: int, b: Bands): (r: int)
    ensures r >= 0
    ensures base >= 0 ==> r <= base
    ensures b.n95 == b.n90 == b.n80 == 0 && b.topPos.None? ==> r == Max0(base)
  {
    var score := base - 8 * b.n95 - 4 * (b.n90 - b.n95) - 2 * (b.n80 - b.n90)
      - (if b.topPos.Some? && b.topPos.value <= 3 then 3 else 0);
    Max0(score)
  }

  /** The points of `score_play`: 6 per >=95 title, 3 per 90-94, 1 per 80-89, 2 more for a hit in the top 3. */
  function PlayPoints(base: int, b: Bands): (r: int)
    ensures r >= 0
    ensures base >= 0 ==> r <= base
    ensures b.n95 == b.n90 == b.n80 == 0 && b.topPos.None? ==> r == Max0(base)
  {
    var score := base - 6 * b.n95 - 3 * (b.n90 - b.n95) - 1 * (b.n80 - b.n90)
      - (if b.topPos.Some? && b.topPos.value <= 3 then 2 else 0);
    Max0(score)
  }

  /** The position penalty of `score_google`: 20 for the top 3, 10 for the top 10, 4 below. */
  function GooglePositionPenalty(topPos: Option<int>): (p: int)
    ensures topPos.None? <==> p == 0
    ensures p in {0, 4, 10, 20}
  {
    if topPos.None? then 0
    else if topPos.value <= 3 then 20
    else if topPos.value <= 10 then 10
    else 4
  }

  /** The points of `score_google`: the position penalty, then 2 per >=95 result capped at 10 and 1 per 90-94 capped at 5. */
  function GooglePoints(base: int, b: Bands): (r: int)
    requires b.n95 <= b.n90
    ensures r >= 0
    ensures base >= 0 ==> r <= base
    ensures b.n90 == 0 ==> r == Max0(base - GooglePositionPenalty(b.topPos))
    ensures r >= base - 35
  {
    var score := base - GooglePositionPenalty(b.topPos);
    var score' := score - Min(10, 2 * b.n95) - Min(5, 1 * (b.n90 - b.n95));
    Max0(score')
  }

  function Min(a: int, b: int): int
  {
    if a <= b then a else b
  }

  /** What `score_appfollow` returns for these titled positions. */
  function AppFollowScore(tp: TitledPos, title: string, m: Matcher, cfg: UniquenessConfig): ComponentScore
  {
    var b := BandsOf(Scored(m, title, tp));
    ComponentScore("appfollow", AppFollowPoints(DictGet(cfg.weights, "appfollow", 25), b),
                   BandDetails(b.n95, b.n90, b.n80, b.topPos))
  }

  /** What `score_play` returns for these titled positions. */
  function PlayScore(tp: TitledPos, title: string, m: Matcher, cfg: UniquenessConfig): ComponentScore
  {
    var b := BandsOf(Scored(m, title, tp));
    ComponentScore("play", PlayPoints(DictGet(cfg.weights, "play", 20), b),
                   BandDetails(b.n95, b.n90, b.n80, b.topPos))
  }

  /** What `score_google` returns for these titled positions. */
  function GoogleScore(tp: TitledPos, title: string, m: Matcher, cfg: UniquenessConfig): ComponentScore
  {
    var b := BandsOf(Scored(m, title, tp));
    BandsNested(Scored(m, title, tp));
    ComponentScore("google", GooglePoints(DictGet(cfg.weights, "google", 30), b),
                   BandDetails(b.n95, b.n90, b.n80, b.topPos))
  }

  /** `score_appfollow`: the `stats` argument is not read. */
  method ScoreAppFollow(stats: MatchStats, tp: TitledPos, title: string, m: Matcher, cfg: UniquenessConfig)
    returns (r: ComponentScore)
    ensures r == AppFollowScore(tp, title, m, cfg)
  {
    var base := DictGet(cfg.weights, "appfollow", 25);
    var b := BandCounts(m, title, tp);
    r := ComponentScore("appfollow", AppFollowPoints(base, b), BandDetails(b.n95, b.n90, b.n80, b.topPos));
  }

  /** `score_play`: the `stats` argument is not read. */
  method ScorePlay(stats: MatchStats, tp: TitledPos, title: string, m: Matcher, cfg: UniquenessConfig)
    returns (r: ComponentScore)
    ensures r == PlayScore(tp, title, m, cfg)
  {
    var base := DictGet(cfg.weights, "play", 20);
    var b := BandCounts(m, title, tp);
    r := ComponentScore("play", PlayPoints(base, b), BandDetails(b.n95, b.n90, b.n80, b.topPos));
  }

  /** `score_google`: the `stats` argument is not read. */
  method ScoreGoogle(stats: MatchStats, tp: TitledPos, title: string, m: Matcher, cfg: UniquenessConfig)
    returns (r: ComponentScore)
    ensures r == GoogleScore(tp, title, m, cfg)
  {
    var base := DictGet(cfg.weights, "google", 30);
    var b := BandCounts(m, title, tp);
    BandsNested(Scored(m, title, tp));
    r := ComponentScore("google", GooglePoints(base, b), BandDetails(b.n95, b.n90, b.n80, b.topPos));
  }

  /**
   * Each title-based component lies in [0, weight] for a non-negative
   * weight, and records its bands without a warning.
   */
  lemma TitledScoresBounded(tp: TitledPos, title: string, m: Matcher, cfg: UniquenessConfig)
    ensures var w := DictGet(cfg.weights, "appfollow", 25); var c := AppFollowScore(tp, title, m, cfg);
      c.details.BandDetails? && 0 <= c.score && (w >= 0 ==> c.score <= w)
    ensures var w := DictGet(cfg.weights, "play", 20); var c := PlayScore(tp, title, m, cfg);
      c.details.BandDetails? && 0 <= c.score && (w >= 0 ==> c.score <= w)
    ensures var w := DictGet(cfg.weights, "google", 30); var c := GoogleScore(tp, title, m, cfg);
      c.details.BandDetails? && 0 <= c.score && (w >= 0 ==> c.score <= w)
  {
  }

  // ---------------------------------------------------------------------
  // More near-duplicates never raise a score
  // ---------------------------------------------------------------------

  /** `b'` is `b` after one more entry scoring `sc`. */
  predicate OneMore(b: Bands, b': Bands, sc: int)
  {
    && b'.n95 == b.n95 + (if sc >= 95 then 1 else 0)
    && b'.n90 == b.n90 + (if sc >= 90 then 1 else 0)
    && b'.n80 == b.n80 + (if sc >= 80 then 1 else 0)
    && (b.topPos.Some? ==> b'.topPos.Some? && b'.topPos.value <= b.topPos.value)
  }

  lemma OneMoreSnoc(sp: seq<(int, Option<int>)>, e: (int, Option<int>))
    ensures OneMore(BandsOf(sp), BandsOf(sp + [e]), e.0)
  {
    BandsSnoc(sp, e);
  }

  lemma AppFollowAntitone(base: int, b: Bands, b': Bands, sc: int)
    requires OneMore(b, b', sc)
    ensures AppFollowPoints(base, b') <= AppFollowPoints(base, b)
  {
  }

  lemma PlayAntitone(base: int, b: Bands, b': Bands, sc: int)
    requires OneMore(b, b', sc)
    ensures PlayPoints(base, b') <= PlayPoints(base, b)
  {
  }

  lemma GoogleAntitone(base: int, b: Bands, b': Bands, sc: int)
    requires OneMore(b, b', sc) && b.n95 <= b.n90
    ensures GooglePositionPenalty(b.topPos) <= GooglePositionPenalty(b'.topPos)
    ensures GooglePoints(base, b') <= GooglePoints(base, b)
  {
  }

  /**
   * Appending a candidate title to a provider's list never raises that
   * component's points, for all three title-based scorers.
   */
  lemma MoreTitlesNeverHelp(m: Matcher, title: string, tp: TitledPos, x: (string, Option<int>), base: int)
    ensures var b, b' := BandsOf(Scored(m, title, tp)), BandsOf(Scored(m, title, tp + [x]));
      && b.n95 <= b.n90 && b'.n95 <= b'.n90
      && AppFollowPoints(base, b') <= AppFollowPoints(base, b)
      && PlayPoints(base, b') <= PlayPoints(base, b)
      && GooglePoints(base, b') <= GooglePoints(base, b)
  {
    var sp := Scored(m, title, tp);
    var e := (ScorePair(m, title, x.0), x.1);
    ScoredSnoc(m, title, tp, x);
    var b, b' := BandsOf(sp), BandsOf(sp + [e]);
    BandsNested(sp);
    BandsNested(sp + [e]);
    OneMoreSnoc(sp, e);
    AppFollowAntitone(base, b, b', e.0);
    PlayAntitone(base, b, b', e.0);
    GoogleAntitone(base, b, b', e.0);
  }

  lemma ScoredSnoc(m: Matcher, title: string, tp: TitledPos, x: (string, Option<int>))
    ensures Scored(m, title, tp + [x]) == Scored(m, title, tp) + [(ScorePair(m, title, x.0), x.1)]
  {
    var r, sp := Scored(m, title, tp + [x]), Scored(m, title, tp);
    forall i | 0 <= i < |tp|
      ensures r[i] == sp[i]
    {
      assert (tp + [x])[i] == tp[i];
    }
    assert r[|tp|] == (ScorePair(m, title, x.0), x.1);
  }

  /**
   * With the default weights, an exact duplicate of the title in first
   * place costs AppFollow 11 of 25 points, Play 8 of 20, Google 22 of 30.
   */
  lemma ExactDuplicateAtTop(r: Ratio, title: string)
    ensures var b := BandsOf(Scored(BuiltinMatcher(r), title, [(title, Some(1))]));
      && b == Bands(1, 1, 1, Some(1))
      && AppFollowPoints(25, b) == 14
      && PlayPoints(20, b) == 12
      && GooglePoints(30, b) == 8
  {
    ExactDuplicateBands(r, title);
    TopDuplicatePoints();
  }

  lemma TopDuplicatePoints()
    ensures var b := Bands(1, 1, 1, Some(1));
      AppFollowPoints(25, b) == 14 && PlayPoints(20, b) == 12 && GooglePoints(30, b) == 8
  {
  }

  lemma ExactDuplicateBands(r: Ratio, title: string)
    ensures BandsOf(Scored(BuiltinMatcher(r), title, [(title, Some(1))])) == Bands(1, 1, 1, Some(1))
  {
    ScoredSelf(r, title);
    BandsOfOne((100, Some(1)));
  }

  lemma ScoredSelf(r: Ratio, title: string)
    ensures Scored(BuiltinMatcher(r), title, [(title, Some(1))]) == [(100, Some(1))]
  {
    ScoredSingle(BuiltinMatcher(r), title, (title, Some(1)));
    assert ScorePair(BuiltinMatcher(r), title, title) == 100;
  }

  lemma ScoredSingle(m: Matcher, title: string, x: (string, Option<int>))
    ensures Scored(m, title, [x]) == [(ScorePair(m, title, x.0), x.1)]
  {
  }

  lemma BandsOfOne(e: (int, Option<int>))
    ensures BandsOf([e]) == Tallied(Bands(0, 0, 0, None), e)
  {
    BandsSnoc([], e);
    assert [] + [e] == [e];
  }
}
