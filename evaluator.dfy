/**
 * The uniqueness evaluator (`evaluate/evaluator.py`): for every requested
 * locale it asks the four providers, scores each answer (or substitutes a
 * neutral half-weight score when the provider raised), then keeps the worst
 * score of each component across locales, sums them and bins the sum into a
 * grade.
 *
 * The providers are inputs: each call's outcome for the arguments the
 * evaluator passes, `Failure` holding the text of the exception raised.
 */
module Evaluator {
  import opened Wrappers
  import opened Text
  import opened EvalTypes
  import opened Dicts
  import opened Matcher
  import opened Scoring
  import DomainCheck
  import TitleCheck
  import GoogleRank
  import Seqs

  /**
   * `_dom.check(title)`, `_af.fetch(title, country=...)`,
   * `_ps.fetch(title, hl=..., gl=...)` and
   * `_serp.fetch(title, location_code=..., language_code=...)`.
   */
  datatype Providers = Providers(
    dom: string -> Result<DomainCheck.DomainAvailability, string>,
    af: (string, string) -> Result<TitleCheck.TitleCheckResult, string>,
    ps: (string, string, string) -> Result<TitleCheck.TitleCheckResult, string>,
    serp: (string, int, string) -> Result<GoogleRank.GoogleRankResult, string>)

  /** The similarity libraries: difflib's ratio, and RapidFuzz's `WRatio` when it is installed. */
  datatype Libraries = Libraries(ratio: Ratio, rapidfuzz: Option<WRatio>)

  // ---------------------------------------------------------------------
  // Matcher resolution
  // ---------------------------------------------------------------------

  /** `RapidFuzzMatcher()`: raises when the library cannot be imported. */
  function NewRapidFuzz(libs: Libraries): (r: Result<Matcher, string>)
    ensures r.Success? <==> libs.rapidfuzz.Some?
    ensures r.Success? ==> r.value.RapidFuzzMatcher?
  {
    match libs.rapidfuzz
    case Some(w) => Success(RapidFuzzMatcher(w))
    case None => Failure("rapidfuzz is not installed")
  }

  /**
   * `_resolve_matcher`: only an explicit "rapidfuzz" can fail; "builtin"
   * always gives the builtin matcher, and "auto" gives RapidFuzz when it is
   * installed and the builtin matcher otherwise.
   */
  function ResolveMatcher(engine: Engine, libs: Libraries): (r: Result<Matcher, string>)
    ensures r.Failure? <==> engine == RapidFuzzEngine && libs.rapidfuzz.None?
    ensures r.Success? && r.value.BuiltinMatcher? ==> engine != RapidFuzzEngine && r.value.ratio == libs.ratio
    ensures r.Success? && r.value.RapidFuzzMatcher? ==> engine != BuiltinEngine && libs.rapidfuzz == Some(r.value.wratio)
    ensures engine == Auto ==> r.Success? && (r.value.RapidFuzzMatcher? <==> libs.rapidfuzz.Some?)
  {
    match engine
    case RapidFuzzEngine => NewRapidFuzz(libs)
    case BuiltinEngine => Success(BuiltinMatcher(libs.ratio))
    case Auto =>
      match NewRapidFuzz(libs)
      case Success(m) => Success(m)
      case Failure(_) => Success(BuiltinMatcher(libs.ratio))
  }

  // ---------------------------------------------------------------------
  // Neutral scores
  // ---------------------------------------------------------------------

  /** `round(w / 2)`: Python rounds a half to the even neighbour. */
  function RoundHalf(w: int): (r: int)
    ensures -1 <= 2 * r - w <= 1
    ensures 2 * r != w ==> r % 2 == 0
  {
    var k := w / 2;
    if w % 2 == 0 || k % 2 == 0 then k else k + 1
  }

  /** The nearest integer to `w / 2`, ties to even, is unique: `RoundHalf` is that integer. */
  lemma RoundHalfUnique(w: int, r: int)
    requires -1 <= 2 * r - w <= 1
    requires 2 * r != w ==> r % 2 == 0
    ensures r == RoundHalf(w)
  {
    var k := w / 2;
    assert w == 2 * k + w % 2;
    if 2 * r == w {
      assert w % 2 == 0 && r == k;
    } else {
      assert w % 2 == 1;
      assert r == k || r == k + 1;
      if r == k {
        assert k % 2 == 0;
      } else {
        assert (k + 1) % 2 == 0;
        assert k % 2 == 1;
      }
    }
  }

  /**
   * `_neutral_component`: half the configured weight (0 when the component
   * has no weight), rounded half to even, floored at 0, with the message as
   * its only detail.
   */
  function NeutralComponent(name: string, cfg: UniquenessConfig, message: string): (c: ComponentScore)
    ensures c.name == name && c.details == WarningDetails(message)
    ensures var w := DictGet(cfg.weights, name, 0);
      && c.score >= 0
      && (w >= 0 ==> c.score <= w && c.score == RoundHalf(w))
      && (w < 0 ==> c.score == 0)
  {
    var weight := DictGet(cfg.weights, name, 0);
    var neutral := RoundHalf(weight);
    ComponentScore(name, if neutral > 0 then neutral else 0, WarningDetails(message))
  }

  /** Halves of 25 and 15 both round to an even number: 12 and 8; 20 and 30 give 10 and 15. */
  lemma RoundHalfExamples()
    ensures RoundHalf(25) == 12 && RoundHalf(15) == 8
    ensures RoundHalf(20) == 10 && RoundHalf(30) == 15 && RoundHalf(1) == 0 && RoundHalf(3) == 2
  {
  }

  // ---------------------------------------------------------------------
  // One locale
  // ---------------------------------------------------------------------

  /** The domain component: the domain score, or the neutral score when the check raised. */
  function DomainComponent(o: Result<DomainCheck.DomainAvailability, string>, cfg: UniquenessConfig): ComponentScore
  {
    match o
    case Success(av) => ScoreDomain(av, cfg)
    case Failure(e) => NeutralComponent("domain", cfg, "Domain check failed: " + e)
  }

  /** `[(s.term, s.pos) for s in suggestions]` */
  function SuggestionPairs(ss: seq<TitleCheck.Suggestion>): (tp: TitledPos)
    ensures |tp| == |ss|
    ensures forall i :: 0 <= i < |ss| ==> tp[i] == (ss[i].term, ss[i].pos)
  {
    seq(|ss|, i requires 0 <= i < |ss| => (ss[i].term, ss[i].pos))
  }

  /** `[(m.title, m.rank_absolute) for m in matches]` */
  function MatchPairs(ms: seq<GoogleRank.OrganicItem>): (tp: TitledPos)
    ensures |tp| == |ms|
    ensures forall i :: 0 <= i < |ms| ==> tp[i] == (ms[i].title, ms[i].rankAbsolute)
  {
    seq(|ms|, i requires 0 <= i < |ms| => (ms[i].title, ms[i].rankAbsolute))
  }

  /**
   * What a locale report needs from the matcher: `matcher.stats(title, ...)`
   * and the three title-based scorers, applied to a provider's titles.
   */
  datatype Scorers = Scorers(
    stats: seq<string> -> MatchStats,
    af: TitledPos -> ComponentScore,
    ps: TitledPos -> ComponentScore,
    google: TitledPos -> ComponentScore)

  /** The scorers for `title` under matcher `m` and configuration `cfg`. */
  function ScorersOf(m: Matcher, title: string, cfg: UniquenessConfig): Scorers
  {
    Scorers(cs => StatsOf(m, title, cs),
            tp => AppFollowScore(tp, title, m, cfg),
            tp => PlayScore(tp, title, m, cfg),
            tp => GoogleScore(tp, title, m, cfg))
  }

  /** Every title-based score records its bands (no warning) and lies in [0, weight] for a non-negative weight. */
  ghost predicate Bounded(sc: Scorers, cfg: UniquenessConfig)
  {
    && (forall tp :: sc.af(tp).details.BandDetails? && Within(sc.af(tp).score, DictGet(cfg.weights, "appfollow", 25)))
    && (forall tp :: sc.ps(tp).details.BandDetails? && Within(sc.ps(tp).score, DictGet(cfg.weights, "play", 20)))
    && (forall tp :: sc.google(tp).details.BandDetails? && Within(sc.google(tp).score, DictGet(cfg.weights, "google", 30)))
  }

  predicate Within(score: int, weight: int)
  {
    score >= 0 && (weight >= 0 ==> score <= weight)
  }

  lemma ScorersOfBounded(m: Matcher, title: string, cfg: UniquenessConfig)
    ensures Bounded(ScorersOf(m, title, cfg), cfg)
  {
    var sc := ScorersOf(m, title, cfg);
    forall tp: TitledPos
      ensures sc.af(tp).details.BandDetails? && Within(sc.af(tp).score, DictGet(cfg.weights, "appfollow", 25))
    {
      TitledScoresBounded(tp, title, m, cfg);
    }
    forall tp: TitledPos
      ensures sc.ps(tp).details.BandDetails? && Within(sc.ps(tp).score, DictGet(cfg.weights, "play", 20))
    {
      TitledScoresBounded(tp, title, m, cfg);
    }
    forall tp: TitledPos
      ensures sc.google(tp).details.BandDetails? && Within(sc.google(tp).score, DictGet(cfg.weights, "google", 30))
    {
      TitledScoresBounded(tp, title, m, cfg);
    }
  }

  /** The App Store statistics and component: scored suggestions, or neutral on failure. */
  function AppFollowPart(o: Result<TitleCheck.TitleCheckResult, string>, sc: Scorers, cfg: UniquenessConfig)
    : (MatchStats, ComponentScore)
  {
    match o
    case Success(res) =>
      var tp := SuggestionPairs(res.suggestions);
      (sc.stats(Seqs.Firsts(tp)), sc.af(tp))
    case Failure(e) => (sc.stats([]), NeutralComponent("appfollow", cfg, "AppFollow failed: " + e))
  }

  /** The Play Store statistics and component. */
  function PlayPart(o: Result<TitleCheck.TitleCheckResult, string>, sc: Scorers, cfg: UniquenessConfig)
    : (MatchStats, ComponentScore)
  {
    match o
    case Success(res) =>
      var tp := SuggestionPairs(res.suggestions);
      (sc.stats(Seqs.Firsts(tp)), sc.ps(tp))
    case Failure(e) => (sc.stats([]), NeutralComponent("play", cfg, "Play search failed: " + e))
  }

  /** The search-engine statistics, verification URL and component. */
  function SerpPart(o: Result<GoogleRank.GoogleRankResult, string>, sc: Scorers, cfg: UniquenessConfig)
    : (MatchStats, Option<string>, ComponentScore)
  {
    match o
    case Success(res) =>
      var tp := MatchPairs(res.matches);
      (sc.stats(Seqs.Firsts(tp)), res.checkUrl, sc.google(tp))
    case Failure(e) => (sc.stats([]), None, NeutralComponent("google", cfg, "SERP fetch failed: " + e))
  }

  /** The component names of every locale report, in the order the source builds the dict. */
  const ComponentNames: seq<string> := ["domain", "appfollow", "play", "google"]

  /** The locale report `evaluate` assembles for `loc`. */
  function LocaleReportOf(title: string, loc: LocaleSpec, cfg: UniquenessConfig, prov: Providers, sc: Scorers): LocaleReport
  {
    var dom := DomainComponent(prov.dom(title), cfg);
    var (afStats, af) := AppFollowPart(prov.af(title, loc.country), sc, cfg);
    var (psStats, ps) := PlayPart(prov.ps(title, loc.hl, loc.gl), sc, cfg);
    var (serpStats, url, google) := SerpPart(prov.serp(title, loc.locationCode, loc.languageCode), sc, cfg);
    LocaleReport(loc, [("domain", dom), ("appfollow", af), ("play", ps), ("google", google)],
                 Features(afStats, psStats, serpStats, url))
  }

  /** The body of `evaluate`'s loop for one locale: each provider in turn, each failure caught on its own. */
  method AssembleLocale(title: string, loc: LocaleSpec, m: Matcher, cfg: UniquenessConfig, prov: Providers)
    returns (rep: LocaleReport)
    ensures rep == LocaleReportOf(title, loc, cfg, prov, ScorersOf(m, title, cfg))
  {
    var scDomain := DomainStep(prov.dom(title), cfg);
    var afStats, scAf := AppFollowStep(prov.af(title, loc.country), title, m, cfg);
    var psStats, scPs := PlayStep(prov.ps(title, loc.hl, loc.gl), title, m, cfg);
    var serpStats, serpCheckUrl, scGoogle := SerpStep(prov.serp(title, loc.locationCode, loc.languageCode), title, m, cfg);
    rep := LocaleReport(loc, [("domain", scDomain), ("appfollow", scAf), ("play", scPs), ("google", scGoogle)],
                        Features(afStats, psStats, serpStats, serpCheckUrl));
  }

  /** The domain block of the loop body: score the availability, or the neutral score when the check raised. */
  method DomainStep(o: Result<DomainCheck.DomainAvailability, string>, cfg: UniquenessConfig) returns (scDomain: ComponentScore)
    ensures scDomain == DomainComponent(o, cfg)
  {
    match o {
      case Success(dom) =>
        scDomain := ScoreDomain(dom, cfg);
      case Failure(e) =>
        scDomain := NeutralComponent("domain", cfg, "Domain check failed: " + e);
    }
  }

  /** The App Store block of the loop body. */
  method AppFollowStep(o: Result<TitleCheck.TitleCheckResult, string>, title: string, m: Matcher, cfg: UniquenessConfig)
    returns (afStats: MatchStats, scAf: ComponentScore)
    ensures (afStats, scAf) == AppFollowPart(o, ScorersOf(m, title, cfg), cfg)
  {
    afStats := Stats(m, title, []);
    match o {
      case Success(af) =>
        var afTitles := SuggestionPairs(af.suggestions);
        afStats := Stats(m, title, Seqs.Firsts(afTitles));
        scAf := ScoreAppFollow(afStats, afTitles, title, m, cfg);
      case Failure(e) =>
        scAf := NeutralComponent("appfollow", cfg, "AppFollow failed: " + e);
    }
  }

  /** The Play Store block of the loop body. */
  method PlayStep(o: Result<TitleCheck.TitleCheckResult, string>, title: string, m: Matcher, cfg: UniquenessConfig)
    returns (psStats: MatchStats, scPs: ComponentScore)
    ensures (psStats, scPs) == PlayPart(o, ScorersOf(m, title, cfg), cfg)
  {
    psStats := Stats(m, title, []);
    match o {
      case Success(ps) =>
        var psTitles := SuggestionPairs(ps.suggestions);
        psStats := Stats(m, title, Seqs.Firsts(psTitles));
        scPs := ScorePlay(psStats, psTitles, title, m, cfg);
      case Failure(e) =>
        scPs := NeutralComponent("play", cfg, "Play search failed: " + e);
    }
  }

  /** The search-engine block of the loop body. */
  method SerpStep(o: Result<GoogleRank.GoogleRankResult, string>, title: string, m: Matcher, cfg: UniquenessConfig)
    returns (serpStats: MatchStats, serpCheckUrl: Option<string>, scGoogle: ComponentScore)
    ensures (serpStats, serpCheckUrl, scGoogle) == SerpPart(o, ScorersOf(m, title, cfg), cfg)
  {
    serpStats := Stats(m, title, []);
    serpCheckUrl := None;
    match o {
      case Success(serp) =>
        var serpTitles := MatchPairs(serp.matches);
        serpStats := Stats(m, title, Seqs.Firsts(serpTitles));
        serpCheckUrl := serp.checkUrl;
        scGoogle := ScoreGoogle(serpStats, serpTitles, title, m, cfg);
      case Failure(e) =>
        scGoogle := NeutralComponent("google", cfg, "SERP fetch failed: " + e);
    }
  }

  /**
   * A locale report has the four components in order; each carries a
   * warning exactly when its provider raised, and lies in [0, weight] for
   * non-negative weights (the scorers' defaults standing in for a missing
   * weight, where the neutral score uses 0).
   */
  lemma LocaleReportMeaning(title: string, loc: LocaleSpec, cfg: UniquenessConfig, prov: Providers, sc: Scorers)
    requires Bounded(sc, cfg)
    ensures var rep := LocaleReportOf(title, loc, cfg, prov, sc);
      && rep.locale == loc
      && Seqs.Firsts(rep.components) == ComponentNames
      && (prov.dom(title).Failure? <==> rep.components[0].1.details.WarningDetails?)
      && (prov.af(title, loc.country).Failure? <==> rep.components[1].1.details.WarningDetails?)
      && (prov.ps(title, loc.hl, loc.gl).Failure? <==> rep.components[2].1.details.WarningDetails?)
      && (prov.serp(title, loc.locationCode, loc.languageCode).Failure? <==> rep.components[3].1.details.WarningDetails?)
      && (prov.serp(title, loc.locationCode, loc.languageCode).Failure? ==> rep.features.serpCheckUrl.None?)
    ensures var rep := LocaleReportOf(title, loc, cfg, prov, sc);
      forall i :: 0 <= i < 4 ==> InWeight(cfg, ComponentNames[i], rep.components[i].1.score)
  {
    var rep := LocaleReportOf(title, loc, cfg, prov, sc);
    var dom := DomainComponent(prov.dom(title), cfg);
    var af := AppFollowPart(prov.af(title, loc.country), sc, cfg).1;
    var ps := PlayPart(prov.ps(title, loc.hl, loc.gl), sc, cfg).1;
    var serp := SerpPart(prov.serp(title, loc.locationCode, loc.languageCode), sc, cfg);
    assert rep.components == [("domain", dom), ("appfollow", af), ("play", ps), ("google", serp.2)];
    assert rep.features.serpCheckUrl == serp.1;
    assert Seqs.Firsts(rep.components) == ComponentNames;
    DomainComponentInWeight(prov.dom(title), cfg);
    AppFollowPartInWeight(prov.af(title, loc.country), sc, cfg);
    PlayPartInWeight(prov.ps(title, loc.hl, loc.gl), sc, cfg);
    SerpPartInWeight(prov.serp(title, loc.locationCode, loc.languageCode), sc, cfg);
    FourInWeight(cfg, rep.components);
  }

  lemma FourInWeight(cfg: UniquenessConfig, cs: Dict<ComponentScore>)
    requires |cs| == 4
    requires InWeight(cfg, "domain", cs[0].1.score) && InWeight(cfg, "appfollow", cs[1].1.score)
    requires InWeight(cfg, "play", cs[2].1.score) && InWeight(cfg, "google", cs[3].1.score)
    ensures forall i :: 0 <= i < 4 ==> InWeight(cfg, ComponentNames[i], cs[i].1.score)
  {
    forall i | 0 <= i < 4
      ensures InWeight(cfg, ComponentNames[i], cs[i].1.score)
    {
      if i == 0 {
        assert ComponentNames[i] == "domain";
      } else if i == 1 {
        assert ComponentNames[i] == "appfollow";
      } else if i == 2 {
        assert ComponentNames[i] == "play";
      } else {
        assert ComponentNames[i] == "google";
      }
    }
  }

  lemma AppFollowPartInWeight(o: Result<TitleCheck.TitleCheckResult, string>, sc: Scorers, cfg: UniquenessConfig)
    requires Bounded(sc, cfg)
    ensures var c := AppFollowPart(o, sc, cfg).1;
      (o.Failure? <==> c.details.WarningDetails?) && InWeight(cfg, "appfollow", c.score)
  {
    NeutralInWeight("appfollow", cfg, "AppFollow failed: ");
    DictGetDefaults(cfg.weights, "appfollow", 25, 0);
  }

  lemma PlayPartInWeight(o: Result<TitleCheck.TitleCheckResult, string>, sc: Scorers, cfg: UniquenessConfig)
    requires Bounded(sc, cfg)
    ensures var c := PlayPart(o, sc, cfg).1;
      (o.Failure? <==> c.details.WarningDetails?) && InWeight(cfg, "play", c.score)
  {
    NeutralInWeight("play", cfg, "Play search failed: ");
    DictGetDefaults(cfg.weights, "play", 20, 0);
  }

  lemma SerpPartInWeight(o: Result<GoogleRank.GoogleRankResult, string>, sc: Scorers, cfg: UniquenessConfig)
    requires Bounded(sc, cfg)
    ensures var (_, url, c) := SerpPart(o, sc, cfg);
      (o.Failure? <==> c.details.WarningDetails?) && InWeight(cfg, "google", c.score) && (o.Failure? ==> url.None?)
  {
    NeutralInWeight("google", cfg, "SERP fetch failed: ");
    DictGetDefaults(cfg.weights, "google", 30, 0);
  }

  /** Under a present key the default does not matter. */
  lemma {:induction false} DictGetDefaults(d: Dict<int>, key: string, a: int, b: int)
    ensures HasKey(d, key) ==> DictGet(d, key, a) == DictGet(d, key, b)
  {
    if d != [] && d[0].0 != key {
      DictGetDefaults(d[1..], key, a, b);
      if HasKey(d, key) {
        var i :| 0 <= i < |d| && d[i].0 == key;
        assert d[1..][i - 1].0 == key;
      }
    }
  }

  lemma DomainComponentInWeight(o: Result<DomainCheck.DomainAvailability, string>, cfg: UniquenessConfig)
    ensures InWeight(cfg, "domain", DomainComponent(o, cfg).score)
    ensures o.Failure? <==> DomainComponent(o, cfg).details.WarningDetails?
  {
    DictGetDefaults(cfg.weights, "domain", 25, 0);
  }

  /** A neutral score lies in [0, weight] even where the scorer's default weight replaces a missing one. */
  lemma NeutralInWeight(name: string, cfg: UniquenessConfig, prefix: string)
    ensures forall e :: InWeight(cfg, name, NeutralComponent(name, cfg, prefix + e).score)
  {
    DictGetDefaults(cfg.weights, name, ScorerWeight(cfg, name), 0);
    DictGetDefaults(cfg.weights, name, if name == "domain" || name == "appfollow" then 25 else if name == "play" then 20 else 30, 0);
  }

  /** The weight a scorer starts from: the configured one, or the scorer's own default. */
  function ScorerWeight(cfg: UniquenessConfig, name: string): int
  {
    DictGet(cfg.weights, name, if name == "domain" || name == "appfollow" then 25 else if name == "play" then 20 else 30)
  }

  /** `score` lies in [0, weight] whenever the weight is non-negative. */
  predicate InWeight(cfg: UniquenessConfig, name: string, score: int)
  {
    ScorerWeight(cfg, name) >= 0 && DictGet(cfg.weights, name, 0) >= 0 ==> 0 <= score <= ScorerWeight(cfg, name)
  }

  /**
   * A provider's failure changes only its own component: two provider sets
   * that agree on the App Store call give the same App Store component and
   * statistics, and likewise for each other provider.
   */
  lemma FailuresAreIsolated(title: string, loc: LocaleSpec, cfg: UniquenessConfig, sc: Scorers, p: Providers, q: Providers)
    ensures var a, b := LocaleReportOf(title, loc, cfg, p, sc), LocaleReportOf(title, loc, cfg, q, sc);
      && (p.dom(title) == q.dom(title) ==> a.components[0] == b.components[0])
      && (p.af(title, loc.country) == q.af(title, loc.country) ==>
            a.components[1] == b.components[1] && a.features.af == b.features.af)
      && (p.ps(title, loc.hl, loc.gl) == q.ps(title, loc.hl, loc.gl) ==>
            a.components[2] == b.components[2] && a.features.ps == b.features.ps)
      && (p.serp(title, loc.locationCode, loc.languageCode) == q.serp(title, loc.locationCode, loc.languageCode) ==>
            a.components[3] == b.components[3] && a.features.serp == b.features.serp
            && a.features.serpCheckUrl == b.features.serpCheckUrl)
  {
  }

  // ---------------------------------------------------------------------
  // Combining locales
  // ---------------------------------------------------------------------

  /** One report's contribution to `ScoresFor`: its score for `name`, if it has that component. */
  function LastScore(rep: LocaleReport, name: string): seq<int>
  {
    match DictFind(rep.components, name)
    case Some(cs) => [cs.score]
    case None => []
  }

  /** The scores of component `name` in the reports that have it, in report order. */
  function ScoresFor(reps: seq<LocaleReport>, name: string): seq<int>
  {
    if reps == [] then []
    else
      ScoresFor(reps[..|reps| - 1], name) + LastScore(reps[|reps| - 1], name)
  }

  /** `min(vals) if vals else 0` */
  function MinOr0(s: seq<int>): (r: int)
    ensures s == [] ==> r == 0
    ensures s != [] ==> r in s && forall i :: 0 <= i < |s| ==> r <= s[i]
    ensures forall x :: x in s ==> r <= x
  {
    if s == [] then 0
    else if |s| == 1 then s[0]
    else
      var p := MinOr0(s[..|s| - 1]);
      assert forall i :: 0 <= i < |s| - 1 ==> s[..|s| - 1][i] == s[i];
      if s[|s| - 1] < p then s[|s| - 1] else p
  }

  /** What `_aggregate_components` returns: per name, the worst score over the reports that have it. */
  function Combined(reps: seq<LocaleReport>, names: seq<string>): (d: Dict<int>)
    ensures |d| == |names|
    ensures forall i :: 0 <= i < |names| ==> d[i] == (names[i], MinOr0(ScoresFor(reps, names[i])))
  {
    seq(|names|, i requires 0 <= i < |names| => (names[i], MinOr0(ScoresFor(reps, names[i]))))
  }

  lemma ScoresForStep(reps: seq<LocaleReport>, name: string, j: nat)
    requires j < |reps|
    ensures ScoresFor(reps[..j + 1], name) == ScoresFor(reps[..j], name) + LastScore(reps[j], name)
  {
    assert reps[..j + 1][..j] == reps[..j];
  }

  lemma CombinedStep(reps: seq<LocaleReport>, names: seq<string>, i: nat)
    requires i < |names|
    ensures Combined(reps, names[..i + 1]) == Combined(reps, names[..i]) + [(names[i], MinOr0(ScoresFor(reps, names[i])))]
  {
  }

  /** `_aggregate_components`: for each weighted component, the minimum over the locale reports. */
  method AggregateComponents(perLocale: seq<LocaleReport>, cfg: UniquenessConfig) returns (combined: Dict<int>)
    ensures combined == Combined(perLocale, Seqs.Firsts(cfg.weights))
  {
    var names := Seqs.Firsts(cfg.weights);
    combined := [];
    for i := 0 to |names|
      invariant combined == Combined(perLocale, names[..i])
    {
      var name := names[i];
      var vals: seq<int> := [];
      for j := 0 to |perLocale|
        invariant vals == ScoresFor(perLocale[..j], name)
      {
        ScoresForStep(perLocale, name, j);
        var cs := DictFind(perLocale[j].components, name);
        if cs.Some? {
          vals := vals + [cs.value.score];
        }
      }
      assert perLocale[..|perLocale|] == perLocale;
      CombinedStep(perLocale, names, i);
      combined := combined + [(name, MinOr0(vals))];
    }
    assert names[..|names|] == names;
  }

  /** The score of `name` in a report, when the report has that component. */
  predicate ScoredAs(rep: LocaleReport, name: string, x: int)
  {
    DictFind(rep.components, name).Some? && DictFind(rep.components, name).value.score == x
  }

  /** The scores collected for `name` are exactly those of the reports that have the component. */
  lemma {:induction false} ScoresForMeaning(reps: seq<LocaleReport>, name: string)
    ensures ScoresFor(reps, name) == [] <==> forall i :: 0 <= i < |reps| ==> !HasKey(reps[i].components, name)
    ensures forall i, x :: 0 <= i < |reps| && ScoredAs(reps[i], name, x) ==> x in ScoresFor(reps, name)
    ensures forall x :: x in ScoresFor(reps, name) ==> exists i :: 0 <= i < |reps| && ScoredAs(reps[i], name, x)
  {
    ScoresForEmpty(reps, name);
    ScoresForComplete(reps, name);
    ScoresForSound(reps, name);
  }

  lemma {:induction false} ScoresForEmpty(reps: seq<LocaleReport>, name: string)
    ensures ScoresFor(reps, name) == [] <==> forall i :: 0 <= i < |reps| ==> !HasKey(reps[i].components, name)
  {
    if reps != [] {
      var init, last := reps[..|reps| - 1], reps[|reps| - 1];
      ScoresForEmpty(init, name);
      assert forall i :: 0 <= i < |init| ==> init[i] == reps[i];
      assert LastScore(last, name) == [] <==> !HasKey(last.components, name);
    }
  }

  lemma {:induction false} ScoresForComplete(reps: seq<LocaleReport>, name: string)
    ensures forall i, x :: 0 <= i < |reps| && ScoredAs(reps[i], name, x) ==> x in ScoresFor(reps, name)
  {
    if reps != [] {
      var init, last := reps[..|reps| - 1], reps[|reps| - 1];
      ScoresForComplete(init, name);
      forall i, x | 0 <= i < |reps| && ScoredAs(reps[i], name, x)
        ensures x in ScoresFor(reps, name)
      {
        if i < |init| {
          assert init[i] == reps[i];
          assert x in ScoresFor(init, name);
        } else {
          assert x in LastScore(last, name);
        }
      }
    }
  }

  lemma {:induction false} ScoresForSound(reps: seq<LocaleReport>, name: string)
    ensures forall x :: x in ScoresFor(reps, name) ==> exists i :: 0 <= i < |reps| && ScoredAs(reps[i], name, x)
  {
    if reps != [] {
      var init, last := reps[..|reps| - 1], reps[|reps| - 1];
      ScoresForSound(init, name);
      forall x | x in ScoresFor(reps, name)
        ensures exists i :: 0 <= i < |reps| && ScoredAs(reps[i], name, x)
      {
        if x in ScoresFor(init, name) {
          var i :| 0 <= i < |init| && ScoredAs(init[i], name, x);
          assert init[i] == reps[i];
        } else {
          assert x in LastScore(last, name);
          assert ScoredAs(reps[|reps| - 1], name, x);
        }
      }
    }
  }

  /**
   * A combined entry is 0 when no report has the component, and otherwise
   * the score of some report that has it and no more than any such score.
   */
  lemma CombinedMeaning(reps: seq<LocaleReport>, name: string)
    ensures var v := MinOr0(ScoresFor(reps, name));
      && ((forall i :: 0 <= i < |reps| ==> !HasKey(reps[i].components, name)) ==> v == 0)
      && (forall i, x :: 0 <= i < |reps| && ScoredAs(reps[i], name, x) ==> v <= x)
      && ((exists i :: 0 <= i < |reps| && HasKey(reps[i].components, name)) ==>
            exists i :: 0 <= i < |reps| && ScoredAs(reps[i], name, v))
  {
    var s := ScoresFor(reps, name);
    var v := MinOr0(s);
    ScoresForMeaning(reps, name);
    forall i, x | 0 <= i < |reps| && ScoredAs(reps[i], name, x)
      ensures v <= x
    {
      assert x in s;
    }
    if exists i :: 0 <= i < |reps| && HasKey(reps[i].components, name) {
      assert s != [];
      assert v in s;
      var i :| 0 <= i < |reps| && ScoredAs(reps[i], name, v);
    }
  }

  /**
   * Adding a locale never raises a combined component, provided every
   * report has the same components (as every report `evaluate` builds does).
   */
  lemma AddingLocaleNeverRaises(reps: seq<LocaleReport>, r: LocaleReport, name: string)
    requires reps != []
    requires forall i :: 0 <= i < |reps| ==> Seqs.Firsts(reps[i].components) == Seqs.Firsts(r.components)
    ensures MinOr0(ScoresFor(reps + [r], name)) <= MinOr0(ScoresFor(reps, name))
  {
    var all := reps + [r];
    assert all[..|all| - 1] == reps;
    var last := reps[|reps| - 1];
    assert HasKey(r.components, name) <==> HasKey(last.components, name) by {
      SameKeysSameHas(last.components, r.components, name);
    }
    match DictFind(r.components, name)
    case None =>
      assert ScoresFor(all, name) == ScoresFor(reps, name) + [];
      assert ScoresFor(reps, name) + [] == ScoresFor(reps, name);
    case Some(cs) =>
      var s := ScoresFor(reps, name);
      assert s == ScoresFor(reps[..|reps| - 1], name) + [DictFind(last.components, name).value.score];
      MinSnocLe(s, cs.score);
  }

  lemma SameKeysSameHas(a: Dict<ComponentScore>, b: Dict<ComponentScore>, name: string)
    requires Seqs.Firsts(a) == Seqs.Firsts(b)
    ensures HasKey(a, name) <==> HasKey(b, name)
  {
    if HasKey(a, name) {
      var i :| 0 <= i < |a| && a[i].0 == name;
      assert Seqs.Firsts(a)[i] == b[i].0;
    }
    if HasKey(b, name) {
      var i :| 0 <= i < |b| && b[i].0 == name;
      assert Seqs.Firsts(b)[i] == a[i].0;
    }
  }

  lemma MinSnocLe(s: seq<int>, x: int)
    requires s != []
    ensures MinOr0(s + [x]) <= MinOr0(s)
  {
    var m := MinOr0(s);
    var i :| 0 <= i < |s| && s[i] == m;
    assert (s + [x])[i] == m;
  }

  /** Python's `sum(d.values())` */
  function SumValues(d: Dict<int>): int
  {
    if d == [] then 0 else SumValues(d[..|d| - 1]) + d[|d| - 1].1
  }

  /** Summing respects a pointwise order of the values. */
  lemma {:induction false} SumValuesMonotone(a: Dict<int>, b: Dict<int>)
    requires |a| == |b|
    requires forall i :: 0 <= i < |a| ==> a[i].1 <= b[i].1
    ensures SumValues(a) <= SumValues(b)
  {
    if a != [] {
      SumValuesMonotone(a[..|a| - 1], b[..|b| - 1]);
    }
  }

  /**
   * Evaluating one more locale can only lower or hold the total: every
   * combined component is a minimum, so it never grows.
   */
  lemma AddingLocaleNeverRaisesTotal(reps: seq<LocaleReport>, r: LocaleReport, names: seq<string>)
    requires reps != []
    requires forall i :: 0 <= i < |reps| ==> Seqs.Firsts(reps[i].components) == Seqs.Firsts(r.components)
    ensures SumValues(Combined(reps + [r], names)) <= SumValues(Combined(reps, names))
  {
    forall i | 0 <= i < |names|
      ensures Combined(reps + [r], names)[i].1 <= Combined(reps, names)[i].1
    {
      AddingLocaleNeverRaises(reps, r, names[i]);
    }
    SumValuesMonotone(Combined(reps + [r], names), Combined(reps, names));
  }

  /** One locale giving the App Store 20 points and another 5 combine to 5. */
  lemma WorstLocaleWins(a: LocaleReport, b: LocaleReport)
    requires DictFind(a.components, "appfollow").Some? && DictFind(a.components, "appfollow").value.score == 20
    requires DictFind(b.components, "appfollow").Some? && DictFind(b.components, "appfollow").value.score == 5
    ensures MinOr0(ScoresFor([a, b], "appfollow")) == 5
  {
    assert [a, b][..1] == [a];
    assert [a][..0] == [];
    assert ScoresFor([a], "appfollow") == [] + [20];
    assert ScoresFor([a, b], "appfollow") == [20] + [5];
  }

  // ---------------------------------------------------------------------
  // Grades
  // ---------------------------------------------------------------------

  /** `_bin_grade`: the first threshold, from the highest grade down, that `total` reaches. */
  function BinGrade(total: int, thr: Dict<int>): (g: Grade)
    ensures var d, l, b := DictGet(thr, "distinct", 80), DictGet(thr, "likely", 60), DictGet(thr, "border", 40);
      && (g == Distinct <==> total >= d)
      && (g == LikelyUnique <==> total < d && total >= l)
      && (g == Borderline <==> total < d && total < l && total >= b)
      && (g == Colliding <==> total < d && total < l && total < b)
  {
    if total >= DictGet(thr, "distinct", 80) then Distinct
    else if total >= DictGet(thr, "likely", 60) then LikelyUnique
    else if total >= DictGet(thr, "border", 40) then Borderline
    else Colliding
  }

  /** How good a grade is: Colliding 0 up to Distinct 3. */
  function Tier(g: Grade): (t: nat)
    ensures t <= 3
  {
    match g
    case Colliding => 0
    case Borderline => 1
    case LikelyUnique => 2
    case Distinct => 3
  }

  /** A higher total never gets a lower grade, whatever the thresholds. */
  lemma BinGradeMonotone(t1: int, t2: int, thr: Dict<int>)
    requires t1 <= t2
    ensures Tier(BinGrade(t1, thr)) <= Tier(BinGrade(t2, thr))
  {
  }

  /** Missing thresholds fall back to 80, 60 and 40. */
  lemma DefaultThresholds(total: int)
    ensures BinGrade(total, []) == BinGrade(total, DefaultConfig().thresholds)
    ensures BinGrade(total, []) == if total >= 80 then Distinct else if total >= 60 then LikelyUnique
                                   else if total >= 40 then Borderline else Colliding
  {
  }

  // ---------------------------------------------------------------------
  // Explanations
  // ---------------------------------------------------------------------

  /** The verification-URL line of a report, when its URL is a non-empty string. */
  function UrlLines(rep: LocaleReport): seq<string>
  {
    match rep.features.serpCheckUrl
    case Some(u) =>
      if u != [] then
        ["SERP verification URL (" + rep.locale.languageCode + "-" + IntToString(rep.locale.locationCode) + "): " + u]
      else []
    case None => []
  }

  /** The warning line of one component, when it carries a non-empty warning. */
  function WarningLine(name: string, cs: ComponentScore): seq<string>
  {
    if cs.details.WarningDetails? && cs.details.warning != [] then ["Warning [" + name + "]: " + cs.details.warning]
    else []
  }

  /** One warning line per warned component, in dict order. */
  function WarningLines(cs: Dict<ComponentScore>): seq<string>
  {
    if cs == [] then []
    else WarningLines(cs[..|cs| - 1]) + WarningLine(cs[|cs| - 1].0, cs[|cs| - 1].1)
  }

  /** What `_build_explanations` returns: per report in order, its URL line then its warning lines. */
  function ExplanationsOf(reps: seq<LocaleReport>): seq<string>
  {
    if reps == [] then []
    else ExplanationsOf(reps[..|reps| - 1]) + UrlLines(reps[|reps| - 1]) + WarningLines(reps[|reps| - 1].components)
  }

  /** `_build_explanations` */
  method BuildExplanations(reports: seq<LocaleReport>) returns (out: seq<string>)
    ensures out == ExplanationsOf(reports)
  {
    out := [];
    for i := 0 to |reports|
      invariant out == ExplanationsOf(reports[..i])
    {
      var rep := reports[i];
      ExplanationsStep(reports, i);
      ghost var start := out;
      var checkUrl := rep.features.serpCheckUrl;
      if checkUrl.Some? && checkUrl.value != [] {
        out := out + ["SERP verification URL (" + rep.locale.languageCode + "-" + IntToString(rep.locale.locationCode) + "): " + checkUrl.value];
      }
      assert out == start + UrlLines(rep);
      out := AppendWarnings(out, rep.components);
    }
    assert reports[..|reports|] == reports;
  }

  /** The inner loop of `_build_explanations`: one warning line per warned component of a report. */
  method AppendWarnings(out0: seq<string>, components: Dict<ComponentScore>) returns (out: seq<string>)
    ensures out == out0 + WarningLines(components)
  {
    out := out0;
    for j := 0 to |components|
      invariant out == out0 + WarningLines(components[..j])
    {
      var (name, cs) := components[j];
      WarningLinesStep(components, j);
      if cs.details.WarningDetails? && cs.details.warning != [] {
        out := out + ["Warning [" + name + "]: " + cs.details.warning];
      }
    }
    assert components[..|components|] == components;
  }

  lemma ExplanationsStep(reps: seq<LocaleReport>, i: nat)
    requires i < |reps|
    ensures ExplanationsOf(reps[..i + 1]) == ExplanationsOf(reps[..i]) + UrlLines(reps[i]) + WarningLines(reps[i].components)
  {
    assert reps[..i + 1][..i] == reps[..i];
  }

  lemma WarningLinesStep(cs: Dict<ComponentScore>, j: nat)
    requires j < |cs|
    ensures WarningLines(cs[..j + 1]) == WarningLines(cs[..j]) + WarningLine(cs[j].0, cs[j].1)
  {
    assert cs[..j + 1][..j] == cs[..j];
  }

  /**
   * A report `evaluate` builds explains exactly its failures: the URL line
   * when the search provider gave a non-empty URL, then one warning per
   * failed provider, in component order.
   */
  lemma LocaleExplanations(title: string, loc: LocaleSpec, cfg: UniquenessConfig, prov: Providers, sc: Scorers)
    requires Bounded(sc, cfg)
    ensures var rep := LocaleReportOf(title, loc, cfg, prov, sc);
      WarningLines(rep.components) ==
        FailureLine("domain", "Domain check failed: ", prov.dom(title))
        + FailureLine("appfollow", "AppFollow failed: ", prov.af(title, loc.country))
        + FailureLine("play", "Play search failed: ", prov.ps(title, loc.hl, loc.gl))
        + FailureLine("google", "SERP fetch failed: ", prov.serp(title, loc.locationCode, loc.languageCode))
  {
    var rep := LocaleReportOf(title, loc, cfg, prov, sc);
    var cs := rep.components;
    WarningLinesOfFour(cs[0], cs[1], cs[2], cs[3]);
    assert cs == [cs[0], cs[1], cs[2], cs[3]];
    FailureLineOf("domain", "Domain check failed: ", prov.dom(title), cs[0].1, cfg);
    FailureLineOf("appfollow", "AppFollow failed: ", prov.af(title, loc.country), cs[1].1, cfg);
    FailureLineOf("play", "Play search failed: ", prov.ps(title, loc.hl, loc.gl), cs[2].1, cfg);
    FailureLineOf("google", "SERP fetch failed: ", prov.serp(title, loc.locationCode, loc.languageCode), cs[3].1, cfg);
  }

  lemma WarningLinesOfFour(a: (string, ComponentScore), b: (string, ComponentScore),
                           c: (string, ComponentScore), d: (string, ComponentScore))
    ensures WarningLines([a, b, c, d]) ==
      WarningLine(a.0, a.1) + WarningLine(b.0, b.1) + WarningLine(c.0, c.1) + WarningLine(d.0, d.1)
  {
    assert [a, b, c, d][..3] == [a, b, c];
    assert [a, b, c][..2] == [a, b];
    assert [a, b][..1] == [a];
    assert [a][..0] == [];
    assert WarningLines([a]) == WarningLine(a.0, a.1);
    assert WarningLines([a, b]) == WarningLine(a.0, a.1) + WarningLine(b.0, b.1);
    assert WarningLines([a, b, c]) == WarningLine(a.0, a.1) + WarningLine(b.0, b.1) + WarningLine(c.0, c.1);
  }

  /** A component that is neutral on failure and warning-free on success gets a warning line exactly on failure. */
  lemma FailureLineOf<T>(name: string, prefix: string, o: Result<T, string>, cs: ComponentScore, cfg: UniquenessConfig)
    requires o.Failure? ==> cs == NeutralComponent(name, cfg, prefix + o.error)
    requires o.Success? ==> !cs.details.WarningDetails?
    requires prefix != []
    ensures WarningLine(name, cs) == FailureLine(name, prefix, o)
  {
    if o.Failure? {
      assert "Warning [" + name + "]: " + (prefix + o.error) == "Warning [" + name + "]: " + prefix + o.error;
    }
  }

  /** The warning line for a provider outcome: `prefix + str(e)` on failure, nothing on success. */
  function FailureLine<T>(name: string, prefix: string, o: Result<T, string>): seq<string>
  {
    if o.Failure? then ["Warning [" + name + "]: " + prefix + o.error] else []
  }

  // ---------------------------------------------------------------------
  // The whole evaluation
  // ---------------------------------------------------------------------

  /** `locales or [LocaleSpec()]` */
  function LocalesOr(locales: Option<seq<LocaleSpec>>): (r: seq<LocaleSpec>)
    ensures r != []
    ensures locales.Some? && locales.value != [] ==> r == locales.value
    ensures !(locales.Some? && locales.value != []) ==> r == [DefaultLocale()]
  {
    if locales.Some? && locales.value != [] then locales.value else [DefaultLocale()]
  }

  function LocaleReports(title: string, locs: seq<LocaleSpec>, cfg: UniquenessConfig, prov: Providers, sc: Scorers)
    : (r: seq<LocaleReport>)
    ensures |r| == |locs|
    ensures forall i :: 0 <= i < |locs| ==> r[i] == LocaleReportOf(title, locs[i], cfg, prov, sc)
  {
    seq(|locs|, i requires 0 <= i < |locs| => LocaleReportOf(title, locs[i], cfg, prov, sc))
  }

  /** The report `evaluate` returns once its configuration and matcher are settled. */
  function ReportOf(title: string, locs: seq<LocaleSpec>, cfg: UniquenessConfig, prov: Providers, sc: Scorers)
    : UniquenessReport
  {
    var reps := LocaleReports(title, locs, cfg, prov, sc);
    var combined := Combined(reps, Seqs.Firsts(cfg.weights));
    var total := SumValues(combined);
    UniquenessReport(total, BinGrade(total, cfg.thresholds), combined, reps, ExplanationsOf(reps))
  }

  /**
   * The report has one locale report per locale in order, one combined
   * entry per weighted component in the configuration's order, a total that
   * is the sum of those entries and a grade binned from that total; each
   * entry is the worst score any locale gave that component.
   */
  lemma ReportShape(title: string, locs: seq<LocaleSpec>, cfg: UniquenessConfig, prov: Providers, sc: Scorers)
    requires Bounded(sc, cfg)
    ensures var r := ReportOf(title, locs, cfg, prov, sc);
      && |r.locales| == |locs|
      && (forall i :: 0 <= i < |locs| ==> r.locales[i].locale == locs[i] && Seqs.Firsts(r.locales[i].components) == ComponentNames)
      && Seqs.Firsts(r.components) == Seqs.Firsts(cfg.weights)
      && r.overallScore == SumValues(r.components)
      && r.grade == BinGrade(r.overallScore, cfg.thresholds)
      && (forall k :: 0 <= k < |r.components| ==>
            r.components[k].1 == MinOr0(ScoresFor(r.locales, r.components[k].0)))
      && (forall k, i, x :: 0 <= k < |r.components| && 0 <= i < |locs| && ScoredAs(r.locales[i], r.components[k].0, x) ==>
            r.components[k].1 <= x)
  {
    var r := ReportOf(title, locs, cfg, prov, sc);
    forall i | 0 <= i < |locs|
      ensures r.locales[i].locale == locs[i] && Seqs.Firsts(r.locales[i].components) == ComponentNames
    {
      LocaleReportMeaning(title, locs[i], cfg, prov, sc);
    }
    forall k | 0 <= k < |r.components|
      ensures forall i, x :: 0 <= i < |locs| && ScoredAs(r.locales[i], r.components[k].0, x) ==> r.components[k].1 <= x
    {
      CombinedMeaning(r.locales, r.components[k].0);
    }
  }

  /** Adding a locale to the request never raises the overall score. */
  lemma MoreLocalesNeverRaiseScore(title: string, locs: seq<LocaleSpec>, loc: LocaleSpec,
                                   cfg: UniquenessConfig, prov: Providers, sc: Scorers)
    requires locs != []
    requires Bounded(sc, cfg)
    ensures ReportOf(title, locs + [loc], cfg, prov, sc).overallScore <= ReportOf(title, locs, cfg, prov, sc).overallScore
  {
    var reps := LocaleReports(title, locs, cfg, prov, sc);
    var r := LocaleReportOf(title, loc, cfg, prov, sc);
    assert LocaleReports(title, locs + [loc], cfg, prov, sc) == reps + [r];
    LocaleReportMeaning(title, loc, cfg, prov, sc);
    forall i | 0 <= i < |reps|
      ensures Seqs.Firsts(reps[i].components) == Seqs.Firsts(r.components)
    {
      LocaleReportMeaning(title, locs[i], cfg, prov, sc);
    }
    AddingLocaleNeverRaisesTotal(reps, r, Seqs.Firsts(cfg.weights));
  }

  /** Every provider failing under the default configuration scores 12 + 12 + 10 + 15 = 49: Borderline. */
  lemma AllProvidersFailing(title: string, sc: Scorers, prov: Providers)
    requires var loc := DefaultLocale();
      && prov.dom(title).Failure? && prov.af(title, loc.country).Failure?
      && prov.ps(title, loc.hl, loc.gl).Failure? && prov.serp(title, loc.locationCode, loc.languageCode).Failure?
    ensures ReportOf(title, LocalesOr(None), DefaultConfig(), prov, sc).overallScore == 49
    ensures ReportOf(title, LocalesOr(None), DefaultConfig(), prov, sc).grade == Borderline
  {
    var cfg, loc := DefaultConfig(), DefaultLocale();
    assert LocalesOr(None) == [loc];
    var cs := LocaleReportOf(title, loc, cfg, prov, sc).components;
    FailingLocaleScores(title, sc, prov);
    FailingComponents(title, loc, cfg, prov, sc);
    DefaultWeightNames();
    KeysInOrder(cs);
    SingleLocaleTotal(title, loc, cfg, prov, sc);
    DefaultGradeAt49();
  }

  lemma DefaultGradeAt49()
    ensures BinGrade(49, DefaultConfig().thresholds) == Borderline
  {
  }

  /** With one locale and the four components weighted, the total is the sum of that locale's four scores. */
  lemma SingleLocaleTotal(title: string, loc: LocaleSpec, cfg: UniquenessConfig, prov: Providers, sc: Scorers)
    requires var cs := LocaleReportOf(title, loc, cfg, prov, sc).components;
      |cs| == 4 && DistinctKeys(cs) && Seqs.Firsts(cfg.weights) == Seqs.Firsts(cs)
    ensures var cs := LocaleReportOf(title, loc, cfg, prov, sc).components;
      ReportOf(title, [loc], cfg, prov, sc).overallScore == cs[0].1.score + cs[1].1.score + cs[2].1.score + cs[3].1.score
  {
    var rep := LocaleReportOf(title, loc, cfg, prov, sc);
    assert LocaleReports(title, [loc], cfg, prov, sc) == [rep];
    OneReportTotal(rep, Seqs.Firsts(cfg.weights));
  }

  /** Combining a single report with four distinct components named in order sums its four scores. */
  lemma OneReportTotal(rep: LocaleReport, names: seq<string>)
    requires |rep.components| == 4 && DistinctKeys(rep.components) && names == Seqs.Firsts(rep.components)
    ensures var cs := rep.components;
      SumValues(Combined([rep], names)) == cs[0].1.score + cs[1].1.score + cs[2].1.score + cs[3].1.score
  {
    var cs := rep.components;
    var combined := Combined([rep], names);
    forall i | 0 <= i < 4
      ensures combined[i].1 == cs[i].1.score
    {
      SingleReportCombined(rep, i);
    }
    SumValuesOfFour(combined);
  }

  /** With every provider failing, the default locale scores half of each default weight, rounded half to even. */
  lemma FailingLocaleScores(title: string, sc: Scorers, prov: Providers)
    requires var loc := DefaultLocale();
      && prov.dom(title).Failure? && prov.af(title, loc.country).Failure?
      && prov.ps(title, loc.hl, loc.gl).Failure? && prov.serp(title, loc.locationCode, loc.languageCode).Failure?
    ensures var cs := LocaleReportOf(title, DefaultLocale(), DefaultConfig(), prov, sc).components;
      && DistinctKeys(cs) && |cs| == 4
      && cs[0].1.score == 12 && cs[1].1.score == 12 && cs[2].1.score == 10 && cs[3].1.score == 15
  {
    var loc, cfg := DefaultLocale(), DefaultConfig();
    var cs := LocaleReportOf(title, loc, cfg, prov, sc).components;
    FailingComponents(title, loc, cfg, prov, sc);
    RoundHalfExamples();
    ComponentNamesDistinct(cs);
  }

  /** With every provider failing, each component of a locale report is that component's neutral score. */
  lemma FailingComponents(title: string, loc: LocaleSpec, cfg: UniquenessConfig, prov: Providers, sc: Scorers)
    requires prov.dom(title).Failure? && prov.af(title, loc.country).Failure?
    requires prov.ps(title, loc.hl, loc.gl).Failure? && prov.serp(title, loc.locationCode, loc.languageCode).Failure?
    ensures var cs := LocaleReportOf(title, loc, cfg, prov, sc).components;
      && |cs| == 4 && (forall i | 0 <= i < 4 :: cs[i].0 == ComponentNames[i])
      && (forall i | 0 <= i < 4 :: cs[i].1.details.WarningDetails?
                                 && cs[i].1.score == NeutralComponent(ComponentNames[i], cfg, "").score)
  {
    var dom := DomainComponent(prov.dom(title), cfg);
    var af := AppFollowPart(prov.af(title, loc.country), sc, cfg).1;
    var ps := PlayPart(prov.ps(title, loc.hl, loc.gl), sc, cfg).1;
    var google := SerpPart(prov.serp(title, loc.locationCode, loc.languageCode), sc, cfg).2;
    assert LocaleReportOf(title, loc, cfg, prov, sc).components
        == [("domain", dom), ("appfollow", af), ("play", ps), ("google", google)];
    assert dom.score == NeutralComponent("domain", cfg, "").score;
    assert af.score == NeutralComponent("appfollow", cfg, "").score;
    assert ps.score == NeutralComponent("play", cfg, "").score;
    assert google.score == NeutralComponent("google", cfg, "").score;
  }

  /** The default weights are keyed by the four component names, in order. */
  lemma DefaultWeightNames()
    ensures Seqs.Firsts(DefaultConfig().weights) == ComponentNames
  {
    var w := DefaultConfig().weights;
    assert w == [("domain", 25), ("appfollow", 25), ("play", 20), ("google", 30)];
    KeysOfFour(w);
  }

  lemma KeysOfFour<V>(d: Dict<V>)
    requires |d| == 4
    ensures Seqs.Firsts(d) == [d[0].0, d[1].0, d[2].0, d[3].0]
  {
  }

  lemma KeysInOrder(cs: Dict<ComponentScore>)
    requires |cs| == 4 && forall i | 0 <= i < 4 :: cs[i].0 == ComponentNames[i]
    ensures Seqs.Firsts(cs) == ComponentNames
  {
  }

  /** A dict keyed by the four component names, in order, has distinct keys. */
  lemma ComponentNamesDistinct(cs: Dict<ComponentScore>)
    requires |cs| == 4 && forall i | 0 <= i < 4 :: cs[i].0 == ComponentNames[i]
    ensures DistinctKeys(cs)
  {
  }

  /** `d.get(d[i].key)` is `d[i].value` when the keys are distinct. */
  lemma FindAt<V>(d: Dict<V>, i: nat)
    requires i < |d| && DistinctKeys(d)
    ensures DictFind(d, d[i].0) == Some(d[i].1)
  {
    assert HasKey(d, d[i].0);
  }

  /** With a single locale, a combined entry is that locale's score. */
  lemma SingleReportCombined(rep: LocaleReport, i: nat)
    requires i < |rep.components| && DistinctKeys(rep.components)
    ensures MinOr0(ScoresFor([rep], rep.components[i].0)) == rep.components[i].1.score
  {
    assert [rep][..0] == [];
    FindAt(rep.components, i);
  }

  lemma SumValuesOfFour(d: Dict<int>)
    requires |d| == 4
    ensures SumValues(d) == d[0].1 + d[1].1 + d[2].1 + d[3].1
  {
    assert d[..1][..0] == [];
    assert SumValues(d[..1]) == d[0].1;
    assert d[..2][..1] == d[..1];
    assert SumValues(d[..2]) == d[0].1 + d[1].1;
    assert d[..3][..2] == d[..2];
    assert SumValues(d[..3]) == d[0].1 + d[1].1 + d[2].1;
    assert d[..4][..3] == d[..3];
    assert d[..4] == d;
  }

  // ---------------------------------------------------------------------
  // The evaluator object
  // ---------------------------------------------------------------------

  /** `UniquenessEvaluator`: configuration and matcher, both filled lazily by `evaluate`. */
  class UniquenessEvaluator {
    var config: Option<UniquenessConfig>
    var matcher: Option<Matcher>
    const providers: Providers
    const libs: Libraries

    /** `UniquenessEvaluator()`: nothing configured yet. */
    constructor (providers: Providers, libs: Libraries)
      ensures config == None && matcher == None
      ensures this.providers == providers && this.libs == libs
    {
      config := None;
      matcher := None;
      this.providers := providers;
      this.libs := libs;
    }

    /** `set_config` */
    method SetConfig(c: UniquenessConfig)
      modifies this
      ensures config == Some(c) && matcher == old(matcher)
    {
      config := Some(c);
    }

    /** `set_matcher` */
    method SetMatcher(m: Matcher)
      modifies this
      ensures matcher == Some(m) && config == old(config)
    {
      matcher := Some(m);
    }

    /**
     * `evaluate`: an unset configuration becomes the default one and an
     * unset matcher the one its engine resolves to; both are kept for later
     * calls. Resolution is the only thing that can raise.
     */
    method Evaluate(title: string, locales: Option<seq<LocaleSpec>>) returns (r: Result<UniquenessReport, string>)
      modifies this
      ensures config == Some(if old(config).Some? then old(config).value else DefaultConfig())
      ensures old(matcher).Some? ==> matcher == old(matcher)
      ensures old(matcher).None? ==> var res := ResolveMatcher(config.value.matcherEngine, libs);
        matcher == (if res.Success? then Some(res.value) else None) && (res.Failure? ==> r == Failure(res.error))
      ensures matcher.Some? ==>
        r == Success(ReportOf(title, LocalesOr(locales), config.value, providers, ScorersOf(matcher.value, title, config.value)))
    {
      if config.None? {
        config := Some(DefaultConfig());
      }
      if matcher.None? {
        var res := ResolveMatcher(config.value.matcherEngine, libs);
        if res.Failure? {
          return Failure(res.error);
        }
        matcher := Some(res.value);
      }
      var report := EvaluateWith(title, LocalesOr(locales), matcher.value, config.value, providers);
      r := Success(report);
    }
  }

  /** The body of `evaluate` once the configuration and matcher are settled. */
  method EvaluateWith(title: string, locs: seq<LocaleSpec>, m: Matcher, cfg: UniquenessConfig, prov: Providers)
    returns (report: UniquenessReport)
    ensures report == ReportOf(title, locs, cfg, prov, ScorersOf(m, title, cfg))
  {
    ghost var sc := ScorersOf(m, title, cfg);
    var perLocale: seq<LocaleReport> := [];
    for i := 0 to |locs|
      invariant perLocale == LocaleReports(title, locs[..i], cfg, prov, sc)
    {
      var rep := AssembleLocale(title, locs[i], m, cfg, prov);
      LocaleReportsStep(title, locs, cfg, prov, sc, i);
      perLocale := perLocale + [rep];
    }
    assert locs[..|locs|] == locs;

    var combined := AggregateComponents(perLocale, cfg);
    var total := SumValues(combined);
    var grade := BinGrade(total, cfg.thresholds);
    var explanations := BuildExplanations(perLocale);
    report := UniquenessReport(total, grade, combined, perLocale, explanations);
  }

  lemma LocaleReportsStep(title: string, locs: seq<LocaleSpec>, cfg: UniquenessConfig, prov: Providers, sc: Scorers, i: nat)
    requires i < |locs|
    ensures LocaleReports(title, locs[..i + 1], cfg, prov, sc)
         == LocaleReports(title, locs[..i], cfg, prov, sc) + [LocaleReportOf(title, locs[i], cfg, prov, sc)]
  {
  }

  /** `UniquenessEvaluator.from_defaults`, given the configuration the loader produced. */
  method FromDefaults(loaded: UniquenessConfig, providers: Providers, libs: Libraries)
    returns (r: Result<UniquenessEvaluator, string>)
    ensures r.Success? <==> ResolveMatcher(loaded.matcherEngine, libs).Success?
    ensures r.Success? ==>
      && fresh(r.value) && r.value.config == Some(loaded)
      && r.value.matcher == Some(ResolveMatcher(loaded.matcherEngine, libs).value)
      && r.value.providers == providers && r.value.libs == libs
  {
    var inst := new UniquenessEvaluator(providers, libs);
    inst.config := Some(loaded);
    var res := ResolveMatcher(loaded.matcherEngine, libs);
    if res.Failure? {
      return Failure(res.error);
    }
    inst.matcher := Some(res.value);
    r := Success(inst);
  }

  /** `UniquenessEvaluator.from_matcher` */
  method FromMatcher(m: Matcher, config: UniquenessConfig, providers: Providers, libs: Libraries)
    returns (inst: UniquenessEvaluator)
    ensures fresh(inst) && inst.config == Some(config) && inst.matcher == Some(m)
    ensures inst.providers == providers && inst.libs == libs
  {
    inst := new UniquenessEvaluator(providers, libs);
    inst.matcher := Some(m);
    inst.config := Some(config);
  }
}
