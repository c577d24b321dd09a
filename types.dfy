/**
 * The records of the uniqueness evaluation (`evaluate/types.py`): locale
 * parameters, configuration, match statistics, component scores and the
 * reports, with the defaults the source declares.
 */
module EvalTypes {
  import opened Wrappers
  import opened Dicts

  /** Locale parameters for the providers. */
  datatype LocaleSpec = LocaleSpec(
    country: string,      // AppFollow country
    hl: string,           // Play interface language
    gl: string,           // Play country
    locationCode: int,    // DataForSEO location
    languageCode: string, // DataForSEO language
    weight: real          // declared, not read by the evaluator
  )

  /** `LocaleSpec()` */
  function DefaultLocale(): (l: LocaleSpec)
    ensures l.country == "us" && l.hl == "en" && l.gl == "US"
    ensures l.locationCode == 2840 && l.languageCode == "en" && l.weight == 1.0
  {
    LocaleSpec("us", "en", "US", 2840, "en", 1.0)
  }

  /** `matcher_engine: Literal["auto", "rapidfuzz", "builtin"]` */
  datatype Engine = Auto | RapidFuzzEngine | BuiltinEngine

  datatype UniquenessConfig = UniquenessConfig(
    matcherEngine: Engine,
    weights: Dict<int>,     // component name -> weight
    thresholds: Dict<int>   // grade name -> lowest total for that grade
  )

  /** `UniquenessConfig()` */
  function DefaultConfig(): (c: UniquenessConfig)
    ensures c.matcherEngine == Auto
    ensures DistinctKeys(c.weights) && DistinctKeys(c.thresholds)
    ensures DictGet(c.weights, "domain", 0) == 25 && DictGet(c.weights, "appfollow", 0) == 25
    ensures DictGet(c.weights, "play", 0) == 20 && DictGet(c.weights, "google", 0) == 30
    ensures DictGet(c.thresholds, "distinct", 0) == 80
    ensures DictGet(c.thresholds, "likely", 0) == 60
    ensures DictGet(c.thresholds, "border", 0) == 40
  {
    var weights := [("domain", 25), ("appfollow", 25), ("play", 20), ("google", 30)];
    var thresholds := [("distinct", 80), ("likely", 60), ("border", 40)];
    DefaultWeightsRead(weights);
    DefaultThresholdsRead(thresholds);
    UniquenessConfig(Auto, weights, thresholds)
  }

  lemma DefaultWeightsRead(w: Dict<int>)
    requires w == [("domain", 25), ("appfollow", 25), ("play", 20), ("google", 30)]
    ensures DistinctKeys(w)
    ensures DictGet(w, "domain", 0) == 25 && DictGet(w, "appfollow", 0) == 25
    ensures DictGet(w, "play", 0) == 20 && DictGet(w, "google", 0) == 30
  {
    assert DistinctKeys(w);
    assert w[0].0 == "domain" && w[1].0 == "appfollow" && w[2].0 == "play" && w[3].0 == "google";
  }

  lemma DefaultThresholdsRead(t: Dict<int>)
    requires t == [("distinct", 80), ("likely", 60), ("border", 40)]
    ensures DistinctKeys(t)
    ensures DictGet(t, "distinct", 0) == 80 && DictGet(t, "likely", 0) == 60 && DictGet(t, "border", 0) == 40
  {
    assert DistinctKeys(t);
    assert t[0].0 == "distinct" && t[1].0 == "likely" && t[2].0 == "border";
  }

  /** Aggregate statistics of a query against a list of candidates. */
  datatype MatchStats = MatchStats(
    maxScore: int,
    n95: int,
    n90: int,
    n80: int,
    topHitPos: Option<int>
  )

  /**
   * The `details` dict of a component score: what each scorer records; only
   * a neutral score carries a `warning`.
   */
  datatype Details =
    | DomainDetails(available: Option<bool>, rdapStatus: Option<int>)
    | BandDetails(n95: int, n90: int, n80: int, topPos: Option<int>)
    | WarningDetails(warning: string)

  datatype ComponentScore = ComponentScore(name: string, score: int, details: Details)

  /** The `features` dict of a locale report. */
  datatype Features = Features(af: MatchStats, ps: MatchStats, serp: MatchStats, serpCheckUrl: Option<string>)

  datatype LocaleReport = LocaleReport(locale: LocaleSpec, components: Dict<ComponentScore>, features: Features)

  /** `Literal["Distinct", "Likely Unique", "Borderline", "Colliding"]` */
  datatype Grade = Distinct | LikelyUnique | Borderline | Colliding
  {
    function Label(): (s: string)
      ensures s != []
    {
      match this
      case Distinct => "Distinct"
      case LikelyUnique => "Likely Unique"
      case Borderline => "Borderline"
      case Colliding => "Colliding"
    }
  }

  datatype UniquenessReport = UniquenessReport(
    overallScore: int,
    grade: Grade,
    components: Dict<int>,
    locales: seq<LocaleReport>,
    explanations: seq<string>
  )
}
