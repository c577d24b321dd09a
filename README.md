# brand-name-gen uniqueness core in Dafny

This project models the part of `brand_name_gen` that decides how unique a
candidate brand or app title is, together with the building blocks it uses.

- **Matching** (`evaluate/matcher.py`, module `Matcher`). The built-in matcher
  scores a pair of titles from a similarity ratio of their normalized forms.
  It then boosts the score to 90 when one compact form contains the other, and
  to 88 when the two titles have the same sorted tokens. The RapidFuzz matcher
  scores with WRatio. `stats` counts the scores in the 95, 90 and 80 bands and
  keeps the maximum.
- **Scoring** (`evaluate/scoring.py`, module `Scoring`). Four component scores
  are computed from band counts and the best listed position: domain,
  AppFollow, Play and Google.
- **Aggregation** (`evaluate/evaluator.py` and `evaluate/types.py`, modules
  `Evaluator` and `EvalTypes`). For each locale, all four providers are called.
  A provider that fails gets a neutral score (half its weight, rounded half to
  even) and a warning. Each component's score is its minimum across locales.
  The sum of the components is binned into a grade, and explanation lines are
  built. The class `UniquenessEvaluator` keeps an optional config and an
  optional matcher, and `evaluate` fills in defaults for them.
- **App title checks** (`android/title_check.py`, and the legacy
  `title_check.py`, whose code is the same; module `TitleCheck`).
  - Collision detection over normalized titles.
  - The AppFollow suggestion call: token lookup, HTTP status handling, and
    term extraction with `displayTerm` before `term`.
  - The Play Store search: URL quoting, label de-duplication, and the
    100-label cap.
  - `check_title` over an ordered list of providers.
- **Google rank** (`search/dataforseo/google_rank.py`, module `GoogleRank`).
  - `DataForSEORanker` as a class with backend, login, password and timeout
    fields.
  - `from_env` with `.env` precedence.
  - `run`: extraction of the organic items, similarity matching, and the
    stable sort by `rank_absolute` with missing ranks treated as 10**9.
- **Domain checks** (`domain/domain_check.py`, and the legacy
  `domain_check.py`, whose code is the same; module `DomainCheck`).
  - Brand-label normalization.
  - The RDAP check with one retry on 429/5xx.
  - `.com` availability.
  - The DNS-over-HTTPS probe.
  - `check_many`.
- **Name generation** (`core.py`, module `NameGen`). Slugified seeds are
  combined with the prefix, style-infix and suffix tables and then title-cased.
  The fallback phase uses seed plus suffix. Names are de-duplicated and the
  list stops at the limit.
- **Environment** (`utils/env.py`, module `DotEnv`). `.env` parsing, with
  `read_dotenv_value` returning the first match and `load_env_from_dotenv`
  never overriding an existing variable. `os.environ` is the class `Environ`.

Supporting modules:

| module | what it holds |
|---|---|
| `Wrappers` | `Option` and `Result` |
| `Text` | ASCII case mapping, the `[^a-z0-9]+` normalization pipeline, strip and split |
| `Seqs` | the first components of pairs, and order-preserving de-duplication |
| `Dicts` | Python dicts as association lists in insertion order: `get` and item assignment |
| `StringOrder` | Python string ordering and `sorted` |
| `UrlQuote` | `urllib.parse.quote` over UTF-8 |
| `Json` | decoded JSON values with Python truthiness, `dict.get` and `int()` |

External services are inputs to the model:

- The AppFollow, Play, RDAP, DNS-over-HTTPS and DataForSEO HTTP calls and the
  evaluator's four providers are function-valued parameters that return a
  `Result`. A `Failure` stands for the exception the source raises or catches.
- The `.env` file is an `Option<string>` (absent or its contents), and the
  process environment is a `map`.

Where the documented design and the code disagree, the model follows the
code:

- The neutral score is `max(0, round(w/2))`. For a negative weight this is 0,
  which exceeds `w`. The documented design says the neutral score never exceeds
  the weight. `NeutralComponent` states the bound only for `w >= 0`.
- With engine `rapidfuzz` and no RapidFuzz library, `_resolve_matcher` raises.
  Only `auto` falls back to the built-in matcher (`ResolveMatcher` returns a
  `Failure`).
- The scorers recompute their bands with the unboosted `score_pair`. They do
  not use the `stats` argument they are given. `Scoring.BandsBelowStats` states
  how the two relate.

## Model

| member | source | states |
|---|---|---|
| Text.NormIsJoinedTokens | src/brand_name_gen/evaluate/matcher.py:28-31 | lowercasing, replacing `[^a-z0-9]+` by a space, stripping and collapsing whitespace gives the lowercase alphanumeric tokens joined by single spaces |
| Text.NormShape | src/brand_name_gen/android/title_check.py:50-53 | a normalized title has no leading, trailing or doubled space, and it is empty exactly when the title has no alphanumeric token |
| Text.NormIdempotent | src/brand_name_gen/search/dataforseo/google_rank.py:137-140 | normalizing twice is the same as normalizing once, and it keeps the tokens |
| Text.ContainsAt | src/brand_name_gen/android/title_check.py:69 | the substring test `a in b` holds exactly when `a` occurs at some index of `b` |
| Text.IntToString | src/brand_name_gen/android/title_check.py:139 | the decimal rendering of the status code is nonempty and starts with '-' exactly when the number is negative |
| Json.ParseIntOfIntToString | src/brand_name_gen/domain/domain_check.py:206 | `int(str(n)) == n` for every integer `n` |
| Seqs.Distinct | src/brand_name_gen/android/title_check.py:143-148 | order-preserving de-duplication yields a list with no duplicates and no longer than its input |
| Seqs.DistinctElements | src/brand_name_gen/android/title_check.py:143-148 | de-duplication keeps exactly the elements of its input |
| StringOrder.Sort | src/brand_name_gen/evaluate/matcher.py:40 | `sorted` returns an ordered permutation of its input |
| StringOrder.SortPermutationInvariant | src/brand_name_gen/evaluate/matcher.py:40 | two lists with the same elements sort to the same list |
| UrlQuote.UnquoteQuote | src/brand_name_gen/android/title_check.py:128 | percent-decoding the quoted title gives back its UTF-8 bytes, and the quoted form uses only safe characters and `%XX` escapes |
| UrlQuote.QuoteInjective | src/brand_name_gen/android/title_check.py:128 | different titles give different quoted query strings |
| UrlQuote.QuoteSafe | src/brand_name_gen/android/title_check.py:128 | text made of safe characters is left unchanged by quoting |
| UrlQuote.QuoteQuoted | src/brand_name_gen/android/title_check.py:128 | quoting `"title"` gives `%22`, the quoted title and `%22` |
| Json.GetOr | src/brand_name_gen/search/dataforseo/google_rank.py:124 | `dict.get(key, default)` gives the default for a missing key and a value stored under the key otherwise |
| Json.GetOrLastWins | src/brand_name_gen/search/dataforseo/google_rank.py:124 | of several entries under one key, `get` returns the value of the last one, since `json.loads` keeps the last of repeated keys |
| Json.Iterate | src/brand_name_gen/android/title_check.py:98 | iterating a JSON value gives a list's items, or strings for a string or an object, raises on null, booleans and numbers, and is empty exactly when the value is falsy |
| Json.ToInt | src/brand_name_gen/domain/domain_check.py:206 | `int()` keeps an integer and raises on null, lists and objects |
| Json.ParseInt | src/brand_name_gen/domain/domain_check.py:206 | `int()` of a string succeeds only when something is left after stripping whitespace |
| Json.ParseIntOfDigitGroups | src/brand_name_gen/domain/domain_check.py:206 | `int()` of unsigned digit groups is the value of their digits |
| Json.ParseIntOfSignedGroups | src/brand_name_gen/domain/domain_check.py:206 | `int()` of '+' or '-' followed by digit groups is the value of the digits, negated after '-' |
| Json.ParseIntRejects | src/brand_name_gen/domain/domain_check.py:206 | `int("4__2")` and `int(" ")` raise |
| Dicts.DictGet | src/brand_name_gen/evaluate/evaluator.py:201 | `dict.get` returns the default for a missing key and the value stored under the key in a dict with distinct keys |
| Dicts.PutKeys | src/brand_name_gen/domain/domain_check.py:236 | `d[key] = value` keeps the keys distinct, keeps the order for an existing key and appends a new key last |
| Dicts.PutFind | src/brand_name_gen/domain/domain_check.py:236 | after `d[key] = value` the key holds the new value and every other key what it held before |
| Dicts.DictFind | src/brand_name_gen/evaluate/evaluator.py:169 | `dict.get(name)` is None exactly when the key is missing, and otherwise the stored value |
| EvalTypes.DefaultConfig | src/brand_name_gen/evaluate/types.py:56-58 | the default config uses engine auto, weights 25/25/20/30 and thresholds 80/60/40, with distinct keys |
| Matcher.Compact | src/brand_name_gen/evaluate/matcher.py:34-35 | the compact form contains only lowercase ASCII letters and digits |
| Matcher.ScorePair | src/brand_name_gen/evaluate/matcher.py:46-47 | a pair score lies in [0,100], and the built-in matcher gives 100 to titles with equal normal forms |
| Matcher.BoostedBounds | src/brand_name_gen/evaluate/matcher.py:53-58 | the boost never lowers a score and never exceeds 100; a compact overlap lifts a score to at least 90 and equal token-sort keys to at least 88; a boosted score differs from the raw one only when it is 88 or 90; RapidFuzz scores are not boosted |
| Matcher.MaxOr0 | src/brand_name_gen/evaluate/matcher.py:59 | the running maximum starting at 0 bounds every score and is 0 or one of the scores |
| Matcher.Stats | src/brand_name_gen/evaluate/matcher.py:49-66 | the counting loop returns the band counts and maximum of the boosted scores of all candidates |
| Matcher.StatsShape | src/brand_name_gen/evaluate/matcher.py:83-95 | band counts are nested (n95 <= n90 <= n80 <= number of candidates), the maximum lies in [0,100], each band is nonempty exactly when the maximum reaches its threshold, and no top position is set |
| Matcher.CountPositiveIffMax | src/brand_name_gen/evaluate/matcher.py:59-65 | some score reaches a positive threshold exactly when the maximum does |
| Matcher.EmptyQueryMatchesAll | src/brand_name_gen/evaluate/matcher.py:55-56 | a query with no alphanumeric token has an empty compact form, so every candidate is boosted into the 90 band |
| Matcher.TokenSortKeyIffSameTokens | src/brand_name_gen/evaluate/matcher.py:38-40 | two titles have the same token-sort key exactly when they have the same tokens with the same multiplicities |
| Matcher.KeyWords | src/brand_name_gen/evaluate/matcher.py:38-40 | splitting the token-sort key gives back the sorted tokens |
| Matcher.ReorderedTitleScoresAtLeast88 | src/brand_name_gen/evaluate/matcher.py:57-58 | the built-in matcher scores a reordering of the same words at 88 or more |
| Matcher.SameNormScores100 | src/brand_name_gen/evaluate/matcher.py:46-58 | titles that differ only in case and punctuation score 100 with the built-in matcher |
| Scoring.BandCounts | src/brand_name_gen/evaluate/scoring.py:17-31 | the loop returns the band counts and the least position among the scores of 80 or more, as a function of the scored list |
| Scoring.BandsNested | src/brand_name_gen/evaluate/scoring.py:23-30 | the band counts are nested: n95 <= n90 <= n80 <= number of titles |
| Scoring.MinHitPosMeaning | src/brand_name_gen/evaluate/scoring.py:24-25 | the top position is None exactly when no positioned title scores 80 or more, and otherwise it is the least such position |
| Scoring.BandsBelowStats | src/brand_name_gen/evaluate/scoring.py:42 | the unboosted bands the scorers use never exceed the boosted bands of `stats`, and they are equal for the RapidFuzz matcher |
| Scoring.ScoreDomain | src/brand_name_gen/evaluate/scoring.py:34-37 | an available domain earns the full domain weight; taken or unknown earns weight minus 10, never below 0; the details carry the availability and RDAP status |
| Scoring.ScoreDomainOrder | src/brand_name_gen/evaluate/scoring.py:36 | unknown availability scores like taken, taken never beats free, and the gap is at most 10 |
| Scoring.AppFollowPoints | src/brand_name_gen/evaluate/scoring.py:44-50 | the AppFollow points lie in [0, weight], and they equal the weight when nothing is similar |
| Scoring.PlayPoints | src/brand_name_gen/evaluate/scoring.py:56-62 | the Play points lie in [0, weight], and they equal the weight when nothing is similar |
| Scoring.GooglePositionPenalty | src/brand_name_gen/evaluate/scoring.py:70-76 | the position penalty is 0 exactly without a top position, and otherwise 20, 10 or 4 |
| Scoring.GooglePoints | src/brand_name_gen/evaluate/scoring.py:68-80 | the Google points lie in [0, weight]; the capped band penalties cost at most 15, so together with the position penalty the total loss is at most 35 |
| Scoring.ScoreAppFollow | src/brand_name_gen/evaluate/scoring.py:40-50 | the scorer returns the AppFollow component of the band counts |
| Scoring.ScorePlay | src/brand_name_gen/evaluate/scoring.py:53-62 | the scorer returns the Play component of the band counts |
| Scoring.ScoreGoogle | src/brand_name_gen/evaluate/scoring.py:65-81 | the scorer returns the Google component of the band counts |
| Scoring.TitledScoresBounded | src/brand_name_gen/evaluate/scoring.py:40-81 | each title-based component is non-negative, within its weight, and carries band details |
| Scoring.MoreTitlesNeverHelp | src/brand_name_gen/evaluate/scoring.py:17-81 | adding one more competing title never raises the AppFollow, Play or Google points |
| Scoring.ExactDuplicateAtTop | src/brand_name_gen/evaluate/scoring.py:40-81 | an exact duplicate at position 1 fills all three bands and costs AppFollow 11 (25 to 14), Play 8 (20 to 12) and Google 22 (30 to 8) |
| Evaluator.NewRapidFuzz | src/brand_name_gen/evaluate/matcher.py:72-78 | building a RapidFuzz matcher succeeds exactly when the library is present |
| Evaluator.ResolveMatcher | src/brand_name_gen/evaluate/evaluator.py:150-159 | resolution fails only for engine rapidfuzz without the library; builtin always gives the built-in matcher; auto prefers RapidFuzz and falls back to built-in |
| Evaluator.RoundHalf | src/brand_name_gen/evaluate/evaluator.py:202 | `round(w/2)` is within one half of w/2 and, on a tie, even |
| Evaluator.RoundHalfUnique | src/brand_name_gen/evaluate/evaluator.py:202 | those two properties determine `round(w/2)` uniquely |
| Evaluator.RoundHalfExamples | src/brand_name_gen/evaluate/evaluator.py:202 | halves of the default weights: 25 to 12, 15 to 8, 20 to 10, 30 to 15; also 1 to 0 and 3 to 2 |
| Evaluator.NeutralComponent | src/brand_name_gen/evaluate/evaluator.py:200-203 | a neutral score is never negative; it is round(w/2) <= w for a non-negative weight and 0 for a negative one; it carries the warning message |
| Evaluator.ScorersOfBounded | src/brand_name_gen/evaluate/evaluator.py:92-123 | every component the evaluator computes from a provider's answer respects its configured weight |
| Evaluator.AssembleLocale | src/brand_name_gen/evaluate/evaluator.py:81-141 | the per-locale block builds the locale report of the four provider answers |
| Evaluator.DomainStep | src/brand_name_gen/evaluate/evaluator.py:81-88 | the domain block scores an answered domain check and falls back to the neutral domain component with a warning when the check fails |
| Evaluator.AppFollowStep | src/brand_name_gen/evaluate/evaluator.py:90-99 | the AppFollow block keeps empty statistics unless the fetch succeeds, then scores the statistics of the suggested terms; a failed fetch gives the neutral component |
| Evaluator.PlayStep | src/brand_name_gen/evaluate/evaluator.py:101-110 | the Play block keeps empty statistics unless the fetch succeeds, then scores the statistics of the suggested titles; a failed fetch gives the neutral component |
| Evaluator.SerpStep | src/brand_name_gen/evaluate/evaluator.py:112-123 | the SERP block keeps empty statistics and no check URL unless the fetch succeeds, then records the check URL and scores the ranked match titles; a failed fetch gives the neutral component |
| Evaluator.LocaleReportMeaning | src/brand_name_gen/evaluate/evaluator.py:81-141 | a locale report always has the four components in order domain, appfollow, play, google; each carries a warning exactly when its provider failed; each score stays within its weight; a failed SERP leaves no check URL |
| Evaluator.FailuresAreIsolated | src/brand_name_gen/evaluate/evaluator.py:83-123 | a component and its features depend only on its own provider's answer, so one provider's failure cannot change another's component |
| Evaluator.MinOr0 | src/brand_name_gen/evaluate/evaluator.py:172 | `min(vals) if vals else 0` is 0 for no values and otherwise the least value |
| Evaluator.AggregateComponents | src/brand_name_gen/evaluate/evaluator.py:162-173 | the nested loop gives, for each weight key in order, the minimum of that component over the locales |
| Evaluator.ScoresForMeaning | src/brand_name_gen/evaluate/evaluator.py:167-171 | the collected values are exactly the component's scores in the locales that have it |
| Evaluator.CombinedMeaning | src/brand_name_gen/evaluate/evaluator.py:162-173 | a combined component is 0 when no locale has it, and otherwise the score of some locale that is no greater than any locale's score |
| Evaluator.AddingLocaleNeverRaises | src/brand_name_gen/evaluate/evaluator.py:163-172 | adding a locale never raises any combined component |
| Evaluator.AddingLocaleNeverRaisesTotal | src/brand_name_gen/evaluate/evaluator.py:143-144 | adding a locale never raises the sum of the combined components |
| Evaluator.WorstLocaleWins | src/brand_name_gen/evaluate/evaluator.py:163-172 | with AppFollow at 20 in one locale and 5 in another, the combined AppFollow score is 5 |
| Evaluator.BinGrade | src/brand_name_gen/evaluate/evaluator.py:176-183 | grade is Distinct iff total >= distinct, Likely Unique iff below distinct and >= likely, Borderline iff below both and >= border, and Colliding otherwise (thresholds default to 80/60/40) |
| Evaluator.BinGradeMonotone | src/brand_name_gen/evaluate/evaluator.py:176-183 | a higher total never gets a worse grade |
| Evaluator.DefaultThresholds | src/brand_name_gen/evaluate/evaluator.py:177-183 | with no thresholds configured, the grade bins are 80/60/40, the same as the default config |
| Evaluator.BuildExplanations | src/brand_name_gen/evaluate/evaluator.py:186-197 | the loop returns the explanation lines of the reports: the SERP verification URL when present, then one warning line per component that carries a nonempty warning |
| Evaluator.AppendWarnings | src/brand_name_gen/evaluate/evaluator.py:192-196 | the inner loop appends one warning line per component carrying a nonempty warning, in component order, after the lines already collected |
| Evaluator.LocaleExplanations | src/brand_name_gen/evaluate/evaluator.py:192-196 | a locale's warning lines are exactly one line per failed provider, in component order, each naming the failure |
| Evaluator.LocalesOr | src/brand_name_gen/evaluate/evaluator.py:77 | an empty or missing locale list becomes the single default locale; a nonempty list is used as given |
| Evaluator.ReportShape | src/brand_name_gen/evaluate/evaluator.py:143-147 | the report lists the weight keys, each with its minimum over locales; the overall score is their sum; the grade is the bin of that sum |
| Evaluator.MoreLocalesNeverRaiseScore | src/brand_name_gen/evaluate/evaluator.py:77-147 | evaluating over one more locale never raises the overall score |
| Evaluator.AllProvidersFailing | src/brand_name_gen/evaluate/evaluator.py:70-147 | with default config and locale and all four providers failing, the overall score is 12+12+10+15 = 49 and the grade Borderline |
| Evaluator.EvaluateWith | src/brand_name_gen/evaluate/evaluator.py:75-147 | the locale loop, aggregation, grading and explanations produce the report of the resolved matcher and config |
| Evaluator.UniquenessEvaluator.constructor | src/brand_name_gen/evaluate/evaluator.py:37-44 | a new evaluator has no config and no matcher |
| Evaluator.UniquenessEvaluator.SetConfig | src/brand_name_gen/evaluate/evaluator.py:49-50 | sets the config and keeps the matcher |
| Evaluator.UniquenessEvaluator.SetMatcher | src/brand_name_gen/evaluate/evaluator.py:52-53 | sets the matcher and keeps the config |
| Evaluator.UniquenessEvaluator.Evaluate | src/brand_name_gen/evaluate/evaluator.py:70-147 | a missing config becomes the default; a missing matcher is resolved from the engine, and resolution failure is the only error; otherwise the result is the report for the given or default locales |
| Evaluator.UniquenessEvaluator.FromDefaults | src/brand_name_gen/evaluate/evaluator.py:56-61 | succeeds exactly when the loaded config's engine resolves, and then holds that config and the resolved matcher |
| Evaluator.UniquenessEvaluator.FromMatcher | src/brand_name_gen/evaluate/evaluator.py:64-68 | a fresh evaluator holding the given matcher and config |
| TitleCheck.CollisionsOf | src/brand_name_gen/android/title_check.py:60-71 | every collision is a colliding term with its 1-based position, so there are no more collisions than terms |
| TitleCheck.CollisionsOfMeaning | src/brand_name_gen/android/title_check.py:60-71 | collisions are listed in increasing position, and every colliding term is listed with its position |
| TitleCheck.ComputeCollisions | src/brand_name_gen/android/title_check.py:60-71 | the loop returns the collisions of the terms under the title's collision test |
| TitleCheck.NotCollidingNotListed | src/brand_name_gen/android/title_check.py:69-70 | a term that does not collide is not reported |
| TitleCheck.ExactDuplicateNeverCollides | src/brand_name_gen/android/title_check.py:66-67 | a term with the same normal form as the title is never reported as a collision |
| TitleCheck.CompactOverlapCollides | src/brand_name_gen/android/title_check.py:68-70 | a term whose compact form contains, or is contained in, the title's is reported, unless the normal forms are equal |
| TitleCheck.EmptyTitleCollidesWithAll | src/brand_name_gen/android/title_check.py:69 | a title with no alphanumeric token collides with every term that has one |
| TitleCheck.GluedSkippedSpacedCollides | src/brand_name_gen/title_check.py:158-167 | for a title that lower-cases to two glued words (such as "BrandName"): the glued term ("brandname") is skipped as the same title, and the spaced term ("brand name") collides through the compact forms |
| TitleCheck.AssembledMeaning | src/brand_name_gen/android/title_check.py:103-116 | the result lists every term as a numbered suggestion, every collision is one of them, and unique_enough holds exactly when no term collides |
| TitleCheck.TermOf | src/brand_name_gen/android/title_check.py:100-101 | an extracted term is never empty |
| TitleCheck.TermOfPrecedence | src/brand_name_gen/android/title_check.py:100-102 | a nonempty string `displayTerm` wins; another truthy `displayTerm` yields nothing; a falsy one falls back to a nonempty string `term` |
| TitleCheck.TermsOf | src/brand_name_gen/android/title_check.py:97-102 | every collected term is nonempty and is the term of some item, and there are no more terms than items |
| TitleCheck.TermsOfComplete | src/brand_name_gen/android/title_check.py:97-102 | every item that has a term contributes it to the list |
| TitleCheck.ExtractTerms | src/brand_name_gen/android/title_check.py:97-102 | the loop returns the term list of the items |
| TitleCheck.Token | src/brand_name_gen/android/title_check.py:82-84 | a nonempty api_key wins over the environment key; there is a token exactly when one of them is nonempty |
| TitleCheck.CheckTitleAppFollow | src/brand_name_gen/android/title_check.py:74-116 | the AppFollow check returns the outcome determined by the token, the HTTP answer and the extracted terms |
| TitleCheck.AppFollowOutcomeMeaning | src/brand_name_gen/title_check.py:171-219 | a missing token and a 401/403 status fail with the source's messages; any other HTTP error status fails too (the model's message is "AppFollow error: " with the status code, not the text of the `HTTPError`); a success is an AppFollow result for the title and country with numbered suggestions, unique exactly when no suggestion collides |
| TitleCheck.ReadAppFollowAnswer | src/brand_name_gen/android/title_check.py:90-116 | after the request, 401/403 and then any other HTTP error fail, a body that is not JSON or not iterable fails, and otherwise the terms are extracted and the result assembled as the AppFollow answer specifies |
| TitleCheck.AppFollowAssembledMeaning | src/brand_name_gen/android/title_check.py:103-116 | an AppFollow result names the title and country, has no hl, gl or Play URL, numbers the suggestions from 1, and is unique enough exactly when no suggested term collides with the title |
| TitleCheck.UniqueEnoughWith | src/brand_name_gen/android/title_check.py:104-114 | the collision list is empty exactly when no term collides with the title |
| TitleCheck.PlayUrlShape | src/brand_name_gen/android/title_check.py:128-129 | the Play URL quotes `"title"` as `%22…%22`, and the quoted title cannot contain `&`, `=`, `#`, `?`, `"` or a space |
| TitleCheck.Dedupe | src/brand_name_gen/android/title_check.py:143-148 | the seen-set loop returns the order-preserving de-duplication of the labels |
| TitleCheck.KeptLabelsMeaning | src/brand_name_gen/android/title_check.py:142-149 | kept labels are at most 100, without duplicates, a prefix of the de-duplicated labels, all from the page, and all of them when there are at most 100 distinct labels |
| TitleCheck.CheckTitlePlayStore | src/brand_name_gen/android/title_check.py:119-163 | the Play check returns the outcome determined by the HTTP answer and the kept labels |
| TitleCheck.PlayOutcomeMeaning | src/brand_name_gen/title_check.py:222-272 | a non-200 status fails with "Play search error: HTTP <status>"; a success lists the kept labels as numbered suggestions, records the Play URL and locale, and is unique exactly when no kept label collides |
| TitleCheck.CheckTitle | src/brand_name_gen/android/title_check.py:166-201 | the loop returns the outcomes of the providers in order, stopping at the first failure |
| TitleCheck.AllOutcomesMeaning | src/brand_name_gen/title_check.py:306-330 | check_title succeeds exactly when every provider does, with one result per provider in order; otherwise it fails with the first provider's error |
| TitleCheck.OutcomeProvider | src/brand_name_gen/android/title_check.py:179-200 | each result is tagged with the provider that produced it |
| GoogleRank.ListOr | src/brand_name_gen/search/dataforseo/google_rank.py:124 | `x or []` is an empty list whenever x is falsy |
| GoogleRank.Organic | src/brand_name_gen/search/dataforseo/google_rank.py:132 | the organic list holds exactly the dict items whose type is "organic" |
| GoogleRank.OrganicAppend | src/brand_name_gen/search/dataforseo/google_rank.py:132 | filtering distributes over concatenation |
| GoogleRank.ExtractMeaning | src/brand_name_gen/search/dataforseo/google_rank.py:123-133 | no tasks or no results give no items and no URL; otherwise the first result's organic items and its check_url |
| GoogleRank.PickMeaning | src/brand_name_gen/search/dataforseo/google_rank.py:146-153 | an item is kept exactly when its title is a nonempty string that contains the keyword or is similar to it; rank and URL are kept only when they have the right type |
| GoogleRank.Collected | src/brand_name_gen/search/dataforseo/google_rank.py:145-153 | the matches are exactly the picked items |
| GoogleRank.FindMatches | src/brand_name_gen/search/dataforseo/google_rank.py:136-155 | the loop returns the picked items sorted by rank |
| GoogleRank.SortByRankSorted | src/brand_name_gen/search/dataforseo/google_rank.py:154 | the matches come out ordered by rank, with missing ranks as 10**9 |
| GoogleRank.SortByRankMultiset | src/brand_name_gen/search/dataforseo/google_rank.py:154 | sorting is a permutation |
| GoogleRank.SortByRankStable | src/brand_name_gen/search/dataforseo/google_rank.py:154 | the sort is stable: items with equal keys keep their order |
| GoogleRank.TopIsBest | src/brand_name_gen/search/dataforseo/google_rank.py:113 | the first match has the least rank key, and its rank is the least of the known ranks |
| GoogleRank.FromEnvPrecedence | src/brand_name_gen/search/dataforseo/google_rank.py:40-44 | a nonempty `.env` login or password wins over the environment, which is consulted only when no `.env` key is set; a login exists exactly when one of the six sources is set |
| GoogleRank.Ranker.FromEnv | src/brand_name_gen/search/dataforseo/google_rank.py:28-47 | from_env builds a fresh ranker with the settled login and password, timeout 30 and no backend |
| GoogleRank.Ranker.constructor | src/brand_name_gen/search/dataforseo/google_rank.py:21-25 | a new ranker has no backend, credentials or timeout |
| GoogleRank.Ranker.SetBackend | src/brand_name_gen/search/dataforseo/google_rank.py:49-57 | sets only the backend |
| GoogleRank.Ranker.SetTimeout | src/brand_name_gen/search/dataforseo/google_rank.py:59-61 | sets only the timeout |
| GoogleRank.Ranker.SetCredentials | src/brand_name_gen/search/dataforseo/google_rank.py:63-74 | sets only login and password |
| GoogleRank.Ranker.Run | src/brand_name_gen/search/dataforseo/google_rank.py:76-120 | run returns the outcome of the ranker's settings, the backend answer and the query |
| GoogleRank.RunBackendChoice | src/brand_name_gen/search/dataforseo/google_rank.py:96-110 | without both credentials run fails whatever the backend and timeout; an injected backend is used whatever the timeout; otherwise the requests backend gets the timeout, or 30 when it is unset or zero |
| GoogleRank.RespondErrors | src/brand_name_gen/search/dataforseo/google_rank.py:110-111 | a backend or extraction error is passed through unchanged |
| GoogleRank.FinishMeaning | src/brand_name_gen/search/dataforseo/google_rank.py:111-120 | a result exists exactly when check_url is a string or null; it carries the query, matches sorted by rank that are a permutation of the collected items, total_matches equal to their count, and a top position no worse than any known rank |
| DomainCheck.ValidateDomain | src/brand_name_gen/domain/domain_check.py:74-77 | a domain is accepted exactly when it is nonempty and contains a dot, and it is kept unchanged |
| DomainCheck.NewAvailability | src/brand_name_gen/domain/domain_check.py:44-77 | a DomainAvailability can be built exactly for a valid domain |
| DomainCheck.NormalizeBrandLabel | src/brand_name_gen/domain/domain_check.py:84-113 | the label is the lowercase alphanumeric words joined by '-', and it is an error exactly when there are none |
| DomainCheck.LabelPipelineIsJoin | src/brand_name_gen/domain/domain_check.py:105-106 | the two regex substitutions plus the strip give the words joined by single hyphens |
| DomainCheck.NormalizedLabelShape | src/brand_name_gen/domain/domain_check.py:105-113 | a normalized label has no leading, trailing or doubled hyphen and is pure ASCII, so the IDNA branch never applies |
| DomainCheck.NormalizeBrandLabelIdempotent | src/brand_name_gen/domain/domain_check.py:84-113 | normalizing a normalized label gives it back |
| DomainCheck.LabelWordsAreTitleWords | src/brand_name_gen/domain/domain_check.py:105-106 | the label's words are the title's normalized tokens |
| DomainCheck.BrandNameExample | src/brand_name_gen/domain_check.py:126-135 | "Brand Name" becomes "brand-name" |
| DomainCheck.TwoWords | src/brand_name_gen/domain_check.py:126-127 | any two words separated by a space become the lowercase words joined by '-' |
| DomainCheck.OpenAIExample | src/brand_name_gen/domain_check.py:126-135 | "OpenAI" becomes "openai" |
| DomainCheck.EmptyLabelExample | src/brand_name_gen/domain_check.py:128-129 | " -- " is rejected as empty |
| DomainCheck.RdapCheck | src/brand_name_gen/domain/domain_check.py:116-155 | the retry loop returns the RDAP outcome of the responses |
| DomainCheck.RdapOutcomeMeaning | src/brand_name_gen/domain/domain_check.py:118-147 | 404 means available; another OK status means taken; any other status is unknown with note "transient"; each result is authoritative from Verisign RDAP with the final status; request errors propagate |
| DomainCheck.RdapAtMostTwoRequests | src/brand_name_gen/domain/domain_check.py:118-139 | the outcome depends only on the first response and, when that one is retryable (429/5xx), the second |
| DomainCheck.ComDomainValid | src/brand_name_gen/domain/domain_check.py:174 | `<label>.com` always passes domain validation |
| DomainCheck.IsComAvailable | src/brand_name_gen/domain/domain_check.py:158-175 | the `.com` check returns the availability of the normalized label's `.com` domain |
| DomainCheck.ComAvailabilityMeaning | src/brand_name_gen/domain_check.py:195-213 | an empty label fails; otherwise the RDAP outcome is for `<label>.com` and carries its final status |
| DomainCheck.CheckMany | src/brand_name_gen/domain/domain_check.py:219-237 | the loop returns what `ManyOf` states: the dict built by assigning each label its availability in input order, or the first failure |
| DomainCheck.ManyOfOutcome | src/brand_name_gen/domain_check.py:253-272 | check_many succeeds exactly when every label does; otherwise it fails with the first failing label's error |
| DomainCheck.ManyOfKeys | src/brand_name_gen/domain/domain_check.py:234-237 | the result's keys are distinct and are the input labels in order of first appearance; a repeated label keeps its first place |
| DomainCheck.ManyOfValues | src/brand_name_gen/domain/domain_check.py:234-237 | every input label maps to its own availability result |
| DomainCheck.ManyOfFailureSticks | src/brand_name_gen/domain/domain_check.py:235-236 | once a label fails, later labels do not change the outcome |
| DomainCheck.CheckWwwResolves | src/brand_name_gen/domain/domain_check.py:178-216 | an unknown provider is an error; google and cloudflare probe their DoH URL |
| DomainCheck.AnyDataMeaning | src/brand_name_gen/domain/domain_check.py:208 | `any(a.get("data") ...)` holds exactly when some answer has truthy data |
| DomainCheck.ProbeMeaning | src/brand_name_gen/domain/domain_check.py:205-208 | the probe is true exactly when Status is 0 and some answer has truthy data |
| DomainCheck.MissingStatusIsFalse | src/brand_name_gen/domain/domain_check.py:206 | a reply without Status defaults to -1 and so is false |
| DomainCheck.GoogleProbeExample | src/brand_name_gen/domain_check.py:237-242 | a Google reply with Status 0 and an A record gives true |
| DotEnv.LinesHaveNoNewline | src/brand_name_gen/utils/env.py:27 | the file is read line by line, and no line holds a newline |
| DotEnv.JoinLines | src/brand_name_gen/utils/env.py:27 | joining the lines with newlines gives back the file |
| DotEnv.IndexOf | src/brand_name_gen/utils/env.py:31 | the split point is the first '=' |
| DotEnv.ParseLine | src/brand_name_gen/utils/env.py:28-33 | a parsed key never contains '=' |
| DotEnv.StripInside | src/brand_name_gen/utils/env.py:28 | stripping only removes characters |
| DotEnv.StripUnstripped | src/brand_name_gen/utils/env.py:28 | stripping text without strippable ends changes nothing |
| DotEnv.ParseLineRoundTrip | src/brand_name_gen/utils/env.py:28-33 | the line `KEY=value` parses back to (KEY, value) for a plain key and value |
| DotEnv.ParseLineCleaned | src/brand_name_gen/utils/env.py:28-33 | `KEY=raw` parses to the key and the cleaned raw value |
| DotEnv.ParseLineSingleQuoted | src/brand_name_gen/utils/env.py:28-33 | `KEY='value'` parses to the unquoted value |
| DotEnv.CleanValueDoubleQuoted | src/brand_name_gen/utils/env.py:33 | a double-quoted value loses its quotes |
| DotEnv.CleanValueSingleQuoted | src/brand_name_gen/utils/env.py:33 | a single-quoted value loses its quotes |
| DotEnv.QuotedKeepsSpace | src/brand_name_gen/utils/env.py:33 | whitespace inside quotes survives the whitespace strip |
| DotEnv.ReadDotenvValue | src/brand_name_gen/utils/env.py:40-60 | read_dotenv_value returns the `.env` value of the key determined by the file |
| DotEnv.FirstValueMeaning | src/brand_name_gen/utils/env.py:51-57 | the value is None exactly when no line defines the key, and otherwise it is the value of the first line that does |
| DotEnv.Environ.constructor | src/brand_name_gen/utils/env.py:34-35 | the environment starts with the given variables |
| DotEnv.Environ.LoadEnvFromDotenv | src/brand_name_gen/utils/env.py:14-37 | loading sets the environment to the old variables extended by the file's entries |
| DotEnv.LoadEntriesKeeps | src/brand_name_gen/utils/env.py:34-35 | loading never overrides an existing variable |
| DotEnv.LoadEntriesAddsOnlyFileKeys | src/brand_name_gen/utils/env.py:26-35 | every new variable comes from a line of the file |
| DotEnv.LoadAgreesWithRead | src/brand_name_gen/utils/env.py:29-35 | a new key is loaded exactly when the file defines it, with its first value |
| DotEnv.LoadedMeaning | src/brand_name_gen/utils/env.py:14-37 | after loading, old variables are unchanged, and a new nonempty key is present exactly when read_dotenv_value finds it, with the same value |
| NameGen.StyleInfixMeaning | src/brand_name_gen/core.py:32-37 | the infix is nonempty exactly for the four known styles, and it is one of "", x, a, oo, pro |
| NameGen.Slugify | src/brand_name_gen/core.py:40-41 | a slug has only lowercase letters and digits and is no longer than the word |
| NameGen.SlugifyIdempotent | src/brand_name_gen/core.py:40-41 | slugifying a slug changes nothing |
| NameGen.SlugifyEmpty | src/brand_name_gen/core.py:40-41 | a slug is empty exactly when the word has no letter or digit |
| NameGen.Seeds | src/brand_name_gen/core.py:59 | seeds are nonempty slugs, at most one per keyword |
| NameGen.SeedsEmpty | src/brand_name_gen/core.py:59-61 | there are no seeds exactly when every keyword slugifies to empty |
| NameGen.SeedsAreSlugs | src/brand_name_gen/core.py:59 | every seed is the slug of a keyword |
| NameGen.TitleLower | src/brand_name_gen/core.py:74 | title-casing changes only the case of letters |
| NameGen.TitleIdempotent | src/brand_name_gen/core.py:74 | title-casing a title-cased string changes nothing |
| NameGen.TitleInjective | src/brand_name_gen/core.py:74-75 | different lowercase names stay different after title-casing, so the seen check on titles is a check on names |
| NameGen.TitleStartsUpper | src/brand_name_gen/core.py:74 | a name starting with a lowercase letter gets an uppercase first letter |
| NameGen.Cap | src/brand_name_gen/core.py:78 | the list stops at the limit, but never before the first name |
| NameGen.StopsAtCap | src/brand_name_gen/core.py:78-79 | stopping once the cap is reached returns the first cap distinct candidates |
| NameGen.GenerateNames | src/brand_name_gen/core.py:44-91 | generate_names returns the first distinct candidates up to the cap, in generation order, and nothing without seeds |
| NameGen.CollectNames | src/brand_name_gen/core.py:65-91 | the two phases together return the first distinct candidates up to the cap |
| NameGen.CollectPrefixed | src/brand_name_gen/core.py:65-79 | the prefixed phase either stops at the cap with the final answer, or returns all distinct prefixed names, fewer than the cap |
| NameGen.AddSuffixed | src/brand_name_gen/core.py:72-79 | the suffix loop adds each new name once, keeps the seen set in step with the list, and stops exactly when the cap is reached |
| NameGen.GeneratedNamesUnique | src/brand_name_gen/core.py:75-77 | the names have no duplicates |
| NameGen.CandidatesNonEmpty | src/brand_name_gen/core.py:65-89 | with a seed and a suffix there is at least one candidate |
| NameGen.GeneratedNamesCount | src/brand_name_gen/core.py:78 | at most `limit` names for a positive limit; exactly one when the limit is below 1 and a seed exists |
| NameGen.NoNamesWithoutSeeds | src/brand_name_gen/core.py:59-61 | the result is empty exactly when no keyword has a letter or digit |
| NameGen.InPhase1 | src/brand_name_gen/core.py:69-74 | a prefixed name is the title of prefix + infix + seed + suffix |
| NameGen.InPhase2 | src/brand_name_gen/core.py:82-84 | a fallback name is the title of seed + suffix |
| NameGen.GeneratedNamesShape | src/brand_name_gen/core.py:65-89 | every generated name is prefix + infix + seed + suffix or seed + suffix, title-cased |
| NameGen.PrefixesStartLower | src/brand_name_gen/core.py:8-18 | every prefix starts with a lowercase letter |
| NameGen.Phase1StartsUpper | src/brand_name_gen/core.py:69-74 | every prefixed name starts with an uppercase letter |
| NameGen.FallbackOnlyWhenShort | src/brand_name_gen/core.py:81-89 | when the prefixed names already reach the cap, the result is the first cap of them and the fallback contributes nothing |

## Left out

- HTTP, DNS-over-HTTPS, RDAP and DataForSEO calls are function-valued parameters that return a status, a decoded JSON body or an error. Timeouts, headers, the User-Agent and `raise_for_status` text are not modelled. Neither are the random back-off sleep between RDAP attempts and the RDAP URL template.
- The Play page's `aria-label` regex extraction is an input: the model starts from the list of labels it finds.
- `SequenceMatcher.ratio()` and RapidFuzz `WRatio` are oracles. The integer pair score is in [0,100] and 100 on equal strings; the real ratio is in [0,1]. Floating-point similarity thresholds are compared as reals.
- `load_uniqueness_config` (YAML loading, `evaluate/config.py`) is not part of this model. `FromDefaults` takes the loaded config as a parameter.
- The `config` property of `UniquenessEvaluator` is the `config` field itself.
- The evaluator's providers (`evaluate/providers.py`) are the four provider functions. `evaluate` catches exceptions from the scorers too, but the modelled scorers are total, so only provider failures yield neutral scores.
- `LocaleSpec.weight` is carried but, as in the source, unused.
- Lowercasing, `isalnum`, `str.title` and the `[^a-z0-9]` classes are modelled on ASCII. Python applies Unicode rules to non-ASCII letters.
- The IDNA branch of `normalize_brand_label` is not modelled, because `NormalizedLabelShape` proves that it cannot be reached.
- The final "unreachable" return of `_rdap_check` is dead code (the loop always returns) and is not modelled.
- Pydantic validation appears only where it can fail on the modelled inputs: the domain validator and the type of `check_url`.
- Python dicts whose order the core observes are association lists in insertion order (`Dicts.Dict`): the component list, the explanations and the result of `check_many`. Decoded JSON objects keep their fields in document order, repeated keys included.
- Json.ParseInt: only ASCII digits are accepted; Python's `int()` also accepts other Unicode decimal digits.
- NameGen.GenerateNames: the name loops take the prefix and suffix tables as parameters, and they are split into `CollectPrefixed`, `AddSuffixed` and `CollectNames`. `GenerateNames` passes the source's tables.
- NameGen.Slugify: ASCII only; Unicode letters and digits that Python keeps are dropped.
- Matcher.ScorePair: it is reflexive only for the built-in matcher. RapidFuzz's score of a string with itself is not constrained, because its preprocessing can empty a string.
- Evaluator.NeutralComponent: the bound `score <= weight` is stated only for non-negative weights, because for a negative weight the source's score of 0 exceeds the weight.
- The `title_checker.py`, `domain_checker.py` and `cli.py` wrappers and the demo scripts are not part of this model.
