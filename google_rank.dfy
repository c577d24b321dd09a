/**
 * Google organic ranking through DataForSEO (`search/dataforseo/google_rank.py`):
 * the ranker holds credentials, a timeout and an optional backend; a run
 * sends the query, pulls the organic items out of the nested response,
 * keeps those whose title contains or resembles the keyword, and sorts them
 * by absolute rank.
 *
 * The backend call is an oracle from the request payload to the decoded
 * response dict; the default backend is an oracle chosen by login, password
 * and timeout.
 */
module GoogleRank {
  import opened Wrappers
  import opened Text
  import Json
  import Matcher
  import DotEnv

  type Fields = seq<(string, Json.Json)>

  /** `GoogleRankQuery` */
  datatype GoogleRankQuery = GoogleRankQuery(
    keyword: string,
    seDomain: string,
    locationCode: int,
    languageCode: string,
    device: string,
    os: string,
    depth: int,
    similarityThreshold: real
  )

  /** `GoogleRankQuery(keyword=...)` with every other field at its default. */
  function DefaultQuery(keyword: string): (q: GoogleRankQuery)
    ensures q.keyword == keyword && q.seDomain == "google.com" && q.locationCode == 2840
    ensures q.languageCode == "en" && q.device == "desktop" && q.os == "macos"
    ensures q.depth == 50 && q.similarityThreshold == 0.9
  {
    GoogleRankQuery(keyword, "google.com", 2840, "en", "desktop", "macos", 50, 0.9)
  }

  /** `OrganicItem` */
  datatype OrganicItem = OrganicItem(rankAbsolute: Option<int>, title: string, url: Option<string>)

  /** `GoogleRankResult` */
  datatype GoogleRankResult = GoogleRankResult(
    query: GoogleRankQuery,
    topPosition: Option<int>,
    matches: seq<OrganicItem>,
    totalMatches: int,
    checkUrl: Option<string>
  )

  /** The request body `run` builds from the query. */
  datatype Payload = Payload(
    keyword: string,
    seDomain: string,
    locationCode: int,
    languageCode: string,
    device: string,
    os: string,
    depth: int
  )

  function PayloadOf(q: GoogleRankQuery): Payload
  {
    Payload(q.keyword, q.seDomain, q.locationCode, q.languageCode, q.device, q.os, q.depth)
  }

  /** `backend.google_organic_live_advanced(payload)`: the decoded response dict, or the error raised. */
  type Backend = Payload -> Result<Fields, string>

  /** `RequestsBackend(login, password, timeout_s=...)` */
  type RequestsBackend = (string, string, real) -> Backend

  // ---------------------------------------------------------------------
  // _extract_organic_and_check_url
  // ---------------------------------------------------------------------

  /** `v[0]` on a truthy decoded value. */
  function First(v: Json.Json): Result<Json.Json, string>
    requires Json.Truthy(v)
  {
    match v
    case JList(items) => Success(items[0])
    case JStr(s) => Success(Json.JStr([s[0]]))
    case JObj(_) => Failure("KeyError: 0")
    case _ => Failure("TypeError: object is not subscriptable")
  }

  /** `d.get(key, []) or []` */
  function ListOr(fields: Fields, key: string): (r: Json.Json)
    ensures !Json.Truthy(r) ==> r == Json.JList([])
  {
    Json.Or(Json.GetOr(fields, key, Json.JList([])), Json.JList([]))
  }

  /** A dict item whose `type` is `"organic"`. */
  predicate IsOrganic(it: Json.Json)
  {
    it.JObj? && Json.Get(it.fields, "type") == Json.JStr("organic")
  }

  /** `[it for it in items if isinstance(it, dict) and it.get("type") == "organic"]` */
  function Organic(items: seq<Json.Json>): (r: seq<Fields>)
    ensures |r| <= |items|
    ensures forall k :: 0 <= k < |r| ==> exists i :: 0 <= i < |items| && IsOrganic(items[i]) && items[i].fields == r[k]
    ensures forall i :: 0 <= i < |items| && IsOrganic(items[i]) ==> items[i].fields in r
  {
    if items == [] then []
    else
      var init := items[..|items| - 1];
      var last := items[|items| - 1];
      assert forall i :: 0 <= i < |init| ==> init[i] == items[i];
      Organic(init) + if IsOrganic(last) then [last.fields] else []
  }

  /** The organic filter keeps the order of the items: it distributes over concatenation. */
  lemma {:induction false} OrganicAppend(a: seq<Json.Json>, b: seq<Json.Json>)
    ensures Organic(a + b) == Organic(a) + Organic(b)
    decreases |b|
  {
    if b == [] {
      assert a + b == a;
    } else {
      var b' := b[..|b| - 1];
      assert (a + b)[..|a + b| - 1] == a + b';
      assert (a + b)[|a + b| - 1] == b[|b| - 1];
      OrganicAppend(a, b');
    }
  }

  /**
   * `_extract_organic_and_check_url`: the organic items and the raw
   * `check_url` of the first result of the first task; no tasks or no
   * results give nothing. Indexing or calling `.get` on a value that does not
   * support it raises.
   */
  function Extract(data: Fields): Result<(seq<Fields>, Json.Json), string>
  {
    var tasks := ListOr(data, "tasks");
    if !Json.Truthy(tasks) then Success(([], Json.JNull))
    else
      match First(tasks)
      case Failure(e) => Failure(e)
      case Success(task) =>
        if !task.JObj? then Failure("AttributeError: object has no attribute 'get'")
        else
          var results := ListOr(task.fields, "result");
          if !Json.Truthy(results) then Success(([], Json.JNull))
          else
            match First(results)
            case Failure(e) => Failure(e)
            case Success(res) =>
              if !res.JObj? then Failure("AttributeError: object has no attribute 'get'")
              else
                match Json.Iterate(ListOr(res.fields, "items"))
                case Failure(e) => Failure(e)
                case Success(items) => Success((Organic(items), Json.Get(res.fields, "check_url")))
  }

  /**
   * Missing or empty `tasks`, or a missing or empty first `result`, give no
   * items and no URL; otherwise the items are the organic dicts of the first
   * result's `items` and the URL is its `check_url`.
   */
  lemma ExtractMeaning(data: Fields)
    ensures !Json.Truthy(Json.GetOr(data, "tasks", Json.JList([]))) ==> Extract(data) == Success(([], Json.JNull))
    ensures var tasks := Json.GetOr(data, "tasks", Json.JList([]));
      tasks.JList? && tasks.items != [] && tasks.items[0].JObj? ==>
        var results := Json.GetOr(tasks.items[0].fields, "result", Json.JList([]));
        && (!Json.Truthy(results) ==> Extract(data) == Success(([], Json.JNull)))
        && (results.JList? && results.items != [] && results.items[0].JObj? ==>
              var res := results.items[0].fields;
              var items := Json.GetOr(res, "items", Json.JList([]));
              items.JList? ==> Extract(data) == Success((Organic(items.items), Json.Get(res, "check_url"))))
  {
  }

  // ---------------------------------------------------------------------
  // _find_matches
  // ---------------------------------------------------------------------

  /**
   * The match test: the keyword's normal form occurs in the title's, or the
   * normal forms are similar enough.
   */
  predicate Matches(ratio: Matcher.Ratio, keyword: string, title: string, threshold: real)
  {
    Contains(Norm(title), Norm(keyword)) || ratio(Norm(title), Norm(keyword)) >= threshold
  }

  /** What one organic dict contributes: an item when its title is a nonempty string that matches. */
  type Picker = Fields -> Option<OrganicItem>

  function PickerOf(ratio: Matcher.Ratio, keyword: string, threshold: real): Picker
  {
    it => Pick(ratio, keyword, threshold, it)
  }

  function Pick(ratio: Matcher.Ratio, keyword: string, threshold: real, it: Fields): Option<OrganicItem>
  {
    PickBy(it, t => Matches(ratio, keyword, t, threshold))
  }

  /** The item an organic dict contributes under the title test `matches`. */
  function PickBy(it: Fields, matches: string -> bool): Option<OrganicItem>
  {
    var title := Json.Or(Json.Get(it, "title"), Json.JStr(""));
    if !title.JStr? || title.s == [] then None
    else if !matches(title.s) then None
    else
      var url := Json.Get(it, "url");
      var rank := Json.Get(it, "rank_absolute");
      Some(OrganicItem(if Json.IsInt(rank) then Some(Json.IntValue(rank)) else None,
                       title.s,
                       if url.JStr? then Some(url.s) else None))
  }

  /**
   * An item is picked exactly when its `title` is a nonempty string that
   * matches; it keeps that title, and records a non-int rank or a non-string
   * URL as `None`.
   */
  lemma PickMeaning(ratio: Matcher.Ratio, keyword: string, threshold: real, it: Fields)
    ensures var t := Json.Get(it, "title");
      Pick(ratio, keyword, threshold, it).Some? <==> t.JStr? && t.s != [] && Matches(ratio, keyword, t.s, threshold)
    ensures Pick(ratio, keyword, threshold, it).Some? ==>
      var m := Pick(ratio, keyword, threshold, it).value;
      var rank, url := Json.Get(it, "rank_absolute"), Json.Get(it, "url");
      && Json.Get(it, "title") == Json.JStr(m.title)
      && (m.rankAbsolute.Some? <==> Json.IsInt(rank))
      && (m.rankAbsolute.Some? ==> m.rankAbsolute.value == Json.IntValue(rank))
      && (m.url.Some? <==> url.JStr?)
      && (m.url.Some? ==> url == Json.JStr(m.url.value))
  {
    PickByMeaning(it, t => Matches(ratio, keyword, t, threshold));
  }

  lemma PickByMeaning(it: Fields, matches: string -> bool)
    ensures var t := Json.Get(it, "title");
      PickBy(it, matches).Some? <==> t.JStr? && t.s != [] && matches(t.s)
    ensures PickBy(it, matches).Some? ==>
      var m := PickBy(it, matches).value;
      var rank, url := Json.Get(it, "rank_absolute"), Json.Get(it, "url");
      && Json.Get(it, "title") == Json.JStr(m.title)
      && (m.rankAbsolute.Some? <==> Json.IsInt(rank))
      && (m.rankAbsolute.Some? ==> m.rankAbsolute.value == Json.IntValue(rank))
      && (m.url.Some? <==> url.JStr?)
      && (m.url.Some? ==> url == Json.JStr(m.url.value))
  {
  }

  /** The matching items in the order of the organic list. */
  function Collected(organic: seq<Fields>, pick: Picker): (r: seq<OrganicItem>)
    ensures |r| <= |organic|
    ensures forall k :: 0 <= k < |r| ==> exists i :: 0 <= i < |organic| && pick(organic[i]) == Some(r[k])
    ensures forall i :: 0 <= i < |organic| && pick(organic[i]).Some? ==> pick(organic[i]).value in r
  {
    if organic == [] then []
    else
      var init := organic[..|organic| - 1];
      var p := pick(organic[|organic| - 1]);
      assert forall i :: 0 <= i < |init| ==> init[i] == organic[i];
      Collected(init, pick) + if p.Some? then [p.value] else []
  }

  lemma CollectedSnoc(organic: seq<Fields>, i: nat, pick: Picker)
    requires i < |organic|
    ensures Collected(organic[..i + 1], pick) ==
      Collected(organic[..i], pick) + if pick(organic[i]).Some? then [pick(organic[i]).value] else []
  {
    assert organic[..i + 1][..i] == organic[..i];
  }

  /** `_find_matches`'s loop body for one organic dict. */
  method PickOne(ratio: Matcher.Ratio, keyword: string, threshold: real, it: Fields) returns (r: Option<OrganicItem>)
    ensures r == PickerOf(ratio, keyword, threshold)(it)
  {
    ghost var test := t => Matches(ratio, keyword, t, threshold);
    assert PickerOf(ratio, keyword, threshold)(it) == PickBy(it, test);
    var title := Json.Or(Json.Get(it, "title"), Json.JStr(""));
    if !title.JStr? || title.s == [] {
      return None;
    }
    var matched := Matches(ratio, keyword, title.s, threshold);
    assert matched == test(title.s);
    var urlVal: Option<string> := None;
    var url := Json.Get(it, "url");
    if url.JStr? {
      urlVal := Some(url.s);
    }
    var rankAbs: Option<int> := None;
    var rank := Json.Get(it, "rank_absolute");
    if Json.IsInt(rank) {
      rankAbs := Some(Json.IntValue(rank));
    }
    if matched {
      r := Some(OrganicItem(rankAbs, title.s, urlVal));
    } else {
      r := None;
    }
  }

  /** `_find_matches` */
  method FindMatches(ratio: Matcher.Ratio, keyword: string, organic: seq<Fields>, threshold: real)
    returns (out: seq<OrganicItem>)
    ensures out == SortByRank(Collected(organic, PickerOf(ratio, keyword, threshold)))
  {
    out := [];
    for i := 0 to |organic|
      invariant out == Collected(organic[..i], PickerOf(ratio, keyword, threshold))
    {
      CollectedSnoc(organic, i, PickerOf(ratio, keyword, threshold));
      var m := PickOne(ratio, keyword, threshold, organic[i]);
      if m.Some? {
        out := out + [m.value];
      }
    }
    assert organic[..|organic|] == organic;
    out := SortByRank(out);
  }

  // ---------------------------------------------------------------------
  // The stable sort by rank
  // ---------------------------------------------------------------------

  /** The key a missing rank sorts with: `10**9`. */
  const NoRank: int := 1_000_000_000

  /** `m.rank_absolute if isinstance(m.rank_absolute, int) else 10**9` */
  function RankKey(m: OrganicItem): int
  {
    if m.rankAbsolute.Some? then m.rankAbsolute.value else NoRank
  }

  ghost predicate SortedByRank(s: seq<OrganicItem>)
  {
    forall i, j :: 0 <= i < j < |s| ==> RankKey(s[i]) <= RankKey(s[j])
  }

  /** `x` placed after every element whose key is not larger: the step of a stable insertion sort. */
  function InsertByRank(x: OrganicItem, s: seq<OrganicItem>): (r: seq<OrganicItem>)
    ensures |r| == |s| + 1
  {
    if s == [] then [x]
    else if RankKey(s[|s| - 1]) <= RankKey(x) then s + [x]
    else InsertByRank(x, s[..|s| - 1]) + [s[|s| - 1]]
  }

  /** `list.sort(key=...)`: stable, ascending by key. */
  function SortByRank(s: seq<OrganicItem>): (r: seq<OrganicItem>)
    ensures |r| == |s|
  {
    if s == [] then [] else InsertByRank(s[|s| - 1], SortByRank(s[..|s| - 1]))
  }

  /** The elements of `s` with key `k`, in order. */
  function WithKey(s: seq<OrganicItem>, k: int): seq<OrganicItem>
  {
    if s == [] then []
    else WithKey(s[..|s| - 1], k) + if RankKey(s[|s| - 1]) == k then [s[|s| - 1]] else []
  }

  /** Inserting `x` into items whose keys are at most `b` keeps every key at most `b`. */
  lemma {:induction false} InsertByRankBound(x: OrganicItem, s: seq<OrganicItem>, b: int)
    requires RankKey(x) <= b
    requires forall i :: 0 <= i < |s| ==> RankKey(s[i]) <= b
    ensures forall i :: 0 <= i < |InsertByRank(x, s)| ==> RankKey(InsertByRank(x, s)[i]) <= b
  {
    if s != [] && RankKey(s[|s| - 1]) > RankKey(x) {
      InsertByRankBound(x, s[..|s| - 1], b);
    }
  }

  lemma {:induction false} InsertByRankSorted(x: OrganicItem, s: seq<OrganicItem>)
    requires SortedByRank(s)
    ensures SortedByRank(InsertByRank(x, s))
  {
    if s != [] && RankKey(s[|s| - 1]) > RankKey(x) {
      var init, last := s[..|s| - 1], s[|s| - 1];
      assert SortedByRank(init);
      InsertByRankSorted(x, init);
      InsertByRankBound(x, init, RankKey(last));
    }
  }

  lemma {:induction false} InsertByRankMultiset(x: OrganicItem, s: seq<OrganicItem>)
    ensures multiset(InsertByRank(x, s)) == multiset(s) + multiset{x}
  {
    if s != [] && RankKey(s[|s| - 1]) > RankKey(x) {
      var init, last := s[..|s| - 1], s[|s| - 1];
      InsertByRankMultiset(x, init);
      assert s == init + [last];
    }
  }

  /** `x` goes after every item with its key: the insertion is stable. */
  lemma {:induction false} InsertByRankWithKey(x: OrganicItem, s: seq<OrganicItem>, k: int)
    ensures WithKey(InsertByRank(x, s), k) == WithKey(s, k) + if RankKey(x) == k then [x] else []
  {
    if s == [] {
      assert WithKey([x], k) == WithKey([], k) + if RankKey(x) == k then [x] else [];
    } else if RankKey(s[|s| - 1]) <= RankKey(x) {
      var r := s + [x];
      assert r[..|r| - 1] == s;
    } else {
      var init, last := s[..|s| - 1], s[|s| - 1];
      var ins := InsertByRank(x, init);
      InsertByRankWithKey(x, init, k);
      var r := ins + [last];
      assert r[..|r| - 1] == ins;
      assert WithKey(r, k) == WithKey(ins, k) + if RankKey(last) == k then [last] else [];
    }
  }

  /** The sort orders by rank key. */
  lemma {:induction false} SortByRankSorted(s: seq<OrganicItem>)
    ensures SortedByRank(SortByRank(s))
  {
    if s != [] {
      SortByRankSorted(s[..|s| - 1]);
      InsertByRankSorted(s[|s| - 1], SortByRank(s[..|s| - 1]));
    }
  }

  /** The sort is a permutation. */
  lemma {:induction false} SortByRankMultiset(s: seq<OrganicItem>)
    ensures multiset(SortByRank(s)) == multiset(s)
  {
    if s != [] {
      SortByRankMultiset(s[..|s| - 1]);
      InsertByRankMultiset(s[|s| - 1], SortByRank(s[..|s| - 1]));
      assert s == s[..|s| - 1] + [s[|s| - 1]];
    }
  }

  /** The sort is stable: the items with any one key keep their input order. */
  lemma {:induction false} SortByRankStable(s: seq<OrganicItem>, k: int)
    ensures WithKey(SortByRank(s), k) == WithKey(s, k)
  {
    if s != [] {
      SortByRankStable(s[..|s| - 1], k);
      InsertByRankWithKey(s[|s| - 1], SortByRank(s[..|s| - 1]), k);
    }
  }

  /**
   * The first item after sorting has the smallest key: its rank is at most
   * every ranked match's, and when it has no rank no match ranks below `10**9`.
   */
  lemma TopIsBest(s: seq<OrganicItem>)
    requires s != []
    ensures var top := SortByRank(s)[0];
      && (forall i :: 0 <= i < |s| ==> RankKey(top) <= RankKey(s[i]))
      && (top.rankAbsolute.None? ==> forall i :: 0 <= i < |s| ==> s[i].rankAbsolute.None? || s[i].rankAbsolute.value >= NoRank)
      && (top.rankAbsolute.Some? ==> forall i :: 0 <= i < |s| && s[i].rankAbsolute.Some? ==> top.rankAbsolute.value <= s[i].rankAbsolute.value)
  {
    var r := SortByRank(s);
    SortByRankSorted(s);
    SortByRankMultiset(s);
    forall i | 0 <= i < |s|
      ensures RankKey(r[0]) <= RankKey(s[i])
    {
      assert s[i] in multiset(r);
      var p :| 0 <= p < |r| && r[p] == s[i];
    }
  }

  // ---------------------------------------------------------------------
  // DataForSEORanker
  // ---------------------------------------------------------------------

  /** Python's `a or b` on optional strings. */
  function OrStr(a: Option<string>, b: Option<string>): (r: Option<string>)
    ensures a.Some? && a.value != [] ==> r == a
    ensures !(a.Some? && a.value != []) ==> r == b
  {
    if a.Some? && a.value != [] then a else b
  }

  /** `os.getenv(key)` */
  function Getenv(env: map<string, string>, key: string): Option<string>
  {
    if key in env then Some(env[key]) else None
  }

  /** The login `from_env` settles on: the `.env` keys first, then the environment. */
  function LoginFrom(dotenv: Option<string>, env: map<string, string>): Option<string>
  {
    var login := OrStr(OrStr(DotEnv.DotenvValue(dotenv, "DATAFORSEO_LOGIN"), DotEnv.DotenvValue(dotenv, "DATAFORSEO_USERNAME")),
                       DotEnv.DotenvValue(dotenv, "DATAFORSEO_EMAIL"));
    OrStr(OrStr(OrStr(login, Getenv(env, "DATAFORSEO_LOGIN")), Getenv(env, "DATAFORSEO_USERNAME")), Getenv(env, "DATAFORSEO_EMAIL"))
  }

  /** The password `from_env` settles on. */
  function PasswordFrom(dotenv: Option<string>, env: map<string, string>): Option<string>
  {
    var password := OrStr(DotEnv.DotenvValue(dotenv, "DATAFORSEO_PASSWORD"), DotEnv.DotenvValue(dotenv, "DATAFORSEO_PASS"));
    OrStr(OrStr(password, Getenv(env, "DATAFORSEO_PASSWORD")), Getenv(env, "DATAFORSEO_PASS"))
  }

  /** Whether a string setting is truthy. */
  predicate Set(s: Option<string>)
  {
    s.Some? && s.value != []
  }

  /**
   * `.env` takes precedence: a nonempty `.env` login key wins over anything in
   * the environment, and the environment is consulted only when no `.env`
   * login key is set; the same holds for the password.
   */
  lemma FromEnvPrecedence(dotenv: Option<string>, env: map<string, string>)
    ensures Set(DotEnv.DotenvValue(dotenv, "DATAFORSEO_LOGIN")) ==> LoginFrom(dotenv, env) == DotEnv.DotenvValue(dotenv, "DATAFORSEO_LOGIN")
    ensures (!Set(DotEnv.DotenvValue(dotenv, "DATAFORSEO_LOGIN")) && !Set(DotEnv.DotenvValue(dotenv, "DATAFORSEO_USERNAME"))
             && !Set(DotEnv.DotenvValue(dotenv, "DATAFORSEO_EMAIL"))) ==>
      LoginFrom(dotenv, env) == OrStr(OrStr(Getenv(env, "DATAFORSEO_LOGIN"), Getenv(env, "DATAFORSEO_USERNAME")), Getenv(env, "DATAFORSEO_EMAIL"))
    ensures Set(DotEnv.DotenvValue(dotenv, "DATAFORSEO_PASSWORD")) ==> PasswordFrom(dotenv, env) == DotEnv.DotenvValue(dotenv, "DATAFORSEO_PASSWORD")
    ensures !Set(DotEnv.DotenvValue(dotenv, "DATAFORSEO_PASSWORD")) && !Set(DotEnv.DotenvValue(dotenv, "DATAFORSEO_PASS")) ==>
      PasswordFrom(dotenv, env) == OrStr(Getenv(env, "DATAFORSEO_PASSWORD"), Getenv(env, "DATAFORSEO_PASS"))
    ensures Set(LoginFrom(dotenv, env)) <==>
      Set(DotEnv.DotenvValue(dotenv, "DATAFORSEO_LOGIN")) || Set(DotEnv.DotenvValue(dotenv, "DATAFORSEO_USERNAME"))
      || Set(DotEnv.DotenvValue(dotenv, "DATAFORSEO_EMAIL")) || Set(Getenv(env, "DATAFORSEO_LOGIN"))
      || Set(Getenv(env, "DATAFORSEO_USERNAME")) || Set(Getenv(env, "DATAFORSEO_EMAIL"))
  {
  }

  /** `self.m_timeout_s or 30.0` */
  function TimeoutOr30(t: Option<real>): real
  {
    if t.Some? && t.value != 0.0 then t.value else 30.0
  }

  /** `GoogleRankResult.check_url` accepts a string or `None`. */
  function CheckUrl(j: Json.Json): Result<Option<string>, string>
  {
    if j.JNull? then Success(None)
    else if j.JStr? then Success(Some(j.s))
    else Failure("ValidationError: check_url must be a string")
  }

  /** `matches[0].rank_absolute if matches else None` */
  function TopPosition(matches: seq<OrganicItem>): Option<int>
  {
    if matches == [] then None else matches[0].rankAbsolute
  }

  /** The backend `run` calls: the injected one, else a requests backend built from the credentials. */
  function BackendOf(login: string, password: string, timeout: Option<real>, backend: Option<Backend>, requests: RequestsBackend): Backend
  {
    if backend.Some? then backend.value else requests(login, password, TimeoutOr30(timeout))
  }

  /** What `run` makes of the backend's answer. */
  function Respond(raw: Result<Fields, string>, query: GoogleRankQuery, ratio: Matcher.Ratio): Result<GoogleRankResult, string>
  {
    match raw
    case Failure(e) => Failure(e)
    case Success(data) =>
      match Extract(data)
      case Failure(e) => Failure(e)
      case Success(ex) => Finish(Collected(ex.0, PickerOf(ratio, query.keyword, query.similarityThreshold)), ex.1, query)
  }

  /** The result `run` builds from the items it picked and the raw `check_url`. */
  function Finish(found: seq<OrganicItem>, checkUrl: Json.Json, query: GoogleRankQuery): Result<GoogleRankResult, string>
  {
    var matches := SortByRank(found);
    match CheckUrl(checkUrl)
    case Failure(e) => Failure(e)
    case Success(url) => Success(GoogleRankResult(query, TopPosition(matches), matches, |matches|, url))
  }

  /** What `run` returns or raises, given the ranker's settings. */
  function RunOutcome(login: Option<string>, password: Option<string>, timeout: Option<real>, backend: Option<Backend>,
                      query: GoogleRankQuery, ratio: Matcher.Ratio, requests: RequestsBackend): Result<GoogleRankResult, string>
  {
    if !Set(login) || !Set(password) then Failure("DATAFORSEO_LOGIN/PASSWORD not configured")
    else Respond(BackendOf(login.value, password.value, timeout, backend, requests)(PayloadOf(query)), query, ratio)
  }

  /**
   * Without a login or a password `run` fails before any backend is built or
   * called; with both, an injected backend is used whatever the timeout, and
   * otherwise the requests backend gets the timeout, 30 seconds when unset.
   */
  lemma RunBackendChoice(login: Option<string>, password: Option<string>, timeout: Option<real>, backend: Option<Backend>,
                         query: GoogleRankQuery, ratio: Matcher.Ratio, requests: RequestsBackend,
                         timeout': Option<real>, backend': Option<Backend>, requests': RequestsBackend)
    ensures !Set(login) || !Set(password) ==>
      && RunOutcome(login, password, timeout, backend, query, ratio, requests) == Failure("DATAFORSEO_LOGIN/PASSWORD not configured")
      && RunOutcome(login, password, timeout', backend', query, ratio, requests') == RunOutcome(login, password, timeout, backend, query, ratio, requests)
    ensures Set(login) && Set(password) && backend.Some? ==>
      RunOutcome(login, password, timeout', backend, query, ratio, requests') == Respond(backend.value(PayloadOf(query)), query, ratio)
    ensures Set(login) && Set(password) && backend.None? ==>
      RunOutcome(login, password, timeout, backend, query, ratio, requests) ==
        Respond(requests(login.value, password.value, if timeout.Some? && timeout.value != 0.0 then timeout.value else 30.0)(PayloadOf(query)), query, ratio)
  {
  }

  /** Errors of the backend and of the extraction are raised unchanged. */
  lemma RespondErrors(raw: Result<Fields, string>, query: GoogleRankQuery, ratio: Matcher.Ratio)
    ensures raw.Failure? ==> Respond(raw, query, ratio) == Failure(raw.error)
    ensures raw.Success? && Extract(raw.value).Failure? ==> Respond(raw, query, ratio) == Failure(Extract(raw.value).error)
    ensures raw.Success? && Extract(raw.value).Success? ==>
      var ex := Extract(raw.value).value;
      Respond(raw, query, ratio) == Finish(Collected(ex.0, PickerOf(ratio, query.keyword, query.similarityThreshold)), ex.1, query)
  {
  }

  /**
   * A result keeps the query, counts its matches, lists them sorted by rank
   * as a permutation of the matching organic items, and its top position is
   * the best rank among them; a `check_url` that is neither a string nor
   * `None` is a validation error.
   */
  lemma FinishMeaning(found: seq<OrganicItem>, checkUrl: Json.Json, query: GoogleRankQuery)
    ensures Finish(found, checkUrl, query).Success? <==> checkUrl.JNull? || checkUrl.JStr?
    ensures var r := Finish(found, checkUrl, query);
      r.Success? ==>
        && r.value.query == query
        && (r.value.checkUrl.Some? <==> checkUrl.JStr?)
        && r.value.totalMatches == |r.value.matches|
        && SortedByRank(r.value.matches)
        && multiset(r.value.matches) == multiset(found)
        && (r.value.topPosition.Some? ==> forall i :: 0 <= i < |found| && found[i].rankAbsolute.Some? ==>
              r.value.topPosition.value <= found[i].rankAbsolute.value)
        && (r.value.topPosition.None? && found != [] ==> forall i :: 0 <= i < |found| ==>
              found[i].rankAbsolute.None? || found[i].rankAbsolute.value >= NoRank)
  {
    SortByRankSorted(found);
    SortByRankMultiset(found);
    if found != [] {
      TopIsBest(found);
      assert SortByRank(found) != [] by {
        assert |multiset(SortByRank(found))| == |multiset(found)|;
      }
    }
  }

  /** `DataForSEORanker` */
  class Ranker {
    var backend: Option<Backend>
    var login: Option<string>
    var password: Option<string>
    var timeout: Option<real>

    constructor ()
      ensures backend == None && login == None && password == None && timeout == None
    {
      backend, login, password, timeout := None, None, None, None;
    }

    /** `DataForSEORanker.from_env` */
    static method FromEnv(dotenv: Option<string>, env: map<string, string>) returns (r: Ranker)
      ensures fresh(r)
      ensures r.login == LoginFrom(dotenv, env) && r.password == PasswordFrom(dotenv, env)
      ensures r.timeout == Some(30.0) && r.backend == None
    {
      r := new Ranker();
      var l1 := DotEnv.ReadDotenvValue(dotenv, "DATAFORSEO_LOGIN");
      var l2 := DotEnv.ReadDotenvValue(dotenv, "DATAFORSEO_USERNAME");
      var l3 := DotEnv.ReadDotenvValue(dotenv, "DATAFORSEO_EMAIL");
      var p1 := DotEnv.ReadDotenvValue(dotenv, "DATAFORSEO_PASSWORD");
      var p2 := DotEnv.ReadDotenvValue(dotenv, "DATAFORSEO_PASS");
      var login := OrStr(OrStr(l1, l2), l3);
      var password := OrStr(p1, p2);
      r.login := OrStr(OrStr(OrStr(login, Getenv(env, "DATAFORSEO_LOGIN")), Getenv(env, "DATAFORSEO_USERNAME")), Getenv(env, "DATAFORSEO_EMAIL"));
      r.password := OrStr(OrStr(password, Getenv(env, "DATAFORSEO_PASSWORD")), Getenv(env, "DATAFORSEO_PASS"));
      r.timeout := Some(30.0);
      r.backend := None;
    }

    /** `set_backend` */
    method SetBackend(b: Backend)
      modifies this
      ensures backend == Some(b)
      ensures login == old(login) && password == old(password) && timeout == old(timeout)
    {
      backend := Some(b);
    }

    /** `set_timeout` */
    method SetTimeout(t: real)
      modifies this
      ensures timeout == Some(t)
      ensures backend == old(backend) && login == old(login) && password == old(password)
    {
      timeout := Some(t);
    }

    /** `set_credentials` */
    method SetCredentials(l: string, p: string)
      modifies this
      ensures login == Some(l) && password == Some(p)
      ensures backend == old(backend) && timeout == old(timeout)
    {
      login, password := Some(l), Some(p);
    }

    /** `run` */
    method Run(query: GoogleRankQuery, ratio: Matcher.Ratio, requests: RequestsBackend) returns (r: Result<GoogleRankResult, string>)
      ensures r == RunOutcome(login, password, timeout, backend, query, ratio, requests)
    {
      if !Set(login) || !Set(password) {
        return Failure("DATAFORSEO_LOGIN/PASSWORD not configured");
      }
      var raw := BackendOf(login.value, password.value, timeout, backend, requests)(PayloadOf(query));
      if raw.Failure? {
        return Failure(raw.error);
      }
      var ex := Extract(raw.value);
      if ex.Failure? {
        return Failure(ex.error);
      }
      var matches := FindMatches(ratio, query.keyword, ex.value.0, query.similarityThreshold);
      var url := CheckUrl(ex.value.1);
      if url.Failure? {
        return Failure(url.error);
      }
      r := Success(GoogleRankResult(query, TopPosition(matches), matches, |matches|, url.value));
    }
  }
}
