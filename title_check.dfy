/**
 * Android app title uniqueness checks (`android/title_check.py`): the
 * AppFollow suggestion API and the Play Store search page are asked for
 * titles like the given one, and every returned title that is not the same
 * normalised title but overlaps it or is similar to it is a collision.
 *
 * The HTTP calls are oracles: `AppFollowApi` answers a request with a status
 * and the decoded body, `PlayApi` answers a URL with a status and the
 * `aria-label` values of the page in document order.
 */
module TitleCheck {
  import opened Wrappers
  import opened Text
  import Json
  import Seqs
  import Matcher
  import UrlQuote

  /** `Provider` */
  datatype Provider = AppFollow | PlayStore

  /** `Suggestion`: a title a provider returned and its 1-based rank. */
  datatype Suggestion = Suggestion(pos: Option<int>, term: string)

  /** `TitleCheckResult`; the `meta` dict holds only the Play Store URL. */
  datatype TitleCheckResult = TitleCheckResult(
    provider: Provider,
    title: string,
    country: Option<string>,
    hl: Option<string>,
    gl: Option<string>,
    threshold: real,
    suggestions: seq<Suggestion>,
    collisions: seq<Suggestion>,
    uniqueEnough: bool,
    playUrl: Option<string>
  )

  // ---------------------------------------------------------------------
  // Collisions
  // ---------------------------------------------------------------------

  /** `is_similar(a, b, threshold=...)`: the ratio of the normal forms reaches the threshold. */
  predicate IsSimilar(ratio: Matcher.Ratio, a: string, b: string, threshold: real)
  {
    ratio(Norm(a), Norm(b)) >= threshold
  }

  /**
   * The collision test for one returned term: not the same normal form, and
   * the compact forms contain one another or the titles are similar.
   */
  predicate Collides(ratio: Matcher.Ratio, title: string, t: string, threshold: real)
  {
    Norm(t) != Norm(title) && (Matcher.CompactOverlap(title, t) || IsSimilar(ratio, t, title, threshold))
  }

  /** A collision test on one returned term. */
  type Test = string -> bool

  /** `Collides` with the title, the matcher and the threshold fixed. */
  function CollidesWith(ratio: Matcher.Ratio, title: string, threshold: real): Test
  {
    t => Collides(ratio, title, t, threshold)
  }

  /**
   * The collisions among `terms`, each with its 1-based position: exactly the
   * colliding terms, in order.
   */
  function CollisionsOf(terms: seq<string>, collides: Test): (r: seq<Suggestion>)
    ensures |r| <= |terms|
    ensures forall k :: 0 <= k < |r| ==> CollisionIn(terms, collides, r[k])
  {
    if terms == [] then []
    else
      var init := terms[..|terms| - 1];
      var prev := CollisionsOf(init, collides);
      var t := terms[|terms| - 1];
      assert forall i :: 0 <= i < |init| ==> init[i] == terms[i];
      assert forall k :: 0 <= k < |prev| ==> CollisionIn(terms, collides, prev[k]);
      if collides(t) then
        var r := prev + [Suggestion(Some(|terms|), t)];
        assert forall k :: 0 <= k < |prev| ==> r[k] == prev[k];
        r
      else prev
  }

  /**
   * The collisions are listed in increasing position, and every colliding
   * term appears with its position.
   */
  lemma {:induction false} CollisionsOfMeaning(terms: seq<string>, collides: Test)
    ensures var r := CollisionsOf(terms, collides);
      forall j, k :: 0 <= j < k < |r| ==> r[j].pos.Some? && r[k].pos.Some? && r[j].pos.value < r[k].pos.value
    ensures forall i :: 0 <= i < |terms| && collides(terms[i]) ==> Suggestion(Some(i + 1), terms[i]) in CollisionsOf(terms, collides)
    decreases |terms|
  {
    if terms != [] {
      var init := terms[..|terms| - 1];
      CollisionsOfMeaning(init, collides);
      CollisionsOfStep(terms, collides);
    }
  }

  lemma CollisionsOfStep(terms: seq<string>, collides: Test)
    requires terms != []
    requires var init := terms[..|terms| - 1]; var p := CollisionsOf(init, collides);
      && (forall j, k :: 0 <= j < k < |p| ==> p[j].pos.Some? && p[k].pos.Some? && p[j].pos.value < p[k].pos.value)
      && (forall i :: 0 <= i < |init| && collides(init[i]) ==> Suggestion(Some(i + 1), init[i]) in p)
    ensures var r := CollisionsOf(terms, collides);
      forall j, k :: 0 <= j < k < |r| ==> r[j].pos.Some? && r[k].pos.Some? && r[j].pos.value < r[k].pos.value
    ensures forall i :: 0 <= i < |terms| && collides(terms[i]) ==> Suggestion(Some(i + 1), terms[i]) in CollisionsOf(terms, collides)
  {
    var n := |terms| - 1;
    var init := terms[..n];
    var p := CollisionsOf(init, collides);
    var r := CollisionsOf(terms, collides);
    assert forall i :: 0 <= i < n ==> init[i] == terms[i];
    if collides(terms[n]) {
      assert r == p + [Suggestion(Some(n + 1), terms[n])];
      forall k | 0 <= k < |p|
        ensures p[k].pos.value < n + 1
      {
        assert CollisionIn(init, collides, p[k]);
      }
    } else {
      assert r == p;
    }
  }

  /** `s` is a colliding term of `terms` with its 1-based position. */
  ghost predicate CollisionIn(terms: seq<string>, collides: Test, s: Suggestion)
  {
    && s.pos.Some? && 1 <= s.pos.value <= |terms|
    && s.term == terms[s.pos.value - 1]
    && collides(s.term)
  }

  lemma CollisionsSnoc(terms: seq<string>, i: nat, collides: Test)
    requires i < |terms|
    ensures CollisionsOf(terms[..i + 1], collides) ==
      if collides(terms[i])
      then CollisionsOf(terms[..i], collides) + [Suggestion(Some(i + 1), terms[i])]
      else CollisionsOf(terms[..i], collides)
  {
    assert terms[..i + 1][..i] == terms[..i];
  }

  /** The test `_compute_collisions` writes out for one term. */
  method CollidesTest(ratio: Matcher.Ratio, normIn: string, compactIn: string, title: string, t: string, threshold: real)
    returns (b: bool)
    requires normIn == Norm(title) && compactIn == Matcher.Compact(title)
    ensures b == CollidesWith(ratio, title, threshold)(t)
  {
    var normT := Norm(t);
    if normT == normIn {
      return false;
    }
    var compactT := RemoveChar(normT, ' ');
    assert compactT == Matcher.Compact(t);
    b := Contains(compactT, compactIn) || Contains(compactIn, compactT) || ratio(normT, normIn) >= threshold;
  }

  /** `_compute_collisions` */
  method ComputeCollisions(ratio: Matcher.Ratio, title: string, terms: seq<string>, threshold: real)
    returns (out: seq<Suggestion>)
    ensures out == CollisionsOf(terms, CollidesWith(ratio, title, threshold))
  {
    var normIn := Norm(title);
    var compactIn := RemoveChar(normIn, ' ');
    assert compactIn == Matcher.Compact(title);
    out := [];
    for i := 0 to |terms|
      invariant out == CollisionsOf(terms[..i], CollidesWith(ratio, title, threshold))
    {
      var t := terms[i];
      CollisionsSnoc(terms, i, CollidesWith(ratio, title, threshold));
      var hit := CollidesTest(ratio, normIn, compactIn, title, t, threshold);
      if hit {
        out := out + [Suggestion(Some(i + 1), t)];
      }
    }
    assert terms[..|terms|] == terms;
  }

  /** A term the test rejects is never listed. */
  lemma NotCollidingNotListed(terms: seq<string>, collides: Test, i: nat)
    requires i < |terms| && !collides(terms[i])
    ensures forall k :: 0 <= k < |CollisionsOf(terms, collides)| ==> CollisionsOf(terms, collides)[k].pos != Some(i + 1)
  {
  }

  /** A term with the title's own normal form is the title itself, never a collision. */
  lemma ExactDuplicateNeverCollides(ratio: Matcher.Ratio, title: string, terms: seq<string>, threshold: real, i: nat)
    requires i < |terms| && Norm(terms[i]) == Norm(title)
    ensures forall k :: 0 <= k < |CollisionsOf(terms, CollidesWith(ratio, title, threshold))| ==>
      CollisionsOf(terms, CollidesWith(ratio, title, threshold))[k].pos != Some(i + 1)
  {
    assert !CollidesWith(ratio, title, threshold)(terms[i]);
    NotCollidingNotListed(terms, CollidesWith(ratio, title, threshold), i);
  }

  /**
   * A title with no letters or digits has an empty compact form, which every
   * string contains: it collides with every term that has a nonempty normal form.
   */
  lemma EmptyTitleCollidesWithAll(ratio: Matcher.Ratio, title: string, t: string, threshold: real)
    requires Tokens(title) == [] && Tokens(t) != []
    ensures Collides(ratio, title, t, threshold)
  {
    NormShape(title);
    NormShape(t);
    assert Matcher.Compact(title) == [] by {
      assert Norm(title) == [];
    }
    assert Contains(Matcher.Compact(t), Matcher.Compact(title));
    assert Matcher.CompactOverlap(title, t);
  }

  /**
   * A title that lower-cases to one word `a + b`: the term `a + b` is the
   * title itself, and the term `a + " " + b` collides through the compact forms.
   */
  lemma GluedSkippedSpacedCollides(ratio: Matcher.Ratio, x: string, a: string, b: string, threshold: real)
    requires IsRun(a, LowerAlnum) && IsRun(b, LowerAlnum) && Lower(x) == a + b
    ensures !Collides(ratio, x, a + b, threshold)
    ensures Collides(ratio, x, a + " " + b, threshold)
  {
    var ab, spaced := a + b, a + " " + b;
    GluedNormalForms(x, a, b);
    GluedCompactForms(x, a, b);
    assert Norm(spaced) != Norm(x) by {
      assert |spaced| == |ab| + 1;
    }
    ContainsSelf(ab);
    assert Matcher.CompactOverlap(x, spaced);
  }

  lemma GluedNormalForms(x: string, a: string, b: string)
    requires IsRun(a, LowerAlnum) && IsRun(b, LowerAlnum) && Lower(x) == a + b
    ensures Norm(x) == a + b && Norm(a + b) == a + b && Norm(a + " " + b) == a + " " + b
  {
    var ab := a + b;
    assert IsRun(ab, LowerAlnum);
    WordsOfRun(ab, LowerAlnum);
    assert Tokens(x) == [ab];
    NormIsJoinedTokens(x);
    assert Join([ab], ' ') == ab;
    NormOfJoinedRuns([ab]);
    SpacedNorm(a, b);
  }

  lemma SpacedNorm(a: string, b: string)
    requires IsRun(a, LowerAlnum) && IsRun(b, LowerAlnum)
    ensures Norm(a + " " + b) == a + " " + b
  {
    JoinCons(a, [b], ' ');
    assert Join([b], ' ') == b;
    assert Join([a, b], ' ') == a + " " + b;
    assert AllRuns([a, b], LowerAlnum);
    NormOfJoinedRuns([a, b]);
  }

  lemma GluedCompactForms(x: string, a: string, b: string)
    requires IsRun(a, LowerAlnum) && IsRun(b, LowerAlnum)
    requires Norm(x) == a + b && Norm(a + " " + b) == a + " " + b
    ensures Matcher.Compact(x) == a + b && Matcher.Compact(a + " " + b) == a + b
  {
    var ab := a + b;
    assert forall i :: 0 <= i < |a| ==> a[i] != ' ';
    assert forall i :: 0 <= i < |b| ==> b[i] != ' ';
    assert forall i :: 0 <= i < |ab| ==> ab[i] != ' ';
    RemoveCharGlue(a, b, ' ');
    assert a + [' '] + b == a + " " + b;
    RemoveCharAbsent(ab, ' ');
    assert Matcher.Compact(x) == RemoveChar(ab, ' ');
    assert Matcher.Compact(a + " " + b) == RemoveChar(a + [' '] + b, ' ');
  }

  /** A compact-form overlap with a term of another normal form is a collision at every threshold. */
  lemma CompactOverlapCollides(ratio: Matcher.Ratio, title: string, terms: seq<string>, threshold: real, i: nat)
    requires i < |terms| && Norm(terms[i]) != Norm(title) && Matcher.CompactOverlap(title, terms[i])
    ensures Suggestion(Some(i + 1), terms[i]) in CollisionsOf(terms, CollidesWith(ratio, title, threshold))
  {
    assert CollidesWith(ratio, title, threshold)(terms[i]);
    CollisionsOfMeaning(terms, CollidesWith(ratio, title, threshold));
  }

  // ---------------------------------------------------------------------
  // Assembling a result
  // ---------------------------------------------------------------------

  /** `[Suggestion(pos=i + 1, term=t) for i, t in enumerate(terms)]` */
  function SuggestionsOf(terms: seq<string>): (r: seq<Suggestion>)
    ensures |r| == |terms|
    ensures forall i :: 0 <= i < |terms| ==> r[i] == Suggestion(Some(i + 1), terms[i])
  {
    seq(|terms|, i requires 0 <= i < |terms| => Suggestion(Some(i + 1), terms[i]))
  }

  function Assemble(provider: Provider, title: string, country: Option<string>, hl: Option<string>, gl: Option<string>,
                    threshold: real, terms: seq<string>, collisions: seq<Suggestion>, playUrl: Option<string>): TitleCheckResult
  {
    TitleCheckResult(provider, title, country, hl, gl, threshold, SuggestionsOf(terms), collisions, |collisions| == 0, playUrl)
  }

  /**
   * A result built from `terms` lists every term with its rank, and is unique
   * enough exactly when none of them collides with the title.
   */
  lemma AssembledMeaning(title: string, terms: seq<string>, threshold: real, collides: Test,
                         provider: Provider, country: Option<string>, hl: Option<string>, gl: Option<string>, playUrl: Option<string>)
    ensures var r := Assemble(provider, title, country, hl, gl, threshold, terms, CollisionsOf(terms, collides), playUrl);
      && |r.suggestions| == |terms|
      && (forall i :: 0 <= i < |terms| ==> r.suggestions[i] == Suggestion(Some(i + 1), terms[i]))
      && (forall k :: 0 <= k < |r.collisions| ==> r.collisions[k] in r.suggestions)
      && (r.uniqueEnough <==> forall i :: 0 <= i < |terms| ==> !collides(terms[i]))
  {
    CollisionsAreSuggestions(terms, collides);
    NoCollisions(terms, collides);
  }

  lemma CollisionsAreSuggestions(terms: seq<string>, collides: Test)
    ensures var c := CollisionsOf(terms, collides); forall k :: 0 <= k < |c| ==> c[k] in SuggestionsOf(terms)
  {
    var c := CollisionsOf(terms, collides);
    var s := SuggestionsOf(terms);
    forall k | 0 <= k < |c|
      ensures c[k] in s
    {
      var p := c[k].pos.value - 1;
      assert c[k] == Suggestion(Some(p + 1), terms[p]);
      assert s[p] == c[k];
    }
  }

  lemma NoCollisions(terms: seq<string>, collides: Test)
    ensures |CollisionsOf(terms, collides)| == 0 <==> forall i :: 0 <= i < |terms| ==> !collides(terms[i])
  {
    var c := CollisionsOf(terms, collides);
    CollisionsOfMeaning(terms, collides);
    if |c| > 0 {
      assert collides(terms[c[0].pos.value - 1]);
    }
  }

  // ---------------------------------------------------------------------
  // AppFollow
  // ---------------------------------------------------------------------

  /**
   * `GET https://api.appfollow.io/api/v2/aso/suggests` with the API token,
   * `term` and `country`: a transport error, or the status and the decoded
   * body (a body that is not JSON is an error message).
   */
  type AppFollowApi = (string, string, string) -> Result<(int, Result<Json.Json, string>), string>

  /**
   * The suggestion term of one item: a dict's `displayTerm or term`, kept when
   * it is a nonempty string.
   */
  function TermOf(it: Json.Json): (r: Option<string>)
    ensures r.Some? ==> r.value != []
  {
    if !it.JObj? then None
    else
      var v := Json.Or(Json.Get(it.fields, "displayTerm"), Json.Get(it.fields, "term"));
      if v.JStr? && v.s != [] then Some(v.s) else None
  }

  /** `displayTerm` wins whenever it is truthy, even when it is not a string. */
  lemma TermOfPrecedence(it: Json.Json)
    requires it.JObj?
    ensures var d, t := Json.Get(it.fields, "displayTerm"), Json.Get(it.fields, "term");
      && (d.JStr? && d.s != [] ==> TermOf(it) == Some(d.s))
      && (Json.Truthy(d) && !d.JStr? ==> TermOf(it) == None)
      && (!Json.Truthy(d) ==> TermOf(it) == (if t.JStr? && t.s != [] then Some(t.s) else None))
  {
  }

  /** Some item of `items` has the term `s`. */
  ghost predicate TermFrom(items: seq<Json.Json>, s: string)
  {
    exists i :: 0 <= i < |items| && TermOf(items[i]) == Some(s)
  }

  /** The terms of the items, in order, skipping items without one. */
  function TermsOf(items: seq<Json.Json>): (r: seq<string>)
    ensures |r| <= |items|
    ensures forall k :: 0 <= k < |r| ==> r[k] != [] && TermFrom(items, r[k])
  {
    if items == [] then []
    else
      var last := |items| - 1;
      var init := items[..last];
      var prev := TermsOf(init);
      var t := TermOf(items[last]);
      assert forall i :: 0 <= i < |init| ==> init[i] == items[i];
      assert forall k :: 0 <= k < |prev| ==> TermFrom(items, prev[k]);
      if t.Some? then
        assert TermFrom(items, t.value) by {
          assert TermOf(items[last]) == Some(t.value);
        }
        prev + [t.value]
      else prev
  }

  /** Every item with a term contributes it. */
  lemma {:induction false} TermsOfComplete(items: seq<Json.Json>)
    ensures forall i :: 0 <= i < |items| && TermOf(items[i]).Some? ==> TermOf(items[i]).value in TermsOf(items)
    decreases |items|
  {
    if items != [] {
      var last := |items| - 1;
      var init := items[..last];
      TermsOfComplete(init);
      var prev := TermsOf(init);
      var r := TermsOf(items);
      var t := TermOf(items[last]);
      assert r == if t.Some? then prev + [t.value] else prev;
      forall i | 0 <= i < |items| && TermOf(items[i]).Some?
        ensures TermOf(items[i]).value in r
      {
        if i < last {
          assert init[i] == items[i];
          var k :| 0 <= k < |prev| && prev[k] == TermOf(items[i]).value;
          assert r[k] == prev[k];
        } else {
          assert r[|r| - 1] == t.value;
        }
      }
    }
  }

  /** The `for it in data` loop that collects the terms. */
  method ExtractTerms(items: seq<Json.Json>) returns (terms: seq<string>)
    ensures terms == TermsOf(items)
  {
    terms := [];
    for i := 0 to |items|
      invariant terms == TermsOf(items[..i])
    {
      assert items[..i + 1][..i] == items[..i];
      var it := items[i];
      if it.JObj? {
        var v := Json.Or(Json.Get(it.fields, "displayTerm"), Json.Get(it.fields, "term"));
        if v.JStr? && v.s != [] {
          terms := terms + [v.s];
        }
      }
    }
    assert items[..|items|] == items;
  }

  /** `api_key or os.getenv("APPFOLLOW_API_KEY")`, when truthy. */
  function Token(apiKey: Option<string>, envKey: Option<string>): (r: Option<string>)
    ensures r.Some? <==> (apiKey.Some? && apiKey.value != []) || (envKey.Some? && envKey.value != [])
    ensures r.Some? ==> r.value != []
    ensures apiKey.Some? && apiKey.value != [] ==> r == apiKey
  {
    if apiKey.Some? && apiKey.value != [] then apiKey
    else if envKey.Some? && envKey.value != [] then envKey
    else None
  }

  /** `requests`' `raise_for_status`: a 4xx or 5xx status. */
  predicate IsHttpError(status: int)
  {
    400 <= status < 600
  }

  /** What `check_title_appfollow` returns or raises. */
  function AppFollowOutcome(ratio: Matcher.Ratio, title: string, country: string, threshold: real,
                            apiKey: Option<string>, envKey: Option<string>, api: AppFollowApi): Result<TitleCheckResult, string>
  {
    var token := Token(apiKey, envKey);
    if token.None? then Failure("APPFOLLOW_API_KEY not set")
    else
      match api(token.value, title, Lower(country))
      case Failure(e) => Failure(e)
      case Success(resp) => AppFollowAnswer(ratio, title, country, threshold, resp)
  }

  /** How an AppFollow HTTP answer (status, decoded body) becomes a result or an error. */
  function AppFollowAnswer(ratio: Matcher.Ratio, title: string, country: string, threshold: real,
                           resp: (int, Result<Json.Json, string>)): Result<TitleCheckResult, string>
  {
    var status := resp.0;
    if status == 401 || status == 403 then Failure("AppFollow unauthorized/forbidden: check API key and access")
    else if IsHttpError(status) then Failure("AppFollow error: " + IntToString(status))
    else
      match resp.1
      case Failure(e) => Failure(e)
      case Success(data) =>
        match Json.Iterate(data)
        case Failure(e) => Failure(e)
        case Success(items) => Success(AppFollowAssembled(ratio, title, country, threshold, TermsOf(items)))
  }

  /** `check_title_appfollow` */
  method CheckTitleAppFollow(ratio: Matcher.Ratio, title: string, country: string, threshold: real,
                             apiKey: Option<string>, envKey: Option<string>, api: AppFollowApi)
    returns (r: Result<TitleCheckResult, string>)
    ensures r == AppFollowOutcome(ratio, title, country, threshold, apiKey, envKey, api)
  {
    var token := Token(apiKey, envKey);
    if token.None? {
      return Failure("APPFOLLOW_API_KEY not set");
    }
    var resp := api(token.value, title, Lower(country));
    if resp.Failure? {
      return Failure(resp.error);
    }
    r := ReadAppFollowAnswer(ratio, title, country, threshold, resp.value);
  }

  /** The status checks and term extraction of `check_title_appfollow`. */
  method ReadAppFollowAnswer(ratio: Matcher.Ratio, title: string, country: string, threshold: real,
                             resp: (int, Result<Json.Json, string>))
    returns (r: Result<TitleCheckResult, string>)
    ensures r == AppFollowAnswer(ratio, title, country, threshold, resp)
  {
    var status := resp.0;
    if status == 401 || status == 403 {
      return Failure("AppFollow unauthorized/forbidden: check API key and access");
    }
    if IsHttpError(status) {
      return Failure("AppFollow error: " + IntToString(status));
    }
    if resp.1.Failure? {
      return Failure(resp.1.error);
    }
    var items := Json.Iterate(resp.1.value);
    if items.Failure? {
      return Failure(items.error);
    }
    var terms := ExtractTerms(items.value);
    var collisions := ComputeCollisions(ratio, title, terms, threshold);
    r := Success(Assemble(AppFollow, title, Some(country), None, None, threshold, terms, collisions, None));
  }

  /**
   * The AppFollow check fails without a token and on 401, 403 and any other
   * 4xx/5xx status; a success answers for the requested title and country,
   * ranks the terms from 1 and is unique enough exactly when no term collides.
   */
  lemma AppFollowOutcomeMeaning(ratio: Matcher.Ratio, title: string, country: string, threshold: real,
                                apiKey: Option<string>, envKey: Option<string>, api: AppFollowApi)
    ensures var r := AppFollowOutcome(ratio, title, country, threshold, apiKey, envKey, api);
      var token := Token(apiKey, envKey);
      && (token.None? ==> r == Failure("APPFOLLOW_API_KEY not set"))
      && (token.Some? && api(token.value, title, Lower(country)).Success? ==>
            var status := api(token.value, title, Lower(country)).value.0;
            && (status == 401 || status == 403 ==> r == Failure("AppFollow unauthorized/forbidden: check API key and access"))
            && (IsHttpError(status) ==> r.Failure?))
      && (r.Success? ==>
            && token.Some?
            && r.value.provider == AppFollow && r.value.title == title
            && r.value.country == Some(country) && r.value.hl == None && r.value.gl == None
            && r.value.playUrl == None
            && (forall i :: 0 <= i < |r.value.suggestions| ==> r.value.suggestions[i].pos == Some(i + 1))
            && (r.value.uniqueEnough <==>
                  forall i :: 0 <= i < |r.value.suggestions| ==> !Collides(ratio, title, r.value.suggestions[i].term, threshold)))
  {
    var r := AppFollowOutcome(ratio, title, country, threshold, apiKey, envKey, api);
    if r.Success? {
      AppFollowSuccess(ratio, title, country, threshold, apiKey, envKey, api);
    }
  }

  lemma AppFollowSuccess(ratio: Matcher.Ratio, title: string, country: string, threshold: real,
                         apiKey: Option<string>, envKey: Option<string>, api: AppFollowApi)
    requires AppFollowOutcome(ratio, title, country, threshold, apiKey, envKey, api).Success?
    ensures var r := AppFollowOutcome(ratio, title, country, threshold, apiKey, envKey, api).value;
      && Token(apiKey, envKey).Some?
      && r.provider == AppFollow && r.title == title
      && r.country == Some(country) && r.hl == None && r.gl == None && r.playUrl == None
      && (forall i :: 0 <= i < |r.suggestions| ==> r.suggestions[i].pos == Some(i + 1))
      && (r.uniqueEnough <==> forall i :: 0 <= i < |r.suggestions| ==> !Collides(ratio, title, r.suggestions[i].term, threshold))
  {
    var out := AppFollowOutcome(ratio, title, country, threshold, apiKey, envKey, api);
    var token := Token(apiKey, envKey);
    assert token.Some?;
    var call := api(token.value, title, Lower(country));
    assert call.Success?;
    var resp := call.value;
    assert !(resp.0 == 401 || resp.0 == 403) && !IsHttpError(resp.0);
    assert resp.1.Success?;
    var parsed := Json.Iterate(resp.1.value);
    assert parsed.Success?;
    var items := parsed.value;
    var terms := TermsOf(items);
    assert out.value == AppFollowAssembled(ratio, title, country, threshold, terms);
    AppFollowAssembledMeaning(ratio, title, country, threshold, terms);
  }

  /** The result of a successful AppFollow call over `terms`. */
  function AppFollowAssembled(ratio: Matcher.Ratio, title: string, country: string, threshold: real, terms: seq<string>)
    : TitleCheckResult
  {
    Assemble(AppFollow, title, Some(country), None, None, threshold, terms,
             CollisionsOf(terms, CollidesWith(ratio, title, threshold)), None)
  }

  lemma AppFollowAssembledMeaning(ratio: Matcher.Ratio, title: string, country: string, threshold: real, terms: seq<string>)
    ensures var r := AppFollowAssembled(ratio, title, country, threshold, terms);
      && r.provider == AppFollow && r.title == title
      && r.country == Some(country) && r.hl == None && r.gl == None && r.playUrl == None
      && (forall i :: 0 <= i < |r.suggestions| ==> r.suggestions[i].pos == Some(i + 1))
      && (r.uniqueEnough <==> forall i :: 0 <= i < |r.suggestions| ==> !Collides(ratio, title, r.suggestions[i].term, threshold))
  {
    var c := CollisionsOf(terms, CollidesWith(ratio, title, threshold));
    AssembledFields(AppFollow, title, Some(country), None, None, threshold, terms, c, None);
    UniqueEnoughWith(ratio, title, threshold, terms);
  }

  /** What `Assemble` records, with the suggestions numbered from 1. */
  lemma AssembledFields(provider: Provider, title: string, country: Option<string>, hl: Option<string>, gl: Option<string>,
                        threshold: real, terms: seq<string>, collisions: seq<Suggestion>, playUrl: Option<string>)
    ensures var r := Assemble(provider, title, country, hl, gl, threshold, terms, collisions, playUrl);
      && r.provider == provider && r.title == title && r.country == country && r.hl == hl && r.gl == gl
      && r.playUrl == playUrl && r.threshold == threshold && r.collisions == collisions
      && (r.uniqueEnough <==> collisions == [])
      && |r.suggestions| == |terms|
      && (forall i :: 0 <= i < |terms| ==> r.suggestions[i].pos == Some(i + 1) && r.suggestions[i].term == terms[i])
  {
  }

  /** No term collides exactly when the collision list of `CollidesWith` is empty. */
  lemma UniqueEnoughWith(ratio: Matcher.Ratio, title: string, threshold: real, terms: seq<string>)
    ensures |CollisionsOf(terms, CollidesWith(ratio, title, threshold))| == 0
      <==> forall i :: 0 <= i < |terms| ==> !Collides(ratio, title, terms[i], threshold)
  {
    var collides := CollidesWith(ratio, title, threshold);
    NoCollisions(terms, collides);
    forall i | 0 <= i < |terms|
      ensures collides(terms[i]) == Collides(ratio, title, terms[i], threshold)
    {
      CollidesWithApplies(ratio, title, threshold, terms[i]);
    }
  }

  lemma CollidesWithApplies(ratio: Matcher.Ratio, title: string, threshold: real, t: string)
    ensures CollidesWith(ratio, title, threshold)(t) == Collides(ratio, title, t, threshold)
  {
  }

  // ---------------------------------------------------------------------
  // Play Store
  // ---------------------------------------------------------------------

  /** `GET url`: a transport error, or the status and the `aria-label` values of the page. */
  type PlayApi = string -> Result<(int, seq<string>), string>

  const PlaySearch: string := "https://play.google.com/store/search?q="

  /** The search URL: the quoted title, apps only, interface language and country. */
  function PlayUrl(title: string, hl: string, gl: string): string
  {
    PlaySearch + UrlQuote.Quote("\"" + title + "\"") + "&c=apps&hl=" + hl + "&gl=" + gl
  }

  /**
   * The title reaches the URL wrapped in `%22` and percent-escaped, so it
   * cannot add or change a query parameter.
   */
  lemma PlayUrlShape(title: string, hl: string, gl: string)
    ensures PlayUrl(title, hl, gl) == PlaySearch + "%22" + UrlQuote.Quote(title) + "%22" + "&c=apps&hl=" + hl + "&gl=" + gl
    ensures forall i :: 0 <= i < |UrlQuote.Quote(title)| ==>
      UrlQuote.Quote(title)[i] !in {'&', '=', '#', '?', '"', ' '}
  {
    var q := UrlQuote.Quote(title);
    UrlQuote.QuoteQuoted(title);
    ConcatAssoc(PlaySearch, "%22" + q, "%22");
    ConcatAssoc(PlaySearch, "%22", q);
    assert PlaySearch + UrlQuote.Quote("\"" + title + "\"") == PlaySearch + "%22" + q + "%22";
    UrlQuote.UnquoteQuote(title);
    UrlQuote.QuotedHasNoDelimiters(q);
  }

  /** `min(a, b)` */
  function Min(a: int, b: int): int
  {
    if a <= b then a else b
  }

  /** What `check_title_playstore` returns or raises. */
  function PlayOutcome(ratio: Matcher.Ratio, title: string, hl: string, gl: string, threshold: real, api: PlayApi)
    : Result<TitleCheckResult, string>
  {
    var url := PlayUrl(title, hl, gl);
    match api(url)
    case Failure(e) => Failure(e)
    case Success(resp) =>
      if resp.0 != 200 then Failure("Play search error: HTTP " + IntToString(resp.0))
      else
        var terms := KeptLabels(resp.1);
        Success(Assemble(PlayStore, title, None, Some(hl), Some(gl), threshold, terms,
                         CollisionsOf(terms, CollidesWith(ratio, title, threshold)), Some(url)))
  }

  /** The `seen` loop: labels in page order, each kept at its first occurrence. */
  method Dedupe(labels: seq<string>) returns (uniq: seq<string>)
    ensures uniq == Seqs.Distinct(labels)
  {
    var seen: set<string> := {};
    uniq := [];
    for i := 0 to |labels|
      invariant uniq == Seqs.Distinct(labels[..i])
      invariant forall x :: x in seen <==> x in uniq
    {
      uniq, seen := DedupeStep(labels, i, uniq, seen);
    }
    assert labels[..|labels|] == labels;
  }

  /** One turn of the `seen` loop. */
  method DedupeStep(labels: seq<string>, i: nat, uniq: seq<string>, seen: set<string>)
    returns (uniq': seq<string>, seen': set<string>)
    requires i < |labels| && uniq == Seqs.Distinct(labels[..i])
    requires forall x :: x in seen <==> x in uniq
    ensures uniq' == Seqs.Distinct(labels[..i + 1])
    ensures forall x :: x in seen' <==> x in uniq'
  {
    var lab := labels[i];
    assert labels[..i + 1] == labels[..i] + [lab];
    Seqs.DistinctStep(labels[..i], lab);
    if lab !in seen {
      uniq', seen' := uniq + [lab], seen + {lab};
    } else {
      uniq', seen' := uniq, seen;
    }
  }

  /** `check_title_playstore` */
  method CheckTitlePlayStore(ratio: Matcher.Ratio, title: string, hl: string, gl: string, threshold: real, api: PlayApi)
    returns (r: Result<TitleCheckResult, string>)
    ensures r == PlayOutcome(ratio, title, hl, gl, threshold, api)
  {
    var url := PlayUrl(title, hl, gl);
    var resp := api(url);
    if resp.Failure? {
      return Failure(resp.error);
    }
    if resp.value.0 != 200 {
      return Failure("Play search error: HTTP " + IntToString(resp.value.0));
    }
    var uniq := Dedupe(resp.value.1);
    var terms := uniq[..Min(100, |uniq|)];
    var collisions := ComputeCollisions(ratio, title, terms, threshold);
    r := Success(Assemble(PlayStore, title, None, Some(hl), Some(gl), threshold, terms, collisions, Some(url)));
  }

  /** `uniq_labels[:100]` */
  function KeptLabels(labels: seq<string>): seq<string>
  {
    var uniq := Seqs.Distinct(labels);
    uniq[..Min(100, |uniq|)]
  }

  /**
   * The kept labels are at most 100 distinct labels of the page, in page
   * order of first occurrence, and all of them when the page has at most 100.
   */
  lemma KeptLabelsMeaning(labels: seq<string>)
    ensures |KeptLabels(labels)| <= 100
    ensures Seqs.NoDuplicates(KeptLabels(labels))
    ensures KeptLabels(labels) <= Seqs.Distinct(labels)
    ensures forall i :: 0 <= i < |KeptLabels(labels)| ==> KeptLabels(labels)[i] in labels
    ensures |Seqs.Distinct(labels)| <= 100 ==> forall l :: l in labels ==> l in KeptLabels(labels)
  {
    var uniq := Seqs.Distinct(labels);
    Seqs.DistinctElements(labels);
    if |uniq| <= 100 {
      assert KeptLabels(labels) == uniq;
    }
  }

  /**
   * The Play Store check fails on any status but 200; a success records the
   * search URL, ranks the kept labels from 1 and is unique enough exactly when
   * no kept label collides.
   */
  lemma PlayOutcomeMeaning(ratio: Matcher.Ratio, title: string, hl: string, gl: string, threshold: real, api: PlayApi)
    ensures var r := PlayOutcome(ratio, title, hl, gl, threshold, api);
      var resp := api(PlayUrl(title, hl, gl));
      && (resp.Success? && resp.value.0 != 200 ==> r == Failure("Play search error: HTTP " + IntToString(resp.value.0)))
      && (r.Success? ==>
            var kept := KeptLabels(resp.value.1);
            && resp.Success? && resp.value.0 == 200
            && r.value.provider == PlayStore && r.value.title == title && r.value.country == None
            && r.value.hl == Some(hl) && r.value.gl == Some(gl)
            && r.value.playUrl == Some(PlayUrl(title, hl, gl))
            && |r.value.suggestions| == |kept|
            && (forall i :: 0 <= i < |kept| ==> r.value.suggestions[i] == Suggestion(Some(i + 1), kept[i]))
            && (r.value.uniqueEnough <==> forall i :: 0 <= i < |kept| ==> !Collides(ratio, title, kept[i], threshold)))
  {
    var r := PlayOutcome(ratio, title, hl, gl, threshold, api);
    if r.Success? {
      var kept := KeptLabels(api(PlayUrl(title, hl, gl)).value.1);
      AssembledMeaning(title, kept, threshold, CollidesWith(ratio, title, threshold), PlayStore,
                       None, Some(hl), Some(gl), Some(PlayUrl(title, hl, gl)));
    }
  }

  // ---------------------------------------------------------------------
  // check_title
  // ---------------------------------------------------------------------

  /** The request parameters `check_title` passes on to each provider. */
  datatype Query = Query(title: string, country: string, hl: string, gl: string, threshold: real, apiKey: Option<string>)

  /** The outside world of the checks: the key in the environment and the two HTTP services. */
  datatype Io = Io(envKey: Option<string>, appfollow: AppFollowApi, play: PlayApi)

  /** `providers or [Provider.appfollow, Provider.playstore]` */
  function Order(providers: seq<Provider>): (r: seq<Provider>)
    ensures providers != [] ==> r == providers
    ensures providers == [] ==> r == [AppFollow, PlayStore]
  {
    if providers != [] then providers else [AppFollow, PlayStore]
  }

  function ProviderOutcome(p: Provider, ratio: Matcher.Ratio, q: Query, io: Io): Result<TitleCheckResult, string>
  {
    match p
    case AppFollow => AppFollowOutcome(ratio, q.title, q.country, q.threshold, q.apiKey, io.envKey, io.appfollow)
    case PlayStore => PlayOutcome(ratio, q.title, q.hl, q.gl, q.threshold, io.play)
  }

  /** One provider's check, with the query and the outside world fixed. */
  type Runner = Provider -> Result<TitleCheckResult, string>

  function RunnerOf(ratio: Matcher.Ratio, q: Query, io: Io): Runner
  {
    p => ProviderOutcome(p, ratio, q, io)
  }

  /** The providers run in order; the first failure is raised. */
  function AllOutcomes(order: seq<Provider>, run: Runner): Result<seq<TitleCheckResult>, string>
  {
    if order == [] then Success([])
    else
      match AllOutcomes(order[..|order| - 1], run)
      case Failure(e) => Failure(e)
      case Success(rs) =>
        match run(order[|order| - 1])
        case Failure(e) => Failure(e)
        case Success(x) => Success(rs + [x])
  }

  lemma AllOutcomesStep(order: seq<Provider>, i: nat, run: Runner, rs: seq<TitleCheckResult>)
    requires i < |order| && AllOutcomes(order[..i], run) == Success(rs)
    ensures var x := run(order[i]);
      AllOutcomes(order[..i + 1], run) == if x.Failure? then Failure(x.error) else Success(rs + [x.value])
  {
    assert order[..i + 1][..i] == order[..i];
  }

  lemma {:induction false} AllOutcomesFailureSticks(order: seq<Provider>, n: nat, run: Runner)
    requires n <= |order| && AllOutcomes(order[..n], run).Failure?
    ensures AllOutcomes(order, run) == AllOutcomes(order[..n], run)
    decreases |order| - n
  {
    if n < |order| {
      var init := order[..|order| - 1];
      assert init[..n] == order[..n];
      AllOutcomesFailureSticks(init, n, run);
    } else {
      assert order[..n] == order;
    }
  }

  /** `check_title` */
  method CheckTitle(ratio: Matcher.Ratio, q: Query, providers: seq<Provider>, io: Io)
    returns (r: Result<seq<TitleCheckResult>, string>)
    ensures r == AllOutcomes(Order(providers), RunnerOf(ratio, q, io))
  {
    var order := Order(providers);
    var out: seq<TitleCheckResult> := [];
    for i := 0 to |order|
      invariant AllOutcomes(order[..i], RunnerOf(ratio, q, io)) == Success(out)
    {
      var res: Result<TitleCheckResult, string>;
      if order[i] == AppFollow {
        res := CheckTitleAppFollow(ratio, q.title, q.country, q.threshold, q.apiKey, io.envKey, io.appfollow);
      } else {
        res := CheckTitlePlayStore(ratio, q.title, q.hl, q.gl, q.threshold, io.play);
      }
      assert res == RunnerOf(ratio, q, io)(order[i]);
      AllOutcomesStep(order, i, RunnerOf(ratio, q, io), out);
      if res.Failure? {
        AllOutcomesFailureSticks(order, i + 1, RunnerOf(ratio, q, io));
        return Failure(res.error);
      }
      out := out + [res.value];
    }
    assert order[..|order|] == order;
    r := Success(out);
  }

  /**
   * `check_title` returns one result per provider, in the requested order,
   * each that provider's own result; it fails exactly when some provider
   * fails, with the error of the first one that does.
   */
  lemma {:induction false} AllOutcomesMeaning(order: seq<Provider>, run: Runner)
    ensures AllOutcomes(order, run).Success? <==> forall i :: 0 <= i < |order| ==> run(order[i]).Success?
    ensures AllOutcomes(order, run).Success? ==>
      && |AllOutcomes(order, run).value| == |order|
      && forall i :: 0 <= i < |order| ==> AllOutcomes(order, run).value[i] == run(order[i]).value
    ensures AllOutcomes(order, run).Failure? ==>
      exists i :: && 0 <= i < |order|
                  && run(order[i]) == Failure(AllOutcomes(order, run).error)
                  && forall j :: 0 <= j < i ==> run(order[j]).Success?
  {
    if order != [] {
      var init := order[..|order| - 1];
      AllOutcomesMeaning(init, run);
      forall i | 0 <= i < |init|
        ensures init[i] == order[i]
      {
      }
    }
  }

  /** Each result names the provider it came from. */
  lemma OutcomeProvider(p: Provider, ratio: Matcher.Ratio, q: Query, io: Io)
    ensures ProviderOutcome(p, ratio, q, io).Success? ==> ProviderOutcome(p, ratio, q, io).value.provider == p
  {
  }
}
