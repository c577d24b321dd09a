/**
 * `.com` availability (`domain/domain_check.py`, and its older copy
 * `domain_check.py`, whose code is the same): brand text to DNS label, the
 * RDAP status classification with one retry, the DNS-over-HTTPS `www` probe
 * and the batch helper.
 *
 * Every HTTP exchange is an input. `rdap(url, attempt)` is the status code of
 * the `attempt`-th request to `url` (0 or 1), or the exception it raised;
 * `doh(url)` is the decoded body of the response, or the exception that the
 * request or the JSON decoding raised.
 */
module DomainCheck {
  import opened Wrappers
  import opened Text
  import Json
  import opened Dicts
  import Seqs

  const RdapCom: string := "https://rdap.verisign.com/com/v1/domain/"

  /** `Source` */
  datatype Source = RdapVerisign | DohGoogle | DohCloudflare | Unknown

  /** `DomainAvailability` */
  datatype DomainAvailability = DomainAvailability(
    domain: string,
    available: Option<bool>,   // true = free, false = registered, None = unknown
    rdapStatus: Option<int>,
    authoritative: bool,
    source: Source,
    note: Option<string>
  )

  /** `DomainAvailability._validate_domain` */
  function ValidateDomain(v: string): (r: Result<string, string>)
    ensures r.Success? <==> |v| > 0 && exists i :: 0 <= i < |v| && v[i] == '.'
    ensures r.Success? ==> r.value == v
  {
    if v == [] || '.' !in v then Failure("ValueError: domain must include a TLD, e.g., brand-name.com")
    else Success(v)
  }

  /** Constructing a `DomainAvailability`: the validator runs on `domain`. */
  function NewAvailability(domain: string, available: Option<bool>, rdapStatus: Option<int>,
                           authoritative: bool, source: Source, note: Option<string>)
    : (r: Result<DomainAvailability, string>)
    ensures r.Success? <==> ValidateDomain(domain).Success?
    ensures r.Success? ==> r.value == DomainAvailability(domain, available, rdapStatus, authoritative, source, note)
  {
    match ValidateDomain(domain)
    case Failure(e) => Failure(e)
    case Success(d) => Success(DomainAvailability(d, available, rdapStatus, authoritative, source, note))
  }

  // ---------------------------------------------------------------------
  // normalize_brand_label
  // ---------------------------------------------------------------------

  /**
   * `normalize_brand_label`: strip, lower-case, every run outside
   * `[A-Za-z0-9-]` becomes '-', hyphen runs collapse, edge hyphens go.
   * What remains is the input's ASCII letters and digits, lower-cased, in
   * runs joined by single hyphens; so it is ASCII and the IDNA fallback of
   * the source never applies.
   */
  function NormalizeBrandLabel(lbl: string): (r: Result<string, string>)
    ensures r.Failure? <==> Tokens(lbl) == []
    ensures r.Success? ==> r.value == Join(Tokens(lbl), '-')
  {
    var s := LabelPipeline(lbl);
    LabelPipelineIsJoin(lbl);
    if s == [] then Failure("DomainCheckError: empty label after normalization")
    else Success(s)
  }

  /** The substitutions and strips of `normalize_brand_label`, in the source's order. */
  function LabelPipeline(lbl: string): string
  {
    var s1 := SubRuns(Lower(Strip(lbl, Whitespace)), AlnumOrHyphen, '-');
    Strip(SubRuns(s1, NotHyphen, '-'), Only('-'))
  }

  /** The label pipeline equals the lower-case alphanumeric words joined by hyphens. */
  lemma LabelPipelineIsJoin(lbl: string)
    ensures LabelPipeline(lbl) == Join(Tokens(lbl), '-')
    ensures Join(Tokens(lbl), '-') == [] <==> Tokens(lbl) == []
  {
    var l := Lower(Strip(lbl, Whitespace));
    var s1 := SubRuns(l, AlnumOrHyphen, '-');
    StripSubRunsIsJoin(s1, NotHyphen, Only('-'), '-');
    HyphenWordsAreTokens(lbl);
    if Tokens(lbl) != [] {
      TokensAreRuns(lbl);
      JoinOfRunsStartsKept(Tokens(lbl), LowerAlnum, '-');
    }
  }

  /**
   * A normalised label is lower-case letters and digits in runs joined by
   * single hyphens, with no hyphen at either end; it is ASCII, so the IDNA
   * fallback of the source never applies.
   */
  lemma NormalizedLabelShape(lbl: string)
    requires NormalizeBrandLabel(lbl).Success?
    ensures IsJoinForm(NormalizeBrandLabel(lbl).value, '-')
    ensures forall i :: 0 <= i < |NormalizeBrandLabel(lbl).value| ==> NormalizeBrandLabel(lbl).value[i] as int < 128
  {
    var r := Join(Tokens(lbl), '-');
    assert NormalizeBrandLabel(lbl).value == r;
    TokensAreRuns(lbl);
    JoinOfAlnumRuns(Tokens(lbl), '-');
    JoinFormIsAscii(r, '-');
  }

  lemma JoinFormIsAscii(r: string, sep: char)
    requires IsJoinForm(r, sep) && sep as int < 128
    ensures forall i :: 0 <= i < |r| ==> r[i] as int < 128
  {
  }

  /** The hyphen-separated words after the first substitution are the tokens of the label. */
  lemma HyphenWordsAreTokens(lbl: string)
    ensures Words(SubRuns(Lower(Strip(lbl, Whitespace)), AlnumOrHyphen, '-'), NotHyphen) == Tokens(lbl)
  {
    var l := Lower(Strip(lbl, Whitespace));
    assert forall i :: 0 <= i < |l| ==> !IsAsciiUpper(l[i]);
    HyphenWordsAreAlnumWords(l);
    LowerAlnumWithinAlnumOrHyphen();
    WordsOfSubRuns(l, AlnumOrHyphen, LowerAlnum, '-');
    TokensOfStrip(lbl);
  }

  lemma LowerAlnumWithinAlnumOrHyphen()
    ensures forall c :: Keeps(LowerAlnum, c) ==> Keeps(AlnumOrHyphen, c)
  {
  }

  /** After the first substitution, splitting at hyphens is splitting at non-alphanumerics. */
  lemma HyphenWordsAreAlnumWords(l: string)
    requires forall i :: 0 <= i < |l| ==> !IsAsciiUpper(l[i])
    ensures var s1 := SubRuns(l, AlnumOrHyphen, '-');
      Words(s1, NotHyphen) == Words(s1, LowerAlnum)
  {
    var s1 := SubRuns(l, AlnumOrHyphen, '-');
    SubRunsChars(l, AlnumOrHyphen, '-');
    forall i | 0 <= i < |s1|
      ensures Keeps(NotHyphen, s1[i]) <==> Keeps(LowerAlnum, s1[i])
    {
      if s1[i] != '-' {
        assert s1[i] in l;
      }
    }
    WordsSameClass(s1, NotHyphen, LowerAlnum);
  }

  /** A label is already normal: normalising it again gives it back. */
  lemma NormalizeBrandLabelIdempotent(lbl: string)
    requires NormalizeBrandLabel(lbl).Success?
    ensures NormalizeBrandLabel(NormalizeBrandLabel(lbl).value) == NormalizeBrandLabel(lbl)
  {
    var ws := Tokens(lbl);
    var x := Join(ws, '-');
    TokensAreRuns(lbl);
    assert Tokens(x) == ws by {
      JoinOfAlnumRuns(ws, '-');
      LowerOfLowerAlnum(x);
      WordsOfJoin(ws, LowerAlnum, '-');
    }
  }

  /** The label and the title normal form have the same words: only the separator differs. */
  lemma LabelWordsAreTitleWords(lbl: string)
    requires NormalizeBrandLabel(lbl).Success?
    ensures Words(NormalizeBrandLabel(lbl).value, LowerAlnum) == Words(Norm(lbl), LowerAlnum)
  {
    TokensAreRuns(lbl);
    WordsOfJoin(Tokens(lbl), LowerAlnum, '-');
    WordsOfJoin(Tokens(lbl), LowerAlnum, ' ');
    NormIsJoinedTokens(lbl);
  }

  /** The test case "Brand Name". */
  lemma BrandNameExample()
    ensures NormalizeBrandLabel("Brand Name") == Success("brand-name")
  {
    var x, y, a, b := "Brand", "Name", "brand", "name";
    assert a + "-" + b == "brand-name";
    assert x + " " + y == "Brand Name";
    assert Lower(x) == a && Lower(y) == b;
    assert IsRun(a, LowerAlnum) && IsRun(b, LowerAlnum);
    TwoWords(x, y, a, b);
  }

  /** Two words separated by a space, each lower-casing to a run of letters and digits. */
  lemma TwoWords(x: string, y: string, a: string, b: string)
    requires IsRun(a, LowerAlnum) && IsRun(b, LowerAlnum)
    requires Lower(x) == a && Lower(y) == b
    ensures NormalizeBrandLabel(x + " " + y) == Success(a + "-" + b)
  {
    assert Tokens(x + " " + y) == [a, b] by {
      LowerSpaced(x, y);
      TwoRunsWords(a, b);
    }
    JoinCons(a, [b], '-');
  }

  lemma LowerSpaced(x: string, y: string)
    ensures Lower(x + " " + y) == Lower(x) + " " + Lower(y)
  {
    assert Lower(x + " " + y) == Lower(x + " ") + Lower(y) by {
      LowerAppend(x + " ", y);
    }
    assert Lower(x + " ") == Lower(x) + Lower(" ") by {
      LowerAppend(x, " ");
    }
    assert Lower(" ") == " ";
  }

  lemma TwoRunsWords(a: string, b: string)
    requires IsRun(a, LowerAlnum) && IsRun(b, LowerAlnum)
    ensures Words(a + " " + b, LowerAlnum) == [a, b]
  {
    JoinCons(a, [b], ' ');
    WordsOfJoin([a, b], LowerAlnum, ' ');
  }

  lemma OpenAIExample()
    ensures NormalizeBrandLabel("OpenAI") == Success("openai")
  {
    assert Lower("OpenAI") == "openai";
    WordsOfRun("openai", LowerAlnum);
  }

  lemma EmptyLabelExample()
    ensures NormalizeBrandLabel(" -- ").Failure?
  {
    var s := Lower(" -- ");
    assert s == " -- ";
    WordsDropPrefix(s, [], LowerAlnum);
    assert s + [] == s;
  }

  // ---------------------------------------------------------------------
  // _rdap_check and is_com_available
  // ---------------------------------------------------------------------

  /** `requests.Response.ok`: `raise_for_status` raises for 4xx and 5xx statuses. */
  predicate Ok(status: int)
  {
    !(400 <= status < 600)
  }

  predicate Retryable(status: int)
  {
    status == 429 || status == 500 || status == 502 || status == 503 || status == 504
  }

  /** The result of a response the loop does not retry. */
  function Settle(domain: string, status: int): Result<DomainAvailability, string>
  {
    if status == 404 then NewAvailability(domain, Some(true), Some(404), true, RdapVerisign, None)
    else if Ok(status) then NewAvailability(domain, Some(false), Some(status), true, RdapVerisign, None)
    else NewAvailability(domain, None, Some(status), true, RdapVerisign, Some("transient"))
  }

  /** What `_rdap_check(domain)` returns or raises, as a function of the responses. */
  function RdapOutcome(domain: string, rdap: (string, nat) -> Result<int, string>): Result<DomainAvailability, string>
  {
    var url := RdapCom + domain;
    match rdap(url, 0)
    case Failure(e) => Failure(e)
    case Success(s0) =>
      if s0 != 404 && !Ok(s0) && Retryable(s0) then
        match rdap(url, 1)
        case Failure(e) => Failure(e)
        case Success(s1) => Settle(domain, s1)
      else Settle(domain, s0)
  }

  /** `_rdap_check`: two attempts, the second only after a retryable status. */
  method RdapCheck(domain: string, rdap: (string, nat) -> Result<int, string>)
    returns (r: Result<DomainAvailability, string>)
    ensures r == RdapOutcome(domain, rdap)
  {
    var url := RdapCom + domain;
    for attempt := 0 to 2
      invariant attempt == 0 || (attempt == 1 && rdap(url, 0).Success? && Retryable(rdap(url, 0).value))
    {
      var resp := rdap(url, attempt);
      if resp.Failure? {
        return Failure(resp.error);
      }
      var status := resp.value;
      if status == 404 {
        r := NewAvailability(domain, Some(true), Some(404), true, RdapVerisign, None);
        return;
      }
      if Ok(status) {
        r := NewAvailability(domain, Some(false), Some(status), true, RdapVerisign, None);
        return;
      }
      if Retryable(status) && attempt == 0 {
        continue;
      }
      r := NewAvailability(domain, None, Some(status), true, RdapVerisign, Some("transient"));
      return;
    }
    // `return DomainAvailability(..., note="unreachable")`: the second attempt always returns.
    assert false;
  }

  /** The status of the last request `_rdap_check` makes. */
  function FinalResponse(domain: string, rdap: (string, nat) -> Result<int, string>): Result<int, string>
  {
    var first := rdap(RdapCom + domain, 0);
    if first.Success? && Retryable(first.value) then rdap(RdapCom + domain, 1) else first
  }

  /**
   * The outcome is decided by the last status: 404 means free, any other
   * `ok` status registered, anything else unknown with the note "transient";
   * a raised request error propagates, and the record is authoritative and
   * from Verisign's RDAP service.
   */
  lemma RdapOutcomeMeaning(domain: string, rdap: (string, nat) -> Result<int, string>)
    requires ValidateDomain(domain).Success?
    ensures var r := RdapOutcome(domain, rdap);
      var f := FinalResponse(domain, rdap);
      && (r.Failure? <==> f.Failure?)
      && (r.Success? ==>
        && r.value.domain == domain
        && r.value.rdapStatus == Some(f.value)
        && r.value.authoritative
        && r.value.source == RdapVerisign
        && (r.value.available == Some(true) <==> f.value == 404)
        && (r.value.available == Some(false) <==> f.value != 404 && Ok(f.value))
        && (r.value.available.None? <==> r.value.note == Some("transient")))
  {
    var url := RdapCom + domain;
    var first := rdap(url, 0);
    if first.Success? && Retryable(first.value) {
      assert !Ok(first.value) && first.value != 404;
    }
  }

  /**
   * At most two requests: the outcome depends on the first response, and on
   * the second only when the first status was retryable.
   */
  lemma RdapAtMostTwoRequests(domain: string, rdap: (string, nat) -> Result<int, string>,
                              other: (string, nat) -> Result<int, string>)
    requires other(RdapCom + domain, 0) == rdap(RdapCom + domain, 0)
    requires rdap(RdapCom + domain, 0).Success? && Retryable(rdap(RdapCom + domain, 0).value)
      ==> other(RdapCom + domain, 1) == rdap(RdapCom + domain, 1)
    ensures RdapOutcome(domain, other) == RdapOutcome(domain, rdap)
  {
    var s := rdap(RdapCom + domain, 0);
    if s.Success? && Retryable(s.value) {
      assert !Ok(s.value) && s.value != 404;
    }
  }

  /** A `.com` name always passes the domain validator. */
  lemma ComDomainValid(lbl: string)
    ensures ValidateDomain(lbl + ".com").Success?
  {
    var d := lbl + ".com";
    assert d[|lbl|] == '.';
  }

  /** What `is_com_available(brand)` returns or raises. */
  function ComAvailability(brand: string, rdap: (string, nat) -> Result<int, string>): Result<DomainAvailability, string>
  {
    match NormalizeBrandLabel(brand)
    case Failure(e) => Failure(e)
    case Success(lbl) => RdapOutcome(lbl + ".com", rdap)
  }

  /** `is_com_available` */
  method IsComAvailable(brand: string, rdap: (string, nat) -> Result<int, string>)
    returns (r: Result<DomainAvailability, string>)
    ensures r == ComAvailability(brand, rdap)
  {
    var lbl := NormalizeBrandLabel(brand);
    if lbl.Failure? {
      return Failure(lbl.error);
    }
    var domain := lbl.value + ".com";
    r := RdapCheck(domain, rdap);
  }

  /**
   * `is_com_available` queries `<label>.com`; it fails only when the brand
   * has no letter or digit or a request raised, never in the validator.
   */
  lemma ComAvailabilityMeaning(brand: string, rdap: (string, nat) -> Result<int, string>)
    ensures var r := ComAvailability(brand, rdap);
      && (Tokens(brand) == [] ==> r.Failure?)
      && (Tokens(brand) != [] ==>
          var domain := Join(Tokens(brand), '-') + ".com";
          && (r.Failure? <==> FinalResponse(domain, rdap).Failure?)
          && (r.Success? ==> r.value.domain == domain && r.value.rdapStatus == Some(FinalResponse(domain, rdap).value)))
  {
    if Tokens(brand) != [] {
      var lbl := Join(Tokens(brand), '-');
      ComDomainValid(lbl);
      RdapOutcomeMeaning(lbl + ".com", rdap);
    }
  }

  // ---------------------------------------------------------------------
  // check_many
  // ---------------------------------------------------------------------

  type Checker = string -> Result<DomainAvailability, string>

  /** `is_com_available` with the responses fixed, as a function of the brand. */
  function ComChecker(rdap: (string, nat) -> Result<int, string>): Checker
  {
    brand => ComAvailability(brand, rdap)
  }

  /**
   * What the loop of `check_many(labels)` returns or raises, for a per-item
   * check: the first failure aborts the batch.
   */
  function ManyOf(labels: seq<string>, check: Checker): Result<Dict<DomainAvailability>, string>
  {
    if labels == [] then Success([])
    else
      match ManyOf(labels[..|labels| - 1], check)
      case Failure(e) => Failure(e)
      case Success(m) =>
        match check(labels[|labels| - 1])
        case Failure(e) => Failure(e)
        case Success(a) => Success(Put(m, labels[|labels| - 1], a))
  }

  /** `check_many` */
  method CheckMany(labels: seq<string>, rdap: (string, nat) -> Result<int, string>)
    returns (r: Result<Dict<DomainAvailability>, string>)
    ensures r == ManyOf(labels, ComChecker(rdap))
  {
    var results: Dict<DomainAvailability> := [];
    for i := 0 to |labels|
      invariant ManyOf(labels[..i], ComChecker(rdap)) == Success(results)
    {
      var raw := labels[i];
      var res := IsComAvailable(raw, rdap);
      assert res == ComChecker(rdap)(raw);
      ManyOfStep(labels, i, ComChecker(rdap), results);
      if res.Failure? {
        ManyOfFailureSticks(labels, i + 1, ComChecker(rdap));
        return Failure(res.error);
      }
      results := Put(results, raw, res.value);
    }
    assert labels[..|labels|] == labels;
    r := Success(results);
  }

  lemma ManyOfStep(labels: seq<string>, i: nat, check: Checker, m: Dict<DomainAvailability>)
    requires i < |labels| && ManyOf(labels[..i], check) == Success(m)
    ensures var a := check(labels[i]);
      ManyOf(labels[..i + 1], check) == if a.Failure? then Failure(a.error) else Success(Put(m, labels[i], a.value))
  {
    assert labels[..i + 1][..i] == labels[..i];
  }

  /** Once a prefix of the batch fails, the whole batch fails with the same error. */
  lemma {:induction false} ManyOfFailureSticks(labels: seq<string>, n: nat, check: Checker)
    requires n <= |labels| && ManyOf(labels[..n], check).Failure?
    ensures ManyOf(labels, check) == ManyOf(labels[..n], check)
    decreases |labels| - n
  {
    if n < |labels| {
      var init := labels[..|labels| - 1];
      assert init[..n] == labels[..n];
      ManyOfFailureSticks(init, n, check);
    } else {
      assert labels[..n] == labels;
    }
  }

  /**
   * A batch fails exactly when some input fails, with the error of the first
   * failing input.
   */
  lemma {:induction false} ManyOfOutcome(labels: seq<string>, check: Checker)
    ensures ManyOf(labels, check).Success? <==> forall i :: 0 <= i < |labels| ==> check(labels[i]).Success?
    ensures ManyOf(labels, check).Failure? ==>
      exists i :: && 0 <= i < |labels|
                  && check(labels[i]) == Failure(ManyOf(labels, check).error)
                  && forall j :: 0 <= j < i ==> check(labels[j]).Success?
  {
    if labels != [] {
      var init := labels[..|labels| - 1];
      ManyOfOutcome(init, check);
      forall i | 0 <= i < |init|
        ensures init[i] == labels[i]
      {
      }
    }
  }

  /**
   * A completed batch is a dict whose keys are the input strings in order of
   * first appearance: a repeated string keeps its first place.
   */
  lemma {:induction false} ManyOfKeys(labels: seq<string>, check: Checker)
    requires ManyOf(labels, check).Success?
    ensures DistinctKeys(ManyOf(labels, check).value)
    ensures Seqs.Firsts(ManyOf(labels, check).value) == Seqs.Distinct(labels)
  {
    if labels != [] {
      var init := labels[..|labels| - 1];
      var last := labels[|labels| - 1];
      assert ManyOf(init, check).Success? && check(last).Success?;
      var m := ManyOf(init, check).value;
      ManyOfKeys(init, check);
      PutKeys(m, last, check(last).value);
    }
  }

  /** In a completed batch every input string is mapped to its own result. */
  lemma {:induction false} ManyOfValues(labels: seq<string>, check: Checker)
    requires ManyOf(labels, check).Success?
    ensures forall i :: 0 <= i < |labels| ==>
      check(labels[i]).Success? && DictFind(ManyOf(labels, check).value, labels[i]) == Some(check(labels[i]).value)
  {
    if labels != [] {
      var init := labels[..|labels| - 1];
      var last := labels[|labels| - 1];
      assert init + [last] == labels;
      assert ManyOf(init, check).Success? && check(last).Success?;
      var m := ManyOf(init, check).value;
      ManyOfValues(init, check);
      ManyOfKeys(init, check);
      ValuesAfterPut(init, m, last, check);
    }
  }

  lemma ValuesAfterPut(keys: seq<string>, m: Dict<DomainAvailability>, key: string, check: Checker)
    requires DistinctKeys(m) && check(key).Success?
    requires forall i :: 0 <= i < |keys| ==> check(keys[i]).Success? && DictFind(m, keys[i]) == Some(check(keys[i]).value)
    ensures var ks, r := keys + [key], Put(m, key, check(key).value);
      forall i :: 0 <= i < |ks| ==> check(ks[i]).Success? && DictFind(r, ks[i]) == Some(check(ks[i]).value)
  {
    var ks, r := keys + [key], Put(m, key, check(key).value);
    PutFind(m, key, check(key).value);
    forall i | 0 <= i < |ks|
      ensures check(ks[i]).Success? && DictFind(r, ks[i]) == Some(check(ks[i]).value)
    {
      if i < |keys| {
        assert ks[i] == keys[i];
      }
    }
  }

  // ---------------------------------------------------------------------
  // check_www_resolves
  // ---------------------------------------------------------------------

  /** `any(a.get("data") for a in answers)`: stops at the first truthy `data`; a non-dict item raises. */
  function AnyData(items: seq<Json.Json>): Result<bool, string>
  {
    if items == [] then Success(false)
    else if !items[0].JObj? then Failure("AttributeError: object has no attribute 'get'")
    else if Json.Truthy(Json.Get(items[0].fields, "data")) then Success(true)
    else AnyData(items[1..])
  }

  /** The DoH answer test on a decoded body. */
  function Probe(resp: Result<Json.Json, string>): Result<bool, string>
  {
    match resp
    case Failure(e) => Failure(e)
    case Success(data) =>
      if !data.JObj? then Failure("AttributeError: object has no attribute 'get'")
      else
        match Json.ToInt(Json.GetOr(data.fields, "Status", Json.JInt(-1)))
        case Failure(e) => Failure(e)
        case Success(status) =>
          if status != 0 then Success(false)
          else
            match Json.Iterate(Json.GetOr(data.fields, "Answer", Json.JList([])))
            case Failure(e) => Failure(e)
            case Success(items) => AnyData(items)
  }

  /** The DoH query URL of each provider for the A record of `www.<domain>`. */
  function DohUrl(domain: string, provider: string): string
  {
    var host := "www." + domain;
    if provider == "google" then "https://dns.google/resolve?name=" + host + "&type=A"
    else "https://cloudflare-dns.com/dns-query?name=" + host + "&type=A"
  }

  /** `check_www_resolves(domain, provider)` */
  function CheckWwwResolves(domain: string, provider: string, doh: string -> Result<Json.Json, string>): (r: Result<bool, string>)
    ensures provider != "google" && provider != "cloudflare" ==> r.Failure?
    ensures provider == "google" || provider == "cloudflare" ==> r == Probe(doh(DohUrl(domain, provider)))
  {
    if provider == "google" || provider == "cloudflare" then Probe(doh(DohUrl(domain, provider)))
    else Failure("ValueError: provider must be 'google' or 'cloudflare'")
  }

  /** Over a list of records, `any` finds a record with truthy `data` exactly when there is one. */
  lemma {:induction false} AnyDataMeaning(items: seq<Json.Json>)
    requires forall i :: 0 <= i < |items| ==> items[i].JObj?
    ensures AnyData(items) == Success(exists i :: 0 <= i < |items| && Json.Truthy(Json.Get(items[i].fields, "data")))
  {
    if items != [] {
      AnyDataMeaning(items[1..]);
      if exists i :: 0 <= i < |items| && Json.Truthy(Json.Get(items[i].fields, "data")) {
        var i :| 0 <= i < |items| && Json.Truthy(Json.Get(items[i].fields, "data"));
        if i > 0 {
          assert items[1..][i - 1] == items[i];
        }
      }
    }
  }

  /**
   * On a well-formed answer (a dict whose integer `Status` and list of
   * record dicts under `Answer`), the probe is true exactly when `Status` is
   * 0 (NOERROR, section 4.1.1 of RFC 1035) and some record has truthy `data`.
   */
  lemma ProbeMeaning(fields: seq<(string, Json.Json)>, records: seq<Json.Json>)
    requires HasKey(fields, "Status") && Json.Get(fields, "Status").JInt?
    requires Json.Get(fields, "Answer") == Json.JList(records)
    requires forall i :: 0 <= i < |records| ==> records[i].JObj?
    ensures Probe(Success(Json.JObj(fields))) == Success(
      Json.Get(fields, "Status").i == 0
      && exists i :: 0 <= i < |records| && Json.Truthy(Json.Get(records[i].fields, "data")))
  {
    assert HasKey(fields, "Answer");
    assert Json.GetOr(fields, "Answer", Json.JList([])) == Json.Get(fields, "Answer") by {
      GetOrAnyDefault(fields, "Answer", Json.JList([]));
    }
    assert Json.GetOr(fields, "Status", Json.JInt(-1)) == Json.Get(fields, "Status") by {
      GetOrAnyDefault(fields, "Status", Json.JInt(-1));
    }
    AnyDataMeaning(records);
  }

  /** With the key present, the default of `get` is irrelevant. */
  lemma {:induction false} GetOrAnyDefault(fields: seq<(string, Json.Json)>, key: string, d: Json.Json)
    requires HasKey(fields, key)
    ensures Json.GetOr(fields, key, d) == Json.Get(fields, key)
  {
    if fields[|fields| - 1].0 != key {
      var k :| 0 <= k < |fields| && fields[k].0 == key;
      assert fields[..|fields| - 1][k].0 == key;
      GetOrAnyDefault(fields[..|fields| - 1], key, d);
    }
  }

  /** A body without `Status` reads as -1, so the probe is false. */
  lemma MissingStatusIsFalse(fields: seq<(string, Json.Json)>)
    requires !HasKey(fields, "Status")
    ensures Probe(Success(Json.JObj(fields))) == Success(false)
  {
  }

  /** The test case: `{"Status": 0, "Answer": [{"data": "93.184.216.34"}]}` from Google resolves. */
  lemma GoogleProbeExample(domain: string, doh: string -> Result<Json.Json, string>)
    requires doh(DohUrl(domain, "google"))
      == Success(Json.JObj([("Status", Json.JInt(0)), ("Answer", Json.JList([Json.JObj([("data", Json.JStr("93.184.216.34"))])]))]))
    ensures CheckWwwResolves(domain, "google", doh) == Success(true)
  {
    var rec := Json.JObj([("data", Json.JStr("93.184.216.34"))]);
    var fields := [("Status", Json.JInt(0)), ("Answer", Json.JList([rec]))];
    assert HasKey(fields, "Status") by {
      assert fields[0].0 == "Status";
    }
    assert Json.Get(fields, "Status") == Json.JInt(0) by {
      assert fields[..1] == [("Status", Json.JInt(0))];
    }
    assert Json.Get(fields, "Answer") == Json.JList([rec]);
    assert Json.Truthy(Json.Get(rec.fields, "data"));
    ProbeMeaning(fields, [rec]);
  }
}
