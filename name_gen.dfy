/**
 * Brand-name idea generation (`generate_names`): every prefix, seed and
 * suffix combined, title-cased and de-duplicated in order, then the plain
 * seed-plus-suffix names as a fallback, stopping as soon as the limit is
 * reached.
 */
module NameGen {
  import opened Text
  import opened Seqs
  import opened Wrappers

  const Prefixes: seq<string> := ["neo", "meta", "quant", "hyper", "blue", "bright", "clear", "ever", "true"]
  const Suffixes: seq<string> := ["ly", "ify", "io", "ster", "scape", "verse", "labs", "works", "forge"]

  /** `_STYLE_INFIX.get(style or "", "")` */
  function StyleInfix(style: Option<string>): string
  {
    match style
    case Some("modern") => "x"
    case Some("classic") => "a"
    case Some("playful") => "oo"
    case Some("professional") => "pro"
    case _ => ""
  }

  // ---------------------------------------------------------------------
  // Slugs and seeds
  // ---------------------------------------------------------------------

  /** `_slugify`: lower-case the word and keep its letters and digits, in order. */
  function Slugify(word: string): (slug: string)
    ensures |slug| <= |word|
    ensures forall i :: 0 <= i < |slug| ==> IsLowerAlnum(slug[i])
  {
    if word == [] then []
    else
      var c := LowerChar(word[|word| - 1]);
      Slugify(word[..|word| - 1]) + (if IsLowerAlnum(c) then [c] else [])
  }

  /** A word that is already a slug is its own slug. */
  lemma {:induction false} SlugOfSlug(s: string)
    requires forall i :: 0 <= i < |s| ==> IsLowerAlnum(s[i])
    ensures Slugify(s) == s
  {
    if s != [] {
      SlugOfSlug(s[..|s| - 1]);
      assert s[..|s| - 1] + [s[|s| - 1]] == s;
    }
  }

  /** Slugifying twice is slugifying once. */
  lemma SlugifyIdempotent(word: string)
    ensures Slugify(Slugify(word)) == Slugify(word)
  {
    SlugOfSlug(Slugify(word));
  }

  /** A word has an empty slug exactly when it has no ASCII letter or digit. */
  lemma {:induction false} SlugifyEmpty(word: string)
    ensures Slugify(word) == [] <==> forall i :: 0 <= i < |word| ==> !IsLowerAlnum(LowerChar(word[i]))
  {
    if word != [] {
      var init := word[..|word| - 1];
      SlugifyEmpty(init);
      assert forall i :: 0 <= i < |init| ==> init[i] == word[i];
    }
  }

  /** `[_slugify(k) for k in keywords if k and _slugify(k)]` */
  function Seeds(keywords: seq<string>): (seeds: seq<string>)
    ensures |seeds| <= |keywords|
    ensures forall i :: 0 <= i < |seeds| ==> seeds[i] != [] && forall j :: 0 <= j < |seeds[i]| ==> IsLowerAlnum(seeds[i][j])
  {
    if keywords == [] then []
    else
      var k := keywords[|keywords| - 1];
      Seeds(keywords[..|keywords| - 1]) + (if k != [] && Slugify(k) != [] then [Slugify(k)] else [])
  }

  /** There are no seeds exactly when no keyword has a letter or digit. */
  lemma {:induction false} SeedsEmpty(keywords: seq<string>)
    ensures Seeds(keywords) == [] <==> forall i :: 0 <= i < |keywords| ==> Slugify(keywords[i]) == []
  {
    if keywords != [] {
      var init := keywords[..|keywords| - 1];
      SeedsEmpty(init);
      assert forall i :: 0 <= i < |init| ==> init[i] == keywords[i];
    }
  }

  /** Every seed is the slug of some keyword. */
  lemma {:induction false} SeedsAreSlugs(keywords: seq<string>)
    ensures forall s :: s in Seeds(keywords) ==> exists i :: 0 <= i < |keywords| && s == Slugify(keywords[i])
  {
    if keywords != [] {
      var init := keywords[..|keywords| - 1];
      SeedsAreSlugs(init);
      assert forall i :: 0 <= i < |init| ==> init[i] == keywords[i];
    }
  }

  // ---------------------------------------------------------------------
  // Title case
  // ---------------------------------------------------------------------

  predicate IsAsciiLetter(c: char) { IsAsciiUpper(c) || IsAsciiLower(c) }

  /** `str.title`: a letter is upper-cased at the start or after a non-letter, and lower-cased after a letter. */
  function Title(s: string): (t: string)
    ensures |t| == |s|
  {
    TitleAfter(s, false)
  }

  /** Title case of `s` when the character before it was (`afterLetter`) or was not a letter. */
  function TitleAfter(s: string, afterLetter: bool): (t: string)
    ensures |t| == |s|
  {
    if s == [] then []
    else [if afterLetter then LowerChar(s[0]) else UpperChar(s[0])] + TitleAfter(s[1..], IsAsciiLetter(s[0]))
  }

  /** Title case only changes case: it lower-cases back to the lower-cased input. */
  lemma {:induction false} TitleLower(s: string, afterLetter: bool)
    ensures Lower(TitleAfter(s, afterLetter)) == Lower(s)
  {
    if s != [] {
      TitleLower(s[1..], IsAsciiLetter(s[0]));
      var c := s[0];
      if IsAsciiUpper(c) {
        assert UpperChar(c) == c;
      }
      assert LowerChar(LowerChar(c)) == LowerChar(c);
      assert LowerChar(TitleAfter(s, afterLetter)[0]) == LowerChar(c);
    }
  }

  lemma CaseKeepsLetter(c: char)
    ensures IsAsciiLetter(LowerChar(c)) <==> IsAsciiLetter(c)
    ensures IsAsciiLetter(UpperChar(c)) <==> IsAsciiLetter(c)
    ensures IsAsciiUpper(c) ==> UpperChar(LowerChar(c)) == c
    ensures IsAsciiLower(c) ==> LowerChar(UpperChar(c)) == c
  {
  }

  /** Title-casing twice is title-casing once. */
  lemma {:induction false} TitleIdempotent(s: string, afterLetter: bool)
    ensures TitleAfter(TitleAfter(s, afterLetter), afterLetter) == TitleAfter(s, afterLetter)
  {
    if s != [] {
      var t := TitleAfter(s, afterLetter);
      var c := s[0];
      CaseKeepsLetter(c);
      assert IsAsciiLetter(t[0]) == IsAsciiLetter(c);
      assert t[1..] == TitleAfter(s[1..], IsAsciiLetter(c));
      TitleIdempotent(s[1..], IsAsciiLetter(c));
      if IsAsciiUpper(c) {
        assert LowerChar(UpperChar(LowerChar(c))) == LowerChar(c);
      }
    }
  }

  /** Two lower-case names with the same title are the same name. */
  lemma TitleInjective(a: string, b: string)
    requires Lower(a) == a && Lower(b) == b && Title(a) == Title(b)
    ensures a == b
  {
    TitleLower(a, false);
    TitleLower(b, false);
  }

  /** A name that starts with a lower-case letter titles to one that starts with an upper-case letter. */
  lemma TitleStartsUpper(s: string)
    requires s != [] && IsAsciiLower(s[0])
    ensures IsAsciiUpper(Title(s)[0])
  {
  }

  // ---------------------------------------------------------------------
  // The candidates, in the order the loops visit them
  // ---------------------------------------------------------------------

  /** Concatenation of a sequence of blocks. */
  function Flatten<T>(ss: seq<seq<T>>): (r: seq<T>)
  {
    if ss == [] then [] else Flatten(ss[..|ss| - 1]) + ss[|ss| - 1]
  }

  lemma FlattenStep<T>(ss: seq<seq<T>>, k: nat)
    requires k < |ss|
    ensures Flatten(ss[..k + 1]) == Flatten(ss[..k]) + ss[k]
  {
    assert ss[..k + 1][..k] == ss[..k];
  }

  /** Flattening a prefix of the blocks gives a prefix of the whole. */
  lemma {:induction false} FlattenPrefix<T>(ss: seq<seq<T>>, n: nat)
    requires n <= |ss|
    ensures Flatten(ss[..n]) <= Flatten(ss)
  {
    if n == |ss| {
      assert ss[..n] == ss;
    } else {
      var init := ss[..|ss| - 1];
      assert init[..n] == ss[..n];
      FlattenPrefix(init, n);
      PrefixTransitive(Flatten(ss[..n]), Flatten(init), Flatten(ss));
    }
  }

  /** The blocks before `k`, then a prefix of block `k`, form a prefix of the whole. */
  lemma FlattenPartial<T>(ss: seq<seq<T>>, k: nat, x: seq<T>)
    requires k < |ss| && x <= ss[k]
    ensures Flatten(ss[..k]) + x <= Flatten(ss)
  {
    FlattenStep(ss, k);
    FlattenPrefix(ss, k + 1);
    var p := Flatten(ss[..k]);
    assert (p + ss[k])[..|p + x|] == p + x;
    PrefixTransitive(p + x, p + ss[k], Flatten(ss));
  }

  /** An element of the concatenation lies in one of the blocks. */
  lemma {:induction false} InFlatten<T>(ss: seq<seq<T>>, x: T)
    requires x in Flatten(ss)
    ensures exists k :: 0 <= k < |ss| && x in ss[k]
  {
    var init := ss[..|ss| - 1];
    if x !in ss[|ss| - 1] {
      InFlatten(init, x);
      var k :| 0 <= k < |init| && x in init[k];
      assert init[k] == ss[k];
    }
  }

  /** `[f"{base}{suf}".title() for suf in sufs]` */
  function SuffixNames(base: string, sufs: seq<string>): (names: seq<string>)
    ensures |names| == |sufs|
    ensures forall j :: 0 <= j < |sufs| ==> names[j] == Title(base + sufs[j])
  {
    seq(|sufs|, j requires 0 <= j < |sufs| => Title(base + sufs[j]))
  }

  /** For one prefix: the suffix names of each seed in turn. */
  function SeedBlocks(pref: string, infix: string, seeds: seq<string>, sufs: seq<string>): seq<seq<string>>
  {
    seq(|seeds|, b requires 0 <= b < |seeds| => SuffixNames(pref + infix + seeds[b], sufs))
  }

  /** One block per prefix, in order. */
  function PrefixBlocks(prefs: seq<string>, infix: string, seeds: seq<string>, sufs: seq<string>): seq<seq<string>>
  {
    seq(|prefs|, a requires 0 <= a < |prefs| => Flatten(SeedBlocks(prefs[a], infix, seeds, sufs)))
  }

  /** The fallback: each seed with each suffix. */
  function FallbackBlocks(seeds: seq<string>, sufs: seq<string>): seq<seq<string>>
  {
    seq(|seeds|, b requires 0 <= b < |seeds| => SuffixNames(seeds[b], sufs))
  }

  /** The prefixed names: for each prefix, for each seed, for each suffix. */
  function Phase1(prefs: seq<string>, infix: string, seeds: seq<string>, sufs: seq<string>): seq<string>
  {
    Flatten(PrefixBlocks(prefs, infix, seeds, sufs))
  }

  /** The fallback names: for each seed, for each suffix. */
  function Phase2(seeds: seq<string>, sufs: seq<string>): seq<string>
  {
    Flatten(FallbackBlocks(seeds, sufs))
  }

  /** Every name either loop considers, in the order it considers them. */
  function Candidates(prefs: seq<string>, infix: string, seeds: seq<string>, sufs: seq<string>): seq<string>
  {
    Phase1(prefs, infix, seeds, sufs) + Phase2(seeds, sufs)
  }

  /** How many names the loops may collect: the limit, and at least one. */
  function Cap(limit: int): (c: nat)
    ensures c >= 1 && (limit >= 1 ==> c == limit)
  {
    if limit >= 1 then limit else 1
  }

  /** The first distinct names of `all`, as many as the cap allows. */
  function FirstDistinct(all: seq<string>, limit: int): seq<string>
  {
    var d := Distinct(all);
    if |d| <= Cap(limit) then d else d[..Cap(limit)]
  }

  /** What `generate_names` returns: no names without seeds, else the first distinct candidates. */
  function GeneratedNames(keywords: seq<string>, style: Option<string>, limit: int): seq<string>
  {
    var seeds := Seeds(keywords);
    if seeds == [] then [] else FirstDistinct(Candidates(Prefixes, StyleInfix(style), seeds, Suffixes), limit)
  }

  // ---------------------------------------------------------------------
  // generate_names
  // ---------------------------------------------------------------------

  /** Stopping once the cap is reached leaves the first distinct names of the whole. */
  lemma StopsAtCap(prefix: seq<string>, all: seq<string>, cap: nat)
    requires prefix <= all && |Distinct(prefix)| == cap
    ensures |Distinct(all)| >= cap && Distinct(all)[..cap] == Distinct(prefix)
  {
    assert all[..|prefix|] == prefix;
    DistinctPrefix(all, |prefix|);
  }

  /** An infix is added exactly for the four named styles, and it is one of the four infixes. */
  lemma StyleInfixMeaning(style: Option<string>)
    ensures StyleInfix(style) != [] <==> style.Some? && style.value in {"modern", "classic", "playful", "professional"}
    ensures StyleInfix(style) in {"", "x", "a", "oo", "pro"}
  {
  }

  /** `generate_names(keywords, style=style, limit=limit)` */
  method GenerateNames(keywords: seq<string>, style: Option<string>, limit: int) returns (names: seq<string>)
    ensures names == GeneratedNames(keywords, style, limit)
  {
    var seeds := Seeds(keywords);
    if seeds == [] {
      return [];
    }
    var infix := StyleInfix(style);
    names := CollectNames(Prefixes, infix, seeds, Suffixes, limit);
  }

  /**
   * The loop over `prefs` (`_PREFIXES`), each seed and each suffix: it
   * either stops with the final names or leaves the distinct prefixed names,
   * still short of the cap.
   */
  method CollectPrefixed(prefs: seq<string>, infix: string, seeds: seq<string>, sufs: seq<string>, limit: int)
    returns (names: seq<string>, seen: set<string>, stop: bool)
    ensures stop ==> names == FirstDistinct(Candidates(prefs, infix, seeds, sufs), limit)
    ensures !stop ==> names == Distinct(Phase1(prefs, infix, seeds, sufs)) && |names| < Cap(limit)
    ensures forall n :: n in seen <==> n in names
  {
    ghost var pb := PrefixBlocks(prefs, infix, seeds, sufs);
    ghost var rest := Phase2(seeds, sufs);
    names := [];
    seen := {};
    for a := 0 to |prefs|
      invariant names == Distinct(Flatten(pb[..a]))
      invariant forall n :: n in seen <==> n in names
      invariant |names| < Cap(limit)
    {
      var pref := prefs[a];
      ghost var sb := SeedBlocks(pref, infix, seeds, sufs);
      BlocksStart(Flatten(pb[..a]), sb);
      for b := 0 to |seeds|
        invariant names == Distinct(Flatten(pb[..a]) + Flatten(sb[..b]))
        invariant forall n :: n in seen <==> n in names
        invariant |names| < Cap(limit)
      {
        var base := if infix != [] then pref + infix + seeds[b] else pref + seeds[b];
        assert base == pref + infix + seeds[b];
        assert sb[b] == SuffixNames(base, sufs);
        var stop';
        ghost var k;
        names, seen, stop', k := AddSuffixed(base, sufs, limit, names, seen, Flatten(pb[..a]) + Flatten(sb[..b]));
        if stop' {
          PrefixedStopCap(pb, sb, a, b, k, names, limit, rest);
          return names, seen, true;
        }
        BlocksAdvance(Flatten(pb[..a]), sb, b);
      }
      PrefixAdvance(pb, sb, a);
    }
    assert pb[..|prefs|] == pb;
    stop := false;
  }

  /**
   * `generate_names` after the seeds and the infix: the prefixed loops,
   * then, unless they returned, the fallback loop over the seeds and
   * `sufs` (`_SUFFIXES`), which also returns once `limit` names are kept.
   */
  method CollectNames(prefs: seq<string>, infix: string, seeds: seq<string>, sufs: seq<string>, limit: int)
    returns (names: seq<string>)
    ensures names == FirstDistinct(Candidates(prefs, infix, seeds, sufs), limit)
  {
    var seen, stop;
    names, seen, stop := CollectPrefixed(prefs, infix, seeds, sufs, limit);
    if stop {
      return;
    }
    ghost var p1 := Phase1(prefs, infix, seeds, sufs);
    ghost var fb := FallbackBlocks(seeds, sufs);
    BlocksStart(p1, fb);
    for b := 0 to |seeds|
      invariant names == Distinct(p1 + Flatten(fb[..b]))
      invariant forall n :: n in seen <==> n in names
      invariant |names| < Cap(limit)
    {
      var stop';
      ghost var k;
      names, seen, stop', k := AddSuffixed(seeds[b], sufs, limit, names, seen, p1 + Flatten(fb[..b]));
      if stop' {
        FallbackStopCap(p1, fb, b, k, names, limit);
        return;
      }
      BlocksAdvance(p1, fb, b);
    }
    assert fb[..|seeds|] == fb;
  }

  lemma BlocksStart(p: seq<string>, ss: seq<seq<string>>)
    ensures p + Flatten(ss[..0]) == p
  {
    assert ss[..0] == [];
  }

  lemma BlocksAdvance(p: seq<string>, ss: seq<seq<string>>, b: nat)
    requires b < |ss|
    ensures p + Flatten(ss[..b + 1]) == p + Flatten(ss[..b]) + ss[b][..|ss[b]|]
  {
    FlattenStep(ss, b);
    assert ss[b][..|ss[b]|] == ss[b];
  }

  lemma PrefixAdvance(pb: seq<seq<string>>, sb: seq<seq<string>>, a: nat)
    requires a < |pb| && pb[a] == Flatten(sb)
    ensures Flatten(pb[..a]) + Flatten(sb[..|sb|]) == Flatten(pb[..a + 1])
  {
    FlattenStep(pb, a);
    assert sb[..|sb|] == sb;
  }

  /** Where the prefixed loops stop, the names kept are the first distinct candidates. */
  lemma PrefixedStopCap(pb: seq<seq<string>>, sb: seq<seq<string>>, a: nat, b: nat, k: nat,
                        names: seq<string>, limit: int, rest: seq<string>)
    requires a < |pb| && b < |sb| && Flatten(sb) == pb[a] && k <= |sb[b]|
    requires names == Distinct(Flatten(pb[..a]) + Flatten(sb[..b]) + sb[b][..k]) && |names| == Cap(limit)
    ensures names == FirstDistinct(Flatten(pb) + rest, limit)
  {
    var done := Flatten(pb[..a]) + Flatten(sb[..b]) + sb[b][..k];
    PrefixedStop(pb, sb, a, b, sb[b][..k]);
    PrefixTransitive(done, Flatten(pb), Flatten(pb) + rest);
    StopsAtCap(done, Flatten(pb) + rest, Cap(limit));
  }

  /** Where the fallback loop stops, the names kept are the first distinct candidates. */
  lemma FallbackStopCap(p1: seq<string>, fb: seq<seq<string>>, b: nat, k: nat, names: seq<string>, limit: int)
    requires b < |fb| && k <= |fb[b]|
    requires names == Distinct(p1 + Flatten(fb[..b]) + fb[b][..k]) && |names| == Cap(limit)
    ensures names == FirstDistinct(p1 + Flatten(fb), limit)
  {
    FallbackStop(p1, fb, b, fb[b][..k]);
    StopsAtCap(p1 + Flatten(fb[..b]) + fb[b][..k], p1 + Flatten(fb), Cap(limit));
  }

  /**
   * The innermost loop, `for suf in _SUFFIXES`: keep each unseen title of
   * `base + suf`; `stop` reports the early return once `limit` names are
   * kept, after `k` suffixes.
   */
  method AddSuffixed(base: string, sufs: seq<string>, limit: int, names0: seq<string>, seen0: set<string>,
                     ghost before: seq<string>)
    returns (names: seq<string>, seen: set<string>, stop: bool, ghost k: nat)
    requires names0 == Distinct(before) && |names0| < Cap(limit)
    requires forall n :: n in seen0 <==> n in names0
    ensures k <= |sufs| && names == Distinct(before + SuffixNames(base, sufs)[..k])
    ensures forall n :: n in seen <==> n in names
    ensures stop ==> |names| == Cap(limit)
    ensures !stop ==> k == |sufs| && |names| < Cap(limit)
  {
    ghost var sn := SuffixNames(base, sufs);
    names, seen := names0, seen0;
    assert before + sn[..0] == before;
    for c := 0 to |sufs|
      invariant names == Distinct(before + sn[..c])
      invariant forall n :: n in seen <==> n in names
      invariant |names| < Cap(limit)
    {
      var title := Title(base + sufs[c]);
      TakeOneMore(before, sn, c);
      DistinctStep(before + sn[..c], title);
      if title !in seen {
        names := names + [title];
        seen := seen + {title};
        if |names| >= limit {
          return names, seen, true, c + 1;
        }
      }
    }
    return names, seen, false, |sufs|;
  }

  /** Where the prefixed loops stop, what they have considered is a prefix of the prefixed names. */
  lemma PrefixedStop(pb: seq<seq<string>>, sb: seq<seq<string>>, a: nat, b: nat, x: seq<string>)
    requires a < |pb| && b < |sb| && Flatten(sb) == pb[a] && x <= sb[b]
    ensures Flatten(pb[..a]) + Flatten(sb[..b]) + x <= Flatten(pb)
  {
    FlattenPartial(sb, b, x);
    FlattenPartial(pb, a, Flatten(sb[..b]) + x);
    assert Flatten(pb[..a]) + Flatten(sb[..b]) + x == Flatten(pb[..a]) + (Flatten(sb[..b]) + x);
  }

  /** Where the fallback loops stop, what they have considered is a prefix of all candidates. */
  lemma FallbackStop(p1: seq<string>, fb: seq<seq<string>>, b: nat, x: seq<string>)
    requires b < |fb| && x <= fb[b]
    ensures p1 + Flatten(fb[..b]) + x <= p1 + Flatten(fb)
  {
    FlattenPartial(fb, b, x);
    PrefixAfter(p1, Flatten(fb[..b]) + x, Flatten(fb));
    assert p1 + Flatten(fb[..b]) + x == p1 + (Flatten(fb[..b]) + x);
  }

  // ---------------------------------------------------------------------
  // What the result promises
  // ---------------------------------------------------------------------

  /** The names are unique. */
  lemma GeneratedNamesUnique(keywords: seq<string>, style: Option<string>, limit: int)
    ensures NoDuplicates(GeneratedNames(keywords, style, limit))
  {
  }

  /** Some candidate exists as soon as there is a seed. */
  lemma CandidatesNonEmpty(prefs: seq<string>, infix: string, seeds: seq<string>, sufs: seq<string>)
    requires seeds != [] && sufs != []
    ensures Distinct(Candidates(prefs, infix, seeds, sufs)) != []
  {
    var fb := FallbackBlocks(seeds, sufs);
    FlattenPrefix(fb, 1);
    assert fb[..1][..0] == [];
    var all := Candidates(prefs, infix, seeds, sufs);
    assert Phase2(seeds, sufs) != [];
    DistinctElements(all);
    assert all[|all| - 1] in Distinct(all);
  }

  /** At most `limit` names for a positive limit; exactly one for a limit below one (the check follows the append). */
  lemma GeneratedNamesCount(keywords: seq<string>, style: Option<string>, limit: int)
    ensures limit >= 1 ==> |GeneratedNames(keywords, style, limit)| <= limit
    ensures limit < 1 && Seeds(keywords) != [] ==> |GeneratedNames(keywords, style, limit)| == 1
  {
    var seeds := Seeds(keywords);
    if seeds != [] {
      CandidatesNonEmpty(Prefixes, StyleInfix(style), seeds, Suffixes);
    }
  }

  /** No names exactly when no keyword has a letter or digit. */
  lemma NoNamesWithoutSeeds(keywords: seq<string>, style: Option<string>, limit: int)
    ensures GeneratedNames(keywords, style, limit) == [] <==> forall i :: 0 <= i < |keywords| ==> Slugify(keywords[i]) == []
  {
    SeedsEmpty(keywords);
    var seeds := Seeds(keywords);
    if seeds != [] {
      CandidatesNonEmpty(Prefixes, StyleInfix(style), seeds, Suffixes);
    }
  }

  /** `n` is some prefix, the infix, some seed and some suffix, title-cased. */
  ghost predicate PrefixedName(n: string, prefs: seq<string>, infix: string, seeds: seq<string>, sufs: seq<string>)
  {
    exists p, s, suf :: p in prefs && s in seeds && suf in sufs && n == Title(p + infix + s + suf)
  }

  /** `n` is some seed and some suffix, title-cased. */
  ghost predicate FallbackName(n: string, seeds: seq<string>, sufs: seq<string>)
  {
    exists s, suf :: s in seeds && suf in sufs && n == Title(s + suf)
  }

  /** A prefixed candidate is a prefix, the infix, a seed and a suffix, title-cased. */
  lemma InPhase1(prefs: seq<string>, infix: string, seeds: seq<string>, sufs: seq<string>, n: string)
    requires n in Phase1(prefs, infix, seeds, sufs)
    ensures PrefixedName(n, prefs, infix, seeds, sufs)
  {
    var pb := PrefixBlocks(prefs, infix, seeds, sufs);
    InFlatten(pb, n);
    var a :| 0 <= a < |pb| && n in pb[a];
    InSeedBlocks(prefs[a], infix, seeds, sufs, n);
  }

  lemma InSeedBlocks(pref: string, infix: string, seeds: seq<string>, sufs: seq<string>, n: string)
    requires n in Flatten(SeedBlocks(pref, infix, seeds, sufs))
    ensures exists s, suf :: s in seeds && suf in sufs && n == Title(pref + infix + s + suf)
  {
    var sb := SeedBlocks(pref, infix, seeds, sufs);
    InFlatten(sb, n);
    var b :| 0 <= b < |sb| && n in sb[b];
    var j :| 0 <= j < |sufs| && n == sb[b][j];
    assert sb[b] == SuffixNames(pref + infix + seeds[b], sufs);
    assert n == Title(pref + infix + seeds[b] + sufs[j]);
    assert seeds[b] in seeds && sufs[j] in sufs;
  }

  /** A fallback candidate is a seed and a suffix, title-cased. */
  lemma InPhase2(seeds: seq<string>, sufs: seq<string>, n: string)
    requires n in Phase2(seeds, sufs)
    ensures FallbackName(n, seeds, sufs)
  {
    var fb := FallbackBlocks(seeds, sufs);
    InFlatten(fb, n);
    var b :| 0 <= b < |fb| && n in fb[b];
    var j :| 0 <= j < |sufs| && n == fb[b][j];
    assert fb[b] == SuffixNames(seeds[b], sufs);
    assert n == Title(seeds[b] + sufs[j]);
    assert seeds[b] in seeds && sufs[j] in sufs;
  }

  /** Every name is some prefix, infix, seed and suffix title-cased, or some seed and suffix title-cased. */
  lemma GeneratedNamesShape(keywords: seq<string>, style: Option<string>, limit: int, n: string)
    requires n in GeneratedNames(keywords, style, limit)
    ensures PrefixedName(n, Prefixes, StyleInfix(style), Seeds(keywords), Suffixes)
         || FallbackName(n, Seeds(keywords), Suffixes)
  {
    var seeds, infix := Seeds(keywords), StyleInfix(style);
    assert seeds != [];
    assert n in FirstDistinct(Candidates(Prefixes, infix, seeds, Suffixes), limit);
    CandidateShape(Prefixes, infix, seeds, Suffixes, limit, n);
  }

  lemma CandidateShape(prefs: seq<string>, infix: string, seeds: seq<string>, sufs: seq<string>, limit: int, n: string)
    requires n in FirstDistinct(Candidates(prefs, infix, seeds, sufs), limit)
    ensures PrefixedName(n, prefs, infix, seeds, sufs) || FallbackName(n, seeds, sufs)
  {
    var all := Candidates(prefs, infix, seeds, sufs);
    assert n in Distinct(all);
    DistinctElements(all);
    if n in Phase1(prefs, infix, seeds, sufs) {
      InPhase1(prefs, infix, seeds, sufs, n);
    } else {
      InPhase2(seeds, sufs, n);
    }
  }

  /** Every prefix starts with a lower-case letter. */
  lemma PrefixesStartLower()
    ensures forall p :: p in Prefixes ==> p != [] && IsAsciiLower(p[0])
  {
  }

  /** Every prefixed name starts with an upper-case letter. */
  lemma Phase1StartsUpper(infix: string, seeds: seq<string>, n: string)
    requires n in Phase1(Prefixes, infix, seeds, Suffixes)
    ensures n != [] && IsAsciiUpper(n[0])
  {
    InPhase1(Prefixes, infix, seeds, Suffixes, n);
    var p, s, suf :| p in Prefixes && s in seeds && suf in Suffixes && n == Title(p + infix + s + suf);
    PrefixesStartLower();
    var raw := p + infix + s + suf;
    assert raw[0] == p[0];
    TitleStartsUpper(raw);
  }

  /** The fallback names are used only when the prefixed names alone do not reach the cap. */
  lemma FallbackOnlyWhenShort(keywords: seq<string>, style: Option<string>, limit: int)
    requires Seeds(keywords) != []
    requires |Distinct(Phase1(Prefixes, StyleInfix(style), Seeds(keywords), Suffixes))| >= Cap(limit)
    ensures GeneratedNames(keywords, style, limit) == Distinct(Phase1(Prefixes, StyleInfix(style), Seeds(keywords), Suffixes))[..Cap(limit)]
  {
    ShortPhase1Decides(Prefixes, StyleInfix(style), Seeds(keywords), Suffixes, limit);
  }

  lemma ShortPhase1Decides(prefs: seq<string>, infix: string, seeds: seq<string>, sufs: seq<string>, limit: int)
    requires |Distinct(Phase1(prefs, infix, seeds, sufs))| >= Cap(limit)
    ensures FirstDistinct(Candidates(prefs, infix, seeds, sufs), limit) == Distinct(Phase1(prefs, infix, seeds, sufs))[..Cap(limit)]
  {
    var p1 := Phase1(prefs, infix, seeds, sufs);
    var all := Candidates(prefs, infix, seeds, sufs);
    assert all[..|p1|] == p1;
    DistinctPrefix(all, |p1|);
  }
}
