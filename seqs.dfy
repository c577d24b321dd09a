/**
 * Sequence helpers shared by the modules: the first components of a
 * sequence of pairs, and the order-preserving de-duplication (the "keep the
 * first occurrence, skip anything already seen" loop the source writes out
 * twice, for Play Store labels and generated names).
 */
module Seqs {

  /** The first components of pairs, in order: `d.keys()`, `[t for t, _ in pairs]`. */
  function Firsts<A, B>(s: seq<(A, B)>): (r: seq<A>)
    ensures |r| == |s|
    ensures forall i :: 0 <= i < |s| ==> r[i] == s[i].0
  {
    seq(|s|, i requires 0 <= i < |s| => s[i].0)
  }

  lemma FirstsSnoc<A, B>(s: seq<(A, B)>, e: (A, B))
    ensures Firsts(s + [e]) == Firsts(s) + [e.0]
  {
  }

  ghost predicate NoDuplicates<T>(s: seq<T>)
  {
    forall i, j :: 0 <= i < j < |s| ==> s[i] != s[j]
  }

  /** `s` with every element after its first occurrence removed. */
  function Distinct<T(==)>(s: seq<T>): (r: seq<T>)
    ensures |r| <= |s|
    ensures NoDuplicates(r)
  {
    if s == [] then []
    else
      var d := Distinct(s[..|s| - 1]);
      if s[|s| - 1] in d then d else d + [s[|s| - 1]]
  }

  /** De-duplication keeps exactly the elements there were. */
  lemma {:induction false} DistinctElements<T>(s: seq<T>)
    ensures forall x :: x in Distinct(s) <==> x in s
  {
    if s != [] {
      var init := s[..|s| - 1];
      DistinctElements(init);
      assert s == init + [s[|s| - 1]];
    }
  }

  /** Taking one more element of `t` after a fixed prefix. */
  lemma TakeOneMore<T>(p: seq<T>, t: seq<T>, c: nat)
    requires c < |t|
    ensures p + t[..c + 1] == p + t[..c] + [t[c]]
  {
    assert t[..c + 1] == t[..c] + [t[c]];
  }

  /** A common start keeps one sequence a prefix of another. */
  lemma PrefixAfter<T>(p: seq<T>, a: seq<T>, b: seq<T>)
    requires a <= b
    ensures p + a <= p + b
  {
    assert (p + b)[..|p + a|] == p + a;
  }

  lemma DistinctStep<T>(s: seq<T>, x: T)
    ensures Distinct(s + [x]) == if x in Distinct(s) then Distinct(s) else Distinct(s) + [x]
  {
    assert (s + [x])[..|s + [x]| - 1] == s;
  }

  /** De-duplicating a prefix gives a prefix of the de-duplicated whole. */
  lemma {:induction false} DistinctPrefix<T>(s: seq<T>, n: nat)
    requires n <= |s|
    ensures Distinct(s[..n]) <= Distinct(s)
    decreases |s| - n
  {
    if n < |s| {
      DistinctPrefix(s, n + 1);
      assert s[..n + 1] == s[..n] + [s[n]];
      DistinctStep(s[..n], s[n]);
      PrefixTransitive(Distinct(s[..n]), Distinct(s[..n + 1]), Distinct(s));
    } else {
      assert s[..n] == s;
    }
  }

  lemma PrefixTransitive<T>(a: seq<T>, b: seq<T>, c: seq<T>)
    requires a <= b && b <= c
    ensures a <= c
  {
    assert b[..|a|] == a;
    assert c[..|b|] == b;
    assert c[..|a|] == a;
  }

  /** De-duplication changes nothing exactly when there is nothing to remove. */
  lemma {:induction false} DistinctIdentity<T>(s: seq<T>)
    ensures Distinct(s) == s <==> NoDuplicates(s)
  {
    if NoDuplicates(s) {
      DistinctOfNoDuplicates(s);
    }
  }

  lemma {:induction false} DistinctOfNoDuplicates<T>(s: seq<T>)
    requires NoDuplicates(s)
    ensures Distinct(s) == s
  {
    if s != [] {
      var p := s[..|s| - 1];
      assert NoDuplicates(p);
      DistinctOfNoDuplicates(p);
      assert s[|s| - 1] !in p;
      assert p + [s[|s| - 1]] == s;
    }
  }
}
