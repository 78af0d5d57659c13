/**
 * Keyword comparison (compare_keywords in streamlit_app.py).
 *
 * A job's keyword list and a resume's keyword list are reconciled into the
 * job keywords the resume also has (matched) and the job keywords it lacks
 * (missing). Both results are built as `list(set(...))`, so neither holds a
 * keyword twice and their order is unspecified. Keywords are compared by
 * exact string equality: no case folding, no trimming.
 */
module Keywords {

  /** A keyword exactly as the extractor hands it over. */
  type Keyword = string

  /** Result of a comparison: the tuple `(matched_keywords, missing_keywords)`. */
  datatype Comparison = Comparison(matched: seq<Keyword>, missing: seq<Keyword>)

  /** The set of a list's elements (`set(xs)`). */
  function Elems(xs: seq<Keyword>): set<Keyword> {
    set x | x in xs
  }

  predicate NoDuplicates(xs: seq<Keyword>) {
    forall i, j :: 0 <= i < j < |xs| ==> xs[i] != xs[j]
  }

  /**
   * `list(set(xs))`: every distinct element of `xs` exactly once. Python
   * leaves the order open; this model keeps the elements in the order of
   * their last occurrence, and nothing below depends on that choice.
   */
  function Distinct(xs: seq<Keyword>): (r: seq<Keyword>)
    ensures Elems(r) == Elems(xs)
    ensures NoDuplicates(r)
    ensures |r| <= |xs|
  {
    if xs == [] then []
    else
      var rest := Distinct(xs[1..]);
      assert Elems(xs) == {xs[0]} + Elems(xs[1..]);
      if xs[0] in rest then rest
      else
        assert Elems([xs[0]] + rest) == {xs[0]} + Elems(rest);
        [xs[0]] + rest
  }

  /**
   * The elements of `xs` whose membership in `pool` is `present`, in the
   * order of `xs`: with `present` it is `xs & pool`, without it `xs - pool`.
   */
  function Select(xs: seq<Keyword>, pool: set<Keyword>, present: bool): (r: seq<Keyword>)
    ensures forall x :: x in r <==> x in xs && (x in pool) == present
    ensures NoDuplicates(xs) ==> NoDuplicates(r)
    ensures |r| <= |xs|
  {
    if xs == [] then []
    else if (xs[0] in pool) == present then [xs[0]] + Select(xs[1..], pool, present)
    else Select(xs[1..], pool, present)
  }

  /**
   * compare_keywords(job_keywords, resume_keywords): matched is the set
   * intersection and missing the set difference of the two keyword
   * collections, each returned as a list without duplicates.
   */
  function CompareKeywords(jobKeywords: seq<Keyword>, resumeKeywords: seq<Keyword>): (r: Comparison)
    ensures Elems(r.matched) == Elems(jobKeywords) * Elems(resumeKeywords)
    ensures Elems(r.missing) == Elems(jobKeywords) - Elems(resumeKeywords)
    ensures NoDuplicates(r.matched) && NoDuplicates(r.missing)
  {
    var job := Distinct(jobKeywords);
    var resume := Elems(resumeKeywords);
    Comparison(Select(job, resume, true), Select(job, resume, false))
  }

  /** Only the empty list has no elements. */
  lemma NoElementsIsEmpty(xs: seq<Keyword>)
    ensures Elems(xs) == {} <==> xs == []
  {
    if xs != [] {
      assert xs[0] in Elems(xs);
    }
  }

  /** A list without duplicates has as many elements as its set. */
  lemma {:induction false} NoDuplicatesCardinality(xs: seq<Keyword>)
    requires NoDuplicates(xs)
    ensures |Elems(xs)| == |xs|
  {
    if xs != [] {
      NoDuplicatesCardinality(xs[1..]);
      assert Elems(xs) == {xs[0]} + Elems(xs[1..]);
      assert xs[0] !in Elems(xs[1..]);
    }
  }

  /** In a list without duplicates every element occurs exactly once. */
  lemma {:induction false} NoDuplicatesOccurOnce(xs: seq<Keyword>, x: Keyword)
    requires NoDuplicates(xs)
    ensures multiset(xs)[x] == if x in xs then 1 else 0
  {
    if xs != [] {
      NoDuplicatesOccurOnce(xs[1..], x);
      assert xs == [xs[0]] + xs[1..];
      assert xs[0] !in xs[1..];
    }
  }

  /**
   * Two duplicate-free lists with the same elements are permutations of each
   * other: the order of `list(set(...))` is the only freedom it has.
   */
  lemma SameElementsArePermutations(a: seq<Keyword>, b: seq<Keyword>)
    requires NoDuplicates(a) && NoDuplicates(b)
    requires Elems(a) == Elems(b)
    ensures multiset(a) == multiset(b)
  {
    forall x ensures multiset(a)[x] == multiset(b)[x] {
      NoDuplicatesOccurOnce(a, x);
      NoDuplicatesOccurOnce(b, x);
      assert x in a <==> x in Elems(a);
      assert x in b <==> x in Elems(b);
    }
  }

  /**
   * matched and missing are disjoint, together they hold exactly the
   * distinct job keywords, and their lengths add up to the number of
   * distinct job keywords.
   */
  lemma ComparisonPartitionsJobKeywords(jobKeywords: seq<Keyword>, resumeKeywords: seq<Keyword>)
    ensures var c := CompareKeywords(jobKeywords, resumeKeywords);
      && Elems(c.matched) !! Elems(c.missing)
      && Elems(c.matched) + Elems(c.missing) == Elems(jobKeywords)
      && |c.matched| + |c.missing| == |Elems(jobKeywords)|
  {
    var c := CompareKeywords(jobKeywords, resumeKeywords);
    NoDuplicatesCardinality(c.matched);
    NoDuplicatesCardinality(c.missing);
    assert Elems(c.matched) + Elems(c.missing) == Elems(jobKeywords);
  }

  /**
   * Repeating or reordering input keywords changes nothing but the order of
   * the outputs: inputs with the same elements give outputs that are
   * permutations of each other.
   */
  lemma ComparisonDependsOnlyOnElements(job1: seq<Keyword>, resume1: seq<Keyword>,
                                        job2: seq<Keyword>, resume2: seq<Keyword>)
    requires Elems(job1) == Elems(job2) && Elems(resume1) == Elems(resume2)
    ensures var c1, c2 := CompareKeywords(job1, resume1), CompareKeywords(job2, resume2);
      && multiset(c1.matched) == multiset(c2.matched)
      && multiset(c1.missing) == multiset(c2.missing)
  {
    var c1, c2 := CompareKeywords(job1, resume1), CompareKeywords(job2, resume2);
    SameElementsArePermutations(c1.matched, c2.matched);
    SameElementsArePermutations(c1.missing, c2.missing);
  }

  /** No job keywords: nothing matched and nothing missing, whatever the resume holds. */
  lemma EmptyJobKeywords(resumeKeywords: seq<Keyword>)
    ensures CompareKeywords([], resumeKeywords) == Comparison([], [])
  {
  }

  /** No resume keywords: nothing matched, and every distinct job keyword missing, once. */
  lemma EmptyResumeKeywords(jobKeywords: seq<Keyword>)
    ensures var c := CompareKeywords(jobKeywords, []);
      && c.matched == []
      && Elems(c.missing) == Elems(jobKeywords)
      && |c.missing| == |Elems(jobKeywords)|
  {
    var c := CompareKeywords(jobKeywords, []);
    NoElementsIsEmpty(c.matched);
    NoDuplicatesCardinality(c.missing);
  }

  /** The worked example: job {agile, research} against resume {agile}. */
  lemma AgileResearchExample()
    ensures CompareKeywords(["agile", "research"], ["agile"]) == Comparison(["agile"], ["research"])
  {
  }

  /** Equality is exact: keywords differing in case or spacing do not match. */
  lemma ExactStringEquality()
    ensures var c := CompareKeywords(["Agile", "agile "], ["agile"]);
      c.matched == [] && Elems(c.missing) == {"Agile", "agile "}
  {
  }
}
