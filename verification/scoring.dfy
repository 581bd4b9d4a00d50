/**
  The score `get_intent` gives a pattern: the Jaccard similarity of the two token
  sets, `len(set(tokens) & set(pattern_tokens)) / len(set(tokens + pattern_tokens))`.
  The score is kept as its two counts and read as an exact rational; for counts
  this small, Python's float division and comparisons order the scores the same way.
 */
module Scoring {

  /** `set(tokens)`. */
  function ToSet(tokens: seq<string>): set<string>
  {
    set t | t in tokens
  }

  /** `set(a + b)` is `set(a) | set(b)`. */
  lemma ToSetConcat(a: seq<string>, b: seq<string>)
    ensures ToSet(a + b) == ToSet(a) + ToSet(b)
  {
  }

  /** A Jaccard score as its numerator (shared tokens) and denominator (all tokens). */
  datatype Jaccard = Jaccard(inter: nat, union: nat)

  /** The counts of `len(set(a) & set(b)) / len(set(a + b))`. The denominator is
      0 exactly when both lists are empty. */
  function Similarity(a: seq<string>, b: seq<string>): (s: Jaccard)
    ensures s.inter <= s.union
    ensures s.union == 0 <==> a == [] && b == []
  {
    SimilarityCounts(a, b);
    Jaccard(|ToSet(a) * ToSet(b)|, |ToSet(a + b)|)
  }

  /** The numerator counts the tokens the two lists share, the denominator the
      tokens of either list, so the numerator is 0 exactly when they share none. */
  lemma SimilarityCounts(a: seq<string>, b: seq<string>)
    ensures |ToSet(a) * ToSet(b)| <= |ToSet(a + b)|
    ensures |ToSet(a + b)| == |ToSet(a) + ToSet(b)|
    ensures |ToSet(a) * ToSet(b)| == 0 <==> ToSet(a) !! ToSet(b)
    ensures |ToSet(a + b)| == 0 <==> a == [] && b == []
  {
    ToSetConcat(a, b);
    SubsetCard(ToSet(a) * ToSet(b), ToSet(a + b));
    assert a != [] ==> a[0] in ToSet(a);
    assert b != [] ==> b[0] in ToSet(b);
    assert a == [] && b == [] ==> a + b == [];
    EmptyIntersection(ToSet(a), ToSet(b));
  }

  /** Two sets share nothing exactly when their intersection has no element. */
  lemma EmptyIntersection(x: set<string>, y: set<string>)
    ensures |x * y| == 0 <==> x !! y
  {
    if x !! y {
      assert x * y == {};
    } else {
      var t :| t in x && t in y;
      assert t in x * y;
    }
  }

  /** A subset is no larger than its superset. */
  lemma SubsetCard(x: set<string>, y: set<string>)
    requires x <= y
    ensures |x| <= |y|
  {
    assert y == x + (y - x);
    assert x * (y - x) == {};
  }

  /** The value of the division; Python raises ZeroDivisionError when `union` is 0. */
  function Ratio(s: Jaccard): real
    requires s.union > 0
  {
    s.inter as real / s.union as real
  }

  /** The acceptance threshold of `get_intent`. */
  const Threshold: real := 0.2

  /** A score lies in [0, 1]; it is 0 exactly when nothing is shared and 1
      exactly when every token is shared. */
  lemma RatioBounds(s: Jaccard)
    requires 0 < s.union && s.inter <= s.union
    ensures 0.0 <= Ratio(s) <= 1.0
    ensures Ratio(s) == 0.0 <==> s.inter == 0
    ensures Ratio(s) == 1.0 <==> s.inter == s.union
  {
    var r, i, u := Ratio(s), s.inter as real, s.union as real;
    assert r * u == i;
  }

  /** One score beats another exactly when the cross products say so. */
  lemma RatioGreater(a: Jaccard, b: Jaccard)
    requires a.union > 0 && b.union > 0
    ensures Ratio(a) > Ratio(b) <==> a.inter * b.union > b.inter * a.union
  {
    var ra, rb := Ratio(a), Ratio(b);
    var ua, ub := a.union as real, b.union as real;
    assert ra * ua == a.inter as real && rb * ub == b.inter as real;
    var cross := ua * ub;
    assert cross > 0.0;
    assert ra * cross == (a.inter * b.union) as real;
    assert rb * cross == (b.inter * a.union) as real;
    if ra > rb {
      assert ra * cross > rb * cross;
    } else {
      assert ra * cross <= rb * cross;
    }
  }

  /** Exceeding the threshold 0.2 is `5 * inter > union`. */
  lemma AboveThreshold(s: Jaccard)
    requires s.union > 0
    ensures Ratio(s) > Threshold <==> 5 * s.inter > s.union
  {
    RatioGreater(s, Jaccard(1, 5));
  }

  /** The score does not depend on which list is the input and which the pattern. */
  lemma SimilaritySymmetric(a: seq<string>, b: seq<string>)
    ensures Similarity(a, b) == Similarity(b, a)
  {
    ToSetConcat(a, b);
    ToSetConcat(b, a);
    assert ToSet(a) * ToSet(b) == ToSet(b) * ToSet(a);
    assert ToSet(a) + ToSet(b) == ToSet(b) + ToSet(a);
  }

  /** The score depends only on the two token sets: reordering or repeating
      tokens does not change it. */
  lemma SimilarityOfSets(a: seq<string>, a': seq<string>, b: seq<string>, b': seq<string>)
    requires ToSet(a) == ToSet(a') && ToSet(b) == ToSet(b')
    ensures Similarity(a, b) == Similarity(a', b')
  {
    ToSetConcat(a, b);
    ToSetConcat(a', b');
  }

  /** A non-empty token list scores 1 against itself. */
  lemma SelfSimilarity(a: seq<string>)
    requires a != []
    ensures Similarity(a, a).union > 0 && Ratio(Similarity(a, a)) == 1.0
  {
    var s := Similarity(a, a);
    ToSetConcat(a, a);
    assert ToSet(a) * ToSet(a) == ToSet(a) + ToSet(a);
    RatioBounds(s);
  }
}
