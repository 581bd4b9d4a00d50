/**
  What `get_intent` computes, as a specification: every (intent, pattern) pair
  of the catalog is scored in turn, and a left-to-right scan over the scores keeps
  the best so far, replacing it only with a strictly better score above the
  threshold.
 */
module Matcher {
  import opened Faults
  import opened Normalizer
  import opened Scoring
  import opened Catalog

  /** One pattern of the catalog, with the intent owning it. */
  datatype Candidate = Candidate(intent: string, pattern: string)

  /** The patterns `ps` of intent `name`, in declaration order. */
  function PatternsOf(name: string, ps: seq<string>): (r: seq<Candidate>)
    ensures |r| == |ps|
  {
    if ps == [] then [] else [Candidate(name, ps[0])] + PatternsOf(name, ps[1..])
  }

  /** Pair `j` of an intent is its pattern `j`. */
  lemma {:induction false} PatternsOfAt(name: string, ps: seq<string>, j: nat)
    requires j < |ps|
    ensures PatternsOf(name, ps)[j] == Candidate(name, ps[j])
  {
    if j > 0 {
      PatternsOfAt(name, ps[1..], j - 1);
    }
  }

  /** Every (intent, pattern) pair in the order the nested loops of `get_intent`
      visit them: intents in catalog order, then patterns within an intent. */
  function Candidates(intents: seq<Intent>): seq<Candidate>
    decreases |intents|
  {
    if intents == [] then []
    else Candidates(intents[..|intents| - 1]) + PatternsOf(intents[|intents| - 1].name, intents[|intents| - 1].patterns)
  }

  /** The pairs of the first `i` intents come first among all pairs. */
  lemma {:induction false} CandidatesPrefix(intents: seq<Intent>, i: nat)
    requires i <= |intents|
    ensures Candidates(intents[..i]) <= Candidates(intents)
    decreases |intents| - i
  {
    if i < |intents| {
      CandidatesPrefix(intents, i + 1);
      assert intents[..i + 1][..i] == intents[..i];
    } else {
      assert intents[..i] == intents;
    }
  }

  /** The number of patterns of the first `i` intents: where the pairs of
      intent `i` start in the visiting order. */
  function Offset(intents: seq<Intent>, i: nat): nat
    requires i <= |intents|
  {
    if i == 0 then 0 else Offset(intents, i - 1) + |intents[i - 1].patterns|
  }

  /** The pairs of the first `i + 1` intents are those of the first `i` followed
      by the patterns of intent `i`. */
  lemma CandidatesGrow(intents: seq<Intent>, i: nat)
    requires i < |intents|
    ensures Candidates(intents[..i + 1]) == Candidates(intents[..i]) + PatternsOf(intents[i].name, intents[i].patterns)
  {
    assert intents[..i + 1][..i] == intents[..i];
  }

  /** The offset of intent `i` counts the pairs of the intents before it, and no
      more than all pairs. */
  lemma {:induction false} OffsetCounts(intents: seq<Intent>, i: nat)
    requires i <= |intents|
    ensures Offset(intents, i) == |Candidates(intents[..i])| <= |Candidates(intents)|
    ensures i == |intents| ==> Offset(intents, i) == |Candidates(intents)|
  {
    CandidatesPrefix(intents, i);
    if i == 0 {
      assert intents[..0] == [];
    } else {
      OffsetCounts(intents, i - 1);
      CandidatesGrow(intents, i - 1);
    }
    if i == |intents| {
      assert intents[..i] == intents;
    }
  }

  /** The pairs of the intents before `i` are among all pairs, and those of all
      intents are all pairs. */
  lemma OffsetBound(intents: seq<Intent>, i: nat)
    requires i <= |intents|
    ensures Offset(intents, i) <= |Candidates(intents)|
    ensures i == |intents| ==> Offset(intents, i) == |Candidates(intents)|
  {
    OffsetCounts(intents, i);
  }

  /** Where pattern `j` of intent `i` sits among all pairs. */
  lemma CandidateAt(intents: seq<Intent>, i: nat, j: nat)
    requires i < |intents| && j < |intents[i].patterns|
    ensures Offset(intents, i) + j < |Candidates(intents)|
    ensures Candidates(intents)[Offset(intents, i) + j] == Candidate(intents[i].name, intents[i].patterns[j])
  {
    OffsetCounts(intents, i);
    CandidatesPrefix(intents, i + 1);
    CandidatesGrow(intents, i);
    var before := Candidates(intents[..i]);
    var own := PatternsOf(intents[i].name, intents[i].patterns);
    PatternsOfAt(intents[i].name, intents[i].patterns, j);
    assert Candidates(intents[..i + 1])[|before| + j] == own[j];
  }

  /** Every pair is a pattern of some intent of the catalog. */
  lemma {:induction false} CandidateOrigin(intents: seq<Intent>, k: nat)
    requires k < |Candidates(intents)|
    ensures exists i, j :: 0 <= i < |intents| && 0 <= j < |intents[i].patterns| &&
                           Candidates(intents)[k] == Candidate(intents[i].name, intents[i].patterns[j])
    decreases |intents|
  {
    var last := |intents| - 1;
    var front := intents[..last];
    var before := Candidates(front);
    if k < |before| {
      CandidateOrigin(front, k);
      var i, j :| 0 <= i < |front| && 0 <= j < |front[i].patterns| &&
        before[k] == Candidate(front[i].name, front[i].patterns[j]);
      assert front[i] == intents[i];
    } else {
      PatternsOfAt(intents[last].name, intents[last].patterns, k - |before|);
      assert Candidates(intents)[k] == PatternsOf(intents[last].name, intents[last].patterns)[k - |before|];
    }
  }

  /** The counts of the score of a pattern: the input's tokens against the
      pattern's tokens after `preprocess_text`. */
  function PatternScore(tools: Tools, tokens: seq<string>, pattern: string): Jaccard
  {
    Similarity(tokens, Preprocess(tools, pattern))
  }

  /** The score counts of the pairs `cs`, in order. */
  function Scores(tools: Tools, tokens: seq<string>, cs: seq<Candidate>): (ss: seq<Jaccard>)
    ensures |ss| == |cs|
  {
    if cs == [] then [] else [PatternScore(tools, tokens, cs[0].pattern)] + Scores(tools, tokens, cs[1..])
  }

  /** The score counts at position `k` are those of pair `k`. */
  lemma {:induction false} ScoreAt(tools: Tools, tokens: seq<string>, cs: seq<Candidate>, k: nat)
    requires k < |cs|
    ensures Scores(tools, tokens, cs)[k] == PatternScore(tools, tokens, cs[k].pattern)
  {
    if k > 0 {
      ScoreAt(tools, tokens, cs[1..], k - 1);
    }
  }

  /** The score of pattern `j` of intent `i` sits right after the pairs of the
      intents before `i`. */
  lemma PatternScoreAt(tools: Tools, intents: seq<Intent>, tokens: seq<string>, i: nat, j: nat)
    requires i < |intents| && j < |intents[i].patterns|
    ensures Offset(intents, i) + j < |Candidates(intents)|
    ensures Scores(tools, tokens, Candidates(intents))[Offset(intents, i) + j]
         == PatternScore(tools, tokens, intents[i].patterns[j])
  {
    CandidateAt(intents, i, j);
    ScoreOfPair(tools, tokens, Candidates(intents), Offset(intents, i) + j, intents[i].patterns[j]);
  }

  /** The score at a position holding `pattern` is the score of `pattern`. */
  lemma ScoreOfPair(tools: Tools, tokens: seq<string>, cs: seq<Candidate>, k: nat, pattern: string)
    requires k < |cs| && cs[k].pattern == pattern
    ensures Scores(tools, tokens, cs)[k] == PatternScore(tools, tokens, pattern)
  {
    ScoreAt(tools, tokens, cs, k);
  }

  /** Every score is a fraction of at most one, and its division can be carried
      out when the input has a token. */
  lemma ScoresBounded(tools: Tools, tokens: seq<string>, cs: seq<Candidate>)
    ensures forall k :: 0 <= k < |cs| ==> Scores(tools, tokens, cs)[k].inter <= Scores(tools, tokens, cs)[k].union
    ensures tokens != [] ==> forall k :: 0 <= k < |cs| ==> Scores(tools, tokens, cs)[k].union > 0
  {
    forall k | 0 <= k < |cs|
      ensures Scores(tools, tokens, cs)[k].inter <= Scores(tools, tokens, cs)[k].union
      ensures tokens != [] ==> Scores(tools, tokens, cs)[k].union > 0
    {
      ScoreAt(tools, tokens, cs, k);
    }
  }

  /** The local state of `get_intent`: `max_similarity`, and the position of the
      pair that set it (`matched_intent` is the intent of that pair). */
  datatype Best = Best(max: real, at: Option<nat>)

  /** The intent recorded at a position, or None. */
  function IntentAt(cs: seq<Candidate>, at: Option<nat>): Option<string>
    requires at.Some? ==> at.value < |cs|
  {
    if at.Some? then Some(cs[at.value].intent) else None
  }

  /** The state after the first `n` scores; a score whose division is by zero
      raises, and nothing after it runs. */
  function Scan(ss: seq<Jaccard>, n: nat): (r: Result<Best>)
    requires n <= |ss|
    ensures r.Ok? && r.value.at.Some? ==> r.value.at.value < n
  {
    if n == 0 then Ok(Best(0.0, None))
    else
      match Scan(ss, n - 1)
      case Raised(f) => Raised(f)
      case Ok(best) =>
        if ss[n - 1].union == 0 then Raised(ZeroDivision)
        else if Ratio(ss[n - 1]) > best.max && Ratio(ss[n - 1]) > Threshold then Ok(Best(Ratio(ss[n - 1]), Some(n - 1)))
        else Ok(best)
  }

  /** `get_intent(tokens)` against the catalog `intents`. */
  function Resolve(tools: Tools, intents: seq<Intent>, tokens: seq<string>): Result<Option<string>>
  {
    var cs := Candidates(intents);
    match Scan(Scores(tools, tokens, cs), |cs|)
    case Raised(f) => Raised(f)
    case Ok(best) => Ok(IntentAt(cs, best.at))
  }

  /** Position `k` holds the first of the best scores among the first `n`, and
      that score is above the threshold. */
  ghost predicate IsFirstBest(ss: seq<Jaccard>, n: nat, k: nat)
  {
    && k < n <= |ss|
    && (forall j :: 0 <= j < n ==> ss[j].union > 0)
    && Ratio(ss[k]) > Threshold
    && (forall j :: 0 <= j < n ==> Ratio(ss[j]) <= Ratio(ss[k]))
    && (forall j :: 0 <= j < k ==> Ratio(ss[j]) < Ratio(ss[k]))
  }

  /** The scan raises exactly when one of the first `n` scores divides by zero,
      and then the fault is ZeroDivisionError. */
  lemma {:induction false} ScanRaises(ss: seq<Jaccard>, n: nat)
    requires n <= |ss|
    ensures Scan(ss, n).Raised? <==> exists j :: 0 <= j < n && ss[j].union == 0
    ensures Scan(ss, n).Raised? ==> Scan(ss, n).fault == ZeroDivision
  {
    if n > 0 {
      ScanRaises(ss, n - 1);
      var prev := Scan(ss, n - 1);
      if prev.Raised? {
        assert Scan(ss, n) == prev;
      } else if ss[n - 1].union == 0 {
        assert Scan(ss, n) == Raised(ZeroDivision);
      } else {
        assert Scan(ss, n).Ok?;
        assert forall j :: 0 <= j < n ==> ss[j].union > 0;
      }
    }
  }

  /** When the scan has not raised, it has recorded no position exactly when none
      of the first `n` scores is above the threshold (and `max_similarity` is
      still 0), and otherwise the first best position, with its score. */
  lemma {:induction false} ScanFindsFirstBest(ss: seq<Jaccard>, n: nat)
    requires n <= |ss|
    requires Scan(ss, n).Ok?
    ensures forall j :: 0 <= j < n ==> ss[j].union > 0
    ensures var best := Scan(ss, n).value;
      && (best.at.None? ==> best.max == 0.0 && forall j :: 0 <= j < n ==> Ratio(ss[j]) <= Threshold)
      && (best.at.Some? ==> IsFirstBest(ss, n, best.at.value) && best.max == Ratio(ss[best.at.value]))
  {
    ScanRaises(ss, n);
    if n > 0 {
      ScanFindsFirstBest(ss, n - 1);
      var best := Scan(ss, n - 1).value;
      var r := Ratio(ss[n - 1]);
      if r > best.max && r > Threshold {
        assert Scan(ss, n).value == Best(r, Some(n - 1));
        forall j | 0 <= j < n - 1 ensures Ratio(ss[j]) < r {
          if best.at.Some? {
            assert Ratio(ss[j]) <= best.max;
          }
        }
        assert IsFirstBest(ss, n, n - 1);
      } else {
        assert Scan(ss, n).value == best;
        if best.at.Some? {
          var k := best.at.value;
          assert IsFirstBest(ss, n - 1, k);
          assert r <= best.max;
          assert IsFirstBest(ss, n, k);
        } else {
          assert r <= Threshold;
        }
      }
    }
  }

  /** Once the scan has raised, it stays raised. */
  lemma {:induction false} ScanRaisedStays(ss: seq<Jaccard>, n: nat, m: nat)
    requires n <= m <= |ss|
    requires Scan(ss, n).Raised?
    ensures Scan(ss, m) == Scan(ss, n)
    decreases m - n
  {
    if n < m {
      ScanRaisedStays(ss, n, m - 1);
    }
  }

  /** Two first-best positions are the same position. */
  lemma FirstBestUnique(ss: seq<Jaccard>, n: nat, k1: nat, k2: nat)
    requires IsFirstBest(ss, n, k1) && IsFirstBest(ss, n, k2)
    ensures k1 == k2
  {
  }

  /** A score of 1 is matched unless an earlier score is 1 too: when every
      division can be carried out, the scan ends having recorded a position no
      later than it. */
  lemma PerfectScoreWins(ss: seq<Jaccard>, p: nat)
    requires p < |ss|
    requires forall j :: 0 <= j < |ss| ==> 0 < ss[j].union && ss[j].inter <= ss[j].union
    requires Ratio(ss[p]) == 1.0
    ensures Scan(ss, |ss|).Ok?
    ensures Scan(ss, |ss|).value.at.Some? && Scan(ss, |ss|).value.at.value <= p
  {
    forall j | 0 <= j < |ss| ensures Ratio(ss[j]) <= 1.0 {
      RatioBounds(ss[j]);
    }
    ScanRaises(ss, |ss|);
    ScanFindsFirstBest(ss, |ss|);
    assert !(Ratio(ss[p]) <= Threshold);
  }

  /** `get_intent` raises ZeroDivisionError exactly when the input has no token
      and some pattern of the catalog normalises to no token either. */
  lemma ResolveRaises(tools: Tools, intents: seq<Intent>, tokens: seq<string>)
    ensures Resolve(tools, intents, tokens).Raised? <==>
      tokens == [] && exists i, j :: 0 <= i < |intents| && 0 <= j < |intents[i].patterns| &&
                                    Preprocess(tools, intents[i].patterns[j]) == []
    ensures Resolve(tools, intents, tokens).Raised? ==> Resolve(tools, intents, tokens).fault == ZeroDivision
  {
    var cs := Candidates(intents);
    var ss := Scores(tools, tokens, cs);
    ScanRaises(ss, |ss|);
    if Resolve(tools, intents, tokens).Raised? {
      var k :| 0 <= k < |ss| && ss[k].union == 0;
      UndividedPair(tools, intents, tokens, k);
    }
    if tokens == [] && exists i, j :: 0 <= i < |intents| && 0 <= j < |intents[i].patterns| &&
                                      Preprocess(tools, intents[i].patterns[j]) == [] {
      var i, j :| 0 <= i < |intents| && 0 <= j < |intents[i].patterns| &&
                  Preprocess(tools, intents[i].patterns[j]) == [];
      var k := UndividedPattern(tools, intents, tokens, i, j);
    }
  }

  /** A pair whose division is by zero comes from an empty input and a pattern
      of the catalog that normalises to no token. */
  lemma UndividedPair(tools: Tools, intents: seq<Intent>, tokens: seq<string>, k: nat)
    requires k < |Candidates(intents)| && Scores(tools, tokens, Candidates(intents))[k].union == 0
    ensures tokens == [] && exists i, j :: 0 <= i < |intents| && 0 <= j < |intents[i].patterns| &&
                                          Preprocess(tools, intents[i].patterns[j]) == []
  {
    var cs := Candidates(intents);
    ScoreAt(tools, tokens, cs, k);
    CandidateOrigin(intents, k);
    var i, j :| 0 <= i < |intents| && 0 <= j < |intents[i].patterns| &&
                cs[k] == Candidate(intents[i].name, intents[i].patterns[j]);
    assert Preprocess(tools, intents[i].patterns[j]) == [];
  }

  /** With an empty input, a pattern that normalises to no token gives a pair
      whose division is by zero. */
  lemma UndividedPattern(tools: Tools, intents: seq<Intent>, tokens: seq<string>, i: nat, j: nat) returns (k: nat)
    requires i < |intents| && j < |intents[i].patterns|
    requires tokens == [] && Preprocess(tools, intents[i].patterns[j]) == []
    ensures k < |Candidates(intents)| && Scores(tools, tokens, Candidates(intents))[k].union == 0
  {
    PatternScoreAt(tools, intents, tokens, i, j);
    k := Offset(intents, i) + j;
  }


  /** The scan ends with no position recorded exactly when every one of the
      first `n` scores can be computed and none is above the threshold. */
  lemma ScanNone(ss: seq<Jaccard>, n: nat)
    requires n <= |ss|
    ensures Scan(ss, n).Ok? && Scan(ss, n).value.at.None? <==>
      forall j :: 0 <= j < n ==> ss[j].union > 0 && Ratio(ss[j]) <= Threshold
  {
    ScanRaises(ss, n);
    if Scan(ss, n).Ok? {
      ScanFindsFirstBest(ss, n);
    }
  }

  /** `get_intent` returns None exactly when every pair can be scored and none
      scores above 0.2. */
  lemma ResolveNone(tools: Tools, intents: seq<Intent>, tokens: seq<string>)
    ensures Resolve(tools, intents, tokens) == Ok(None) <==>
      forall k :: 0 <= k < |Candidates(intents)| ==>
        PatternScore(tools, tokens, Candidates(intents)[k].pattern).union > 0 &&
        Ratio(PatternScore(tools, tokens, Candidates(intents)[k].pattern)) <= Threshold
  {
    var cs := Candidates(intents);
    var ss := Scores(tools, tokens, cs);
    ScanNone(ss, |ss|);
    if Resolve(tools, intents, tokens) == Ok(None) {
      forall k | 0 <= k < |cs|
        ensures PatternScore(tools, tokens, cs[k].pattern).union > 0 && Ratio(PatternScore(tools, tokens, cs[k].pattern)) <= Threshold
      {
        ScoreAt(tools, tokens, cs, k);
      }
    }
    if forall k :: 0 <= k < |cs| ==>
         PatternScore(tools, tokens, cs[k].pattern).union > 0 && Ratio(PatternScore(tools, tokens, cs[k].pattern)) <= Threshold {
      forall j | 0 <= j < |ss| ensures ss[j].union > 0 && Ratio(ss[j]) <= Threshold {
        ScoreAt(tools, tokens, cs, j);
      }
    }
  }

  /** A name `get_intent` returns is the intent of the first best pair. */
  lemma ResolveSomeIsFirstBest(tools: Tools, intents: seq<Intent>, tokens: seq<string>, name: string)
    requires Resolve(tools, intents, tokens) == Ok(Some(name))
    ensures exists k :: 0 <= k < |Candidates(intents)| &&
                        IsFirstBest(Scores(tools, tokens, Candidates(intents)), |Candidates(intents)|, k) &&
                        Candidates(intents)[k].intent == name
  {
    var cs := Candidates(intents);
    var ss := Scores(tools, tokens, cs);
    ScanFindsFirstBest(ss, |ss|);
    var k := Scan(ss, |ss|).value.at.value;
    assert IsFirstBest(ss, |cs|, k) && cs[k].intent == name;
  }

  /** The first best pair, when it scores above 0.2, decides what `get_intent`
      returns. */
  lemma FirstBestIsResolved(tools: Tools, intents: seq<Intent>, tokens: seq<string>, k: nat)
    requires IsFirstBest(Scores(tools, tokens, Candidates(intents)), |Candidates(intents)|, k)
    ensures Resolve(tools, intents, tokens) == Ok(Some(Candidates(intents)[k].intent))
  {
    var cs := Candidates(intents);
    var ss := Scores(tools, tokens, cs);
    ScanRaises(ss, |ss|);
    ScanFindsFirstBest(ss, |ss|);
    var best := Scan(ss, |ss|).value;
    assert !(Ratio(ss[k]) <= Threshold);
    assert best.at.Some?;
    FirstBestUnique(ss, |ss|, k, best.at.value);
  }

  /** `get_intent` returns `name` exactly when the first of the best-scoring
      pairs scores above 0.2 and belongs to the intent `name`: a later pair that
      only ties does not replace it. */
  lemma ResolveSome(tools: Tools, intents: seq<Intent>, tokens: seq<string>, name: string)
    ensures Resolve(tools, intents, tokens) == Ok(Some(name)) <==>
      exists k :: 0 <= k < |Candidates(intents)| &&
                  IsFirstBest(Scores(tools, tokens, Candidates(intents)), |Candidates(intents)|, k) &&
                  Candidates(intents)[k].intent == name
  {
    var cs := Candidates(intents);
    var ss := Scores(tools, tokens, cs);
    if Resolve(tools, intents, tokens) == Ok(Some(name)) {
      ResolveSomeIsFirstBest(tools, intents, tokens, name);
    }
    if k :| 0 <= k < |cs| && IsFirstBest(ss, |cs|, k) && cs[k].intent == name {
      FirstBestIsResolved(tools, intents, tokens, k);
    }
  }

  /** An input without tokens matches nothing, provided every pattern
      normalises to at least one token. */
  lemma EmptyInputMatchesNothing(tools: Tools, intents: seq<Intent>)
    requires forall i, j :: 0 <= i < |intents| && 0 <= j < |intents[i].patterns| ==>
      Preprocess(tools, intents[i].patterns[j]) != []
    ensures Resolve(tools, intents, []) == Ok(None)
  {
    var cs := Candidates(intents);
    forall k | 0 <= k < |cs|
      ensures PatternScore(tools, [], cs[k].pattern).union > 0 && Ratio(PatternScore(tools, [], cs[k].pattern)) <= Threshold
    {
      CandidateOrigin(intents, k);
      RatioBounds(PatternScore(tools, [], cs[k].pattern));
    }
    ResolveNone(tools, intents, []);
  }

  /** Every pattern of the loaded catalog normalises to at least one token. */
  lemma CatalogPatternsHaveTokens(tools: Tools)
    requires AsciiLettersAreWords(tools)
    ensures forall i, j :: 0 <= i < |Intents()| && 0 <= j < |Intents()[i].patterns| ==>
      Preprocess(tools, Intents()[i].patterns[j]) != []
  {
    CatalogPatternsHaveLetters();
    forall i, j | 0 <= i < |Intents()| && 0 <= j < |Intents()[i].patterns|
      ensures Preprocess(tools, Intents()[i].patterns[j]) != []
    {
      var p := Intents()[i].patterns[j];
      var at :| 0 <= at < |p| && 'a' <= p[at] <= 'z';
      TokensOfLetter(tools, p, at);
    }
  }

  /** With the loaded catalog `get_intent` never divides by zero. */
  lemma CatalogNeverRaises(tools: Tools, tokens: seq<string>)
    requires AsciiLettersAreWords(tools)
    ensures Resolve(tools, Intents(), tokens).Ok?
  {
    CatalogPatternsHaveTokens(tools);
    ResolveRaises(tools, Intents(), tokens);
  }

  /** With the loaded catalog, an input without tokens (the empty string, say)
      matches no intent. */
  lemma CatalogEmptyInput(tools: Tools)
    requires AsciiLettersAreWords(tools)
    ensures Resolve(tools, Intents(), []) == Ok(None)
  {
    CatalogPatternsHaveTokens(tools);
    EmptyInputMatchesNothing(tools, Intents());
  }

  /** Typing a pattern of the first intent selects the first intent, whatever
      the later intents hold: the pattern scores 1 against itself, and no later
      pair can do better than a tie, which does not replace it. */
  lemma FirstIntentPatternWins(tools: Tools, intents: seq<Intent>, j: nat)
    requires intents != [] && j < |intents[0].patterns|
    requires Preprocess(tools, intents[0].patterns[j]) != []
    ensures Resolve(tools, intents, Preprocess(tools, intents[0].patterns[j])) == Ok(Some(intents[0].name))
  {
    var tokens := Preprocess(tools, intents[0].patterns[j]);
    var cs := Candidates(intents);
    var ss := Scores(tools, tokens, cs);
    FirstIntentComesFirst(intents, j);
    ScoreAt(tools, tokens, cs, j);
    SelfSimilarity(tokens);
    ScoresBounded(tools, tokens, cs);
    PerfectScoreWins(ss, j);
    var k := Scan(ss, |ss|).value.at.value;
    FirstIntentComesFirst(intents, k);
  }

  /** The patterns of the first intent are the first pairs visited. */
  lemma FirstIntentComesFirst(intents: seq<Intent>, j: nat)
    requires intents != [] && j < |intents[0].patterns|
    ensures j < |Candidates(intents)| && Candidates(intents)[j] == Candidate(intents[0].name, intents[0].patterns[j])
  {
    assert Offset(intents, 0) == 0;
    CandidateAt(intents, 0, j);
  }

  /** "ça va" is a pattern of `salutations` and of `humeur`; since a tie does not
      replace the best so far, the input "ça va" resolves to `salutations`
      (whenever it normalises to some token at all). */
  lemma SharedPatternGoesToSalutations(tools: Tools)
    requires Preprocess(tools, "ça va") != []
    ensures Resolve(tools, Intents(), Preprocess(tools, "ça va")) == Ok(Some("salutations"))
  {
    SharedPattern();
    FirstIntentPatternWins(tools, Intents(), 8);
  }

  /** The locals of `get_intent` between two patterns: `max_similarity` and
      `matched_intent`. */
  datatype State = State(max: real, matched: Option<string>)

  /** The scores of the patterns `ps`, in order. */
  function RowScores(tools: Tools, tokens: seq<string>, ps: seq<string>): (row: seq<Jaccard>)
    ensures |row| == |ps|
  {
    if ps == [] then [] else [PatternScore(tools, tokens, ps[0])] + RowScores(tools, tokens, ps[1..])
  }

  /** The scores of every intent's patterns, one row per intent. */
  function ScoreTable(tools: Tools, tokens: seq<string>, intents: seq<Intent>): (table: seq<seq<Jaccard>>)
    ensures |table| == |intents|
  {
    if intents == [] then []
    else [RowScores(tools, tokens, intents[0].patterns)] + ScoreTable(tools, tokens, intents[1..])
  }

  /** Entry `(i, j)` of the table is the score of pattern `j` of intent `i`, and
      row `i` has one entry per pattern. */
  lemma {:induction false} TableAt(tools: Tools, tokens: seq<string>, intents: seq<Intent>, i: nat, j: nat)
    requires i < |intents| && j < |intents[i].patterns|
    ensures |ScoreTable(tools, tokens, intents)[i]| == |intents[i].patterns|
    ensures ScoreTable(tools, tokens, intents)[i][j] == PatternScore(tools, tokens, intents[i].patterns[j])
  {
    if i > 0 {
      TableAt(tools, tokens, intents[1..], i - 1, j);
    } else {
      RowAt(tools, tokens, intents[0].patterns, j);
    }
  }

  /** Entry `j` of a row is the score of pattern `j`. */
  lemma {:induction false} RowAt(tools: Tools, tokens: seq<string>, ps: seq<string>, j: nat)
    requires j < |ps|
    ensures RowScores(tools, tokens, ps)[j] == PatternScore(tools, tokens, ps[j])
  {
    if j > 0 {
      RowAt(tools, tokens, ps[1..], j - 1);
    }
  }

  /** Every row of the table has one entry per pattern. */
  lemma {:induction false} TableRowLength(tools: Tools, tokens: seq<string>, intents: seq<Intent>, i: nat)
    requires i < |intents|
    ensures |ScoreTable(tools, tokens, intents)[i]| == |intents[i].patterns|
  {
    if i > 0 {
      TableRowLength(tools, tokens, intents[1..], i - 1);
    }
  }

  /** Row `i` of the table is the row of scores of intent `i`'s patterns. */
  lemma {:induction false} TableRow(tools: Tools, tokens: seq<string>, intents: seq<Intent>, i: nat)
    requires i < |intents|
    ensures ScoreTable(tools, tokens, intents)[i] == RowScores(tools, tokens, intents[i].patterns)
  {
    if i > 0 {
      TableRow(tools, tokens, intents[1..], i - 1);
    }
  }

  /** The body of the inner loop of `get_intent` once the score `s` of a pattern
      of intent `name` is known: the division raises on an empty denominator, and
      a score above both the best so far and the threshold is recorded. */
  function Advance(s: Jaccard, name: string, st: State): Result<State>
  {
    if s.union == 0 then Raised(ZeroDivision)
    else if Ratio(s) > st.max && Ratio(s) > Threshold then Ok(State(Ratio(s), Some(name)))
    else Ok(st)
  }

  /** One more pattern: nothing runs once an exception is raised. */
  function Continue(s: Jaccard, name: string, prev: Result<State>): Result<State>
  {
    match prev
    case Raised(f) => Raised(f)
    case Ok(st) => Advance(s, name, st)
  }

  /** The inner loop over the first `n` patterns of intent `name`, whose scores
      are `row`, from `start`. */
  function ScanPatterns(row: seq<Jaccard>, name: string, n: nat, start: Result<State>): Result<State>
    requires n <= |row|
  {
    if n == 0 then start
    else Continue(row[n - 1], name, ScanPatterns(row, name, n - 1, start))
  }

  /** One pass of the inner loop's body: from the locals reached after `j`
      patterns, the body run on score `s` of pattern `j` gives the locals after
      `j + 1` patterns. */
  lemma PatternStep(row: seq<Jaccard>, name: string, j: nat, start: Result<State>, st: State, s: Jaccard)
    requires j < |row| && row[j] == s
    requires ScanPatterns(row, name, j, start) == Ok(st)
    ensures ScanPatterns(row, name, j + 1, start) == Advance(s, name, st)
  {
  }

  /** The outer loop over the first `i` intents, whose scores are `table`. */
  function ScanIntents(table: seq<seq<Jaccard>>, intents: seq<Intent>, i: nat): Result<State>
    requires i <= |intents| == |table|
  {
    if i == 0 then Ok(State(0.0, None))
    else ScanPatterns(table[i - 1], intents[i - 1].name, |table[i - 1]|, ScanIntents(table, intents, i - 1))
  }

  /** One pass of the outer loop's body: the inner loop run over all patterns of
      intent `i` leads from the locals after `i` intents to those after `i + 1`. */
  lemma IntentStep(table: seq<seq<Jaccard>>, intents: seq<Intent>, i: nat)
    requires i < |intents| == |table|
    ensures ScanIntents(table, intents, i + 1)
            == ScanPatterns(table[i], intents[i].name, |table[i]|, ScanIntents(table, intents, i))
  {
  }

  /** The flat scan's state, read as the locals of `get_intent`. */
  function AsState(q: Result<Best>, cs: seq<Candidate>): Result<State>
    requires q.Ok? && q.value.at.Some? ==> q.value.at.value < |cs|
  {
    match q
    case Raised(f) => Raised(f)
    case Ok(b) => Ok(State(b.max, IntentAt(cs, b.at)))
  }

  /** The first `n` scores of `row`, for intent `name`, sit in the flat
      sequences from position `d` on. */
  ghost predicate Aligned(row: seq<Jaccard>, name: string, ss: seq<Jaccard>, cs: seq<Candidate>, d: nat, n: nat)
    decreases n
  {
    && n <= |row| && d + n <= |ss| == |cs|
    && (n > 0 ==> Aligned(row, name, ss, cs, d, n - 1) && ss[d + n - 1] == row[n - 1] && cs[d + n - 1].intent == name)
  }

  /** One pair more on both sides: the nested loops and the flat scan take the
      same step. */
  lemma StepAgrees(ss: seq<Jaccard>, cs: seq<Candidate>, n: nat, name: string, s: Jaccard, prev: Result<State>)
    requires n < |ss| == |cs| && ss[n] == s && cs[n].intent == name
    requires prev == AsState(Scan(ss, n), cs)
    ensures Continue(s, name, prev) == AsState(Scan(ss, n + 1), cs)
  {
  }

  /** Over an aligned row, the inner loop takes the steps the flat scan takes. */
  lemma {:induction false} PatternsAgree(row: seq<Jaccard>, name: string, ss: seq<Jaccard>, cs: seq<Candidate>,
                                         d: nat, j: nat, start: Result<State>)
    requires Aligned(row, name, ss, cs, d, j)
    requires start == AsState(Scan(ss, d), cs)
    ensures ScanPatterns(row, name, j, start) == AsState(Scan(ss, d + j), cs)
  {
    if j > 0 {
      PatternsAgree(row, name, ss, cs, d, j - 1, start);
      StepAgrees(ss, cs, d + j - 1, name, row[j - 1], ScanPatterns(row, name, j - 1, start));
    }
  }

  /** Pattern `k` of intent `i`: its entry in the table is the flat score at that
      pair's place, and the pair belongs to intent `i`. */
  lemma BlockEntry(tools: Tools, tokens: seq<string>, intents: seq<Intent>, i: nat, k: nat)
    requires i < |intents| && k < |intents[i].patterns|
    ensures Offset(intents, i) + k < |Candidates(intents)|
    ensures |ScoreTable(tools, tokens, intents)[i]| == |intents[i].patterns|
    ensures Scores(tools, tokens, Candidates(intents))[Offset(intents, i) + k] == ScoreTable(tools, tokens, intents)[i][k]
    ensures Candidates(intents)[Offset(intents, i) + k].intent == intents[i].name
    ensures Placed(ScoreTable(tools, tokens, intents)[i], intents[i].name, Scores(tools, tokens, Candidates(intents)),
                   Candidates(intents), Offset(intents, i), k)
  {
    CandidateAt(intents, i, k);
    PatternScoreAt(tools, intents, tokens, i, k);
    TableAt(tools, tokens, intents, i, k);
  }

  /** Entry `k` of `row`, for intent `name`, sits at position `d + k` of the flat
      sequences. */
  ghost predicate Placed(row: seq<Jaccard>, name: string, ss: seq<Jaccard>, cs: seq<Candidate>, d: nat, k: nat)
  {
    k < |row| && d + k < |ss| && d + k < |cs| && ss[d + k] == row[k] && cs[d + k].intent == name
  }

  /** A row whose entries all sit in their places from position `d` on is
      aligned there. */
  lemma {:induction false} AlignedFrom(row: seq<Jaccard>, name: string, ss: seq<Jaccard>, cs: seq<Candidate>,
                                       d: nat, n: nat)
    requires n <= |row| && d + n <= |ss| == |cs|
    requires forall k :: 0 <= k < n ==> Placed(row, name, ss, cs, d, k)
    ensures Aligned(row, name, ss, cs, d, n)
  {
    if n > 0 {
      assert Placed(row, name, ss, cs, d, n - 1);
      AlignedFrom(row, name, ss, cs, d, n - 1);
    }
  }

  /** The row of intent `i` has one entry per pattern and is aligned with the
      catalog's pairs at the offset of intent `i`. */
  lemma IntentRow(tools: Tools, tokens: seq<string>, intents: seq<Intent>, i: nat)
    requires i < |intents|
    ensures |ScoreTable(tools, tokens, intents)[i]| == |intents[i].patterns|
    ensures Aligned(ScoreTable(tools, tokens, intents)[i], intents[i].name, Scores(tools, tokens, Candidates(intents)),
                    Candidates(intents), Offset(intents, i), |ScoreTable(tools, tokens, intents)[i]|)
  {
    TableRowLength(tools, tokens, intents, i);
    OffsetBound(intents, i + 1);
    var row, cs := ScoreTable(tools, tokens, intents)[i], Candidates(intents);
    var ss, d := Scores(tools, tokens, cs), Offset(intents, i);
    assert d + |row| == Offset(intents, i + 1) <= |cs| == |ss|;
    forall k | 0 <= k < |row|
      ensures Placed(row, intents[i].name, ss, cs, d, k)
    {
      BlockEntry(tools, tokens, intents, i, k);
    }
    AlignedFrom(row, intents[i].name, ss, cs, d, |row|);
  }

  /** After the first `i` intents, the nested loops are where the flat scan is
      after the pairs of those intents, whenever every row is aligned with the
      pairs of its intent. */
  lemma {:induction false} IntentsAgree(table: seq<seq<Jaccard>>, intents: seq<Intent>, ss: seq<Jaccard>,
                                        cs: seq<Candidate>, i: nat)
    requires i <= |intents| == |table| && |ss| == |cs|
    requires forall k {:trigger table[k]} :: 0 <= k < |intents| ==>
      Aligned(table[k], intents[k].name, ss, cs, Offset(intents, k), |table[k]|) &&
      |table[k]| == |intents[k].patterns|
    ensures Offset(intents, i) <= |ss|
    ensures ScanIntents(table, intents, i) == AsState(Scan(ss, Offset(intents, i)), cs)
  {
    if i > 0 {
      IntentsAgree(table, intents, ss, cs, i - 1);
      IntentAgrees(table, intents, ss, cs, i - 1, Offset(intents, i - 1), Offset(intents, i));
    }
  }

  /** One intent more: if the nested loops are where the flat scan is before the
      row of intent `i`, they are where it is after that row. */
  lemma IntentAgrees(table: seq<seq<Jaccard>>, intents: seq<Intent>, ss: seq<Jaccard>, cs: seq<Candidate>,
                     i: nat, d: nat, e: nat)
    requires i < |intents| == |table|
    requires Aligned(table[i], intents[i].name, ss, cs, d, |table[i]|) && e == d + |table[i]|
    requires ScanIntents(table, intents, i) == AsState(Scan(ss, d), cs)
    ensures ScanIntents(table, intents, i + 1) == AsState(Scan(ss, e), cs)
  {
    PatternsAgree(table[i], intents[i].name, ss, cs, d, |table[i]|, ScanIntents(table, intents, i));
  }

  /** What the nested loops of `get_intent` return: the exception they raise, or
      `matched_intent` once both loops are done. */
  function Nested(tools: Tools, intents: seq<Intent>, tokens: seq<string>): Result<Option<string>>
  {
    match ScanIntents(ScoreTable(tools, tokens, intents), intents, |intents|)
    case Raised(f) => Raised(f)
    case Ok(st) => Ok(st.matched)
  }

  /** The nested loops of `get_intent` compute `Resolve`: each intent's patterns
      are visited in catalog order, one pair after the other. */
  lemma NestedIsFlat(tools: Tools, tokens: seq<string>, intents: seq<Intent>)
    ensures Nested(tools, intents, tokens) == Resolve(tools, intents, tokens)
  {
    var table, cs := ScoreTable(tools, tokens, intents), Candidates(intents);
    var ss := Scores(tools, tokens, cs);
    forall k | 0 <= k < |intents|
      ensures Aligned(table[k], intents[k].name, ss, cs, Offset(intents, k), |table[k]|)
      ensures |table[k]| == |intents[k].patterns|
    {
      IntentRow(tools, tokens, intents, k);
    }
    IntentsAgree(table, intents, ss, cs, |intents|);
    OffsetBound(intents, |intents|);
  }


  /** Once the inner loop has raised, it stays raised. */
  lemma {:induction false} PatternsRaisedStay(row: seq<Jaccard>, name: string, n: nat, m: nat, start: Result<State>)
    requires n <= m <= |row|
    requires ScanPatterns(row, name, n, start).Raised?
    ensures ScanPatterns(row, name, m, start) == ScanPatterns(row, name, n, start)
    decreases m - n
  {
    if n < m {
      PatternsRaisedStay(row, name, n, m - 1, start);
    }
  }

  /** An inner loop entered in the raised state stays raised. */
  lemma {:induction false} PatternsFromRaised(row: seq<Jaccard>, name: string, n: nat, f: Fault)
    requires n <= |row|
    ensures ScanPatterns(row, name, n, Raised(f)) == Raised(f)
  {
    if n > 0 {
      PatternsFromRaised(row, name, n - 1, f);
    }
  }

  /** Once the outer loop has raised, it stays raised. */
  lemma {:induction false} IntentsRaisedStay(table: seq<seq<Jaccard>>, intents: seq<Intent>, i: nat, m: nat)
    requires i <= m <= |intents| == |table|
    requires ScanIntents(table, intents, i).Raised?
    ensures ScanIntents(table, intents, m) == ScanIntents(table, intents, i)
    decreases m - i
  {
    if i < m {
      IntentsRaisedStay(table, intents, i, m - 1);
      PatternsFromRaised(table[m - 1], intents[m - 1].name, |table[m - 1]|, ScanIntents(table, intents, i).fault);
    }
  }

  /** A division by zero at entry `j` of row `i` is what the nested loops raise. */
  lemma RaisedInside(table: seq<seq<Jaccard>>, intents: seq<Intent>, i: nat, j: nat)
    requires i < |intents| == |table| && j < |table[i]|
    requires ScanPatterns(table[i], intents[i].name, j + 1, ScanIntents(table, intents, i)) == Raised(ZeroDivision)
    ensures ScanIntents(table, intents, |intents|) == Raised(ZeroDivision)
  {
    PatternsRaisedStay(table[i], intents[i].name, j + 1, |table[i]|, ScanIntents(table, intents, i));
    IntentsRaisedStay(table, intents, i + 1, |intents|);
  }
}
