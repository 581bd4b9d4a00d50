/**
  Text normalisation of the chatbot (`preprocess_text`): lowercase the text, keep
  the maximal runs of word characters (`RegexpTokenizer(r'\w+')`), stem each run
  (`FrenchStemmer`), and fall back to a whitespace split when stemming raises.
 */
module Normalizer {
  import opened Faults

  /** The library behaviour the normaliser relies on, given as data: the
      characters `str.lower` changes and what it maps them to, the `\w` character
      class of the tokenizer, the characters `str.split()` treats as whitespace,
      and the answers of `FrenchStemmer.stem`, a possibly infinite map; a word
      outside its domain is one on which the stemmer raised. */
  datatype Tools = Tools(
    lower: map<char, char>,
    wordChars: set<char>,
    spaces: set<char>,
    stems: imap<string, string>)

  /** `c.lower()`: characters without a lowercase mapping are kept. */
  function LowerChar(tools: Tools, c: char): char
  {
    if c in tools.lower then tools.lower[c] else c
  }

  /** `s.lower()`. */
  function Lower(tools: Tools, s: string): (r: string)
    ensures |r| == |s|
  {
    if s == [] then [] else [LowerChar(tools, s[0])] + Lower(tools, s[1..])
  }

  /** `s.lower()` lowers each character in place. */
  lemma {:induction false} LowerAt(tools: Tools, s: string, i: nat)
    requires i < |s|
    ensures Lower(tools, s)[i] == LowerChar(tools, s[i])
  {
    if i > 0 {
      LowerAt(tools, s[1..], i - 1);
    }
  }

  /** A character class: the characters of a set, or those outside it. */
  datatype CharClass = Within(chars: set<char>) | Outside(chars: set<char>)

  predicate Has(p: CharClass, c: char)
  {
    if p.Within? then c in p.chars else c !in p.chars
  }

  /** Every character of `s` is in class `p`. */
  predicate All(s: string, p: CharClass)
  {
    forall i :: 0 <= i < |s| ==> Has(p, s[i])
  }

  /** No character of `s` is in class `p`. */
  predicate NoneOf(s: string, p: CharClass)
  {
    forall i :: 0 <= i < |s| ==> !Has(p, s[i])
  }

  /** Length of the longest prefix of `s` whose characters are all in class `p`. */
  function RunLength(s: string, p: CharClass): (n: nat)
    ensures n <= |s|
    ensures forall i :: 0 <= i < n ==> Has(p, s[i])
    ensures n < |s| ==> !Has(p, s[n])
    ensures s != [] && Has(p, s[0]) ==> n > 0
  {
    if s == [] || !Has(p, s[0]) then 0 else 1 + RunLength(s[1..], p)
  }

  /** The maximal runs of characters of class `p` in `s`, left to right:
      `re.findall` with the pattern `p+`. */
  function Runs(s: string, p: CharClass): seq<string>
    decreases |s|
  {
    if s == [] then []
    else if !Has(p, s[0]) then Runs(s[1..], p)
    else
      var n := RunLength(s, p);
      [s[..n]] + Runs(s[n..], p)
  }

  /** The separators around the runs: the text before the first run, between
      consecutive runs, and after the last one. */
  function Gaps(s: string, p: CharClass): (gaps: seq<string>)
    ensures |gaps| == |Runs(s, p)| + 1
    decreases |s|
  {
    if s == [] then [""]
    else if !Has(p, s[0]) then
      var g := Gaps(s[1..], p);
      [[s[0]] + g[0]] + g[1..]
    else
      [""] + Gaps(s[RunLength(s, p)..], p)
  }

  /** `gaps[0] + tokens[0] + gaps[1] + ... + tokens[m-1] + gaps[m]`. */
  function Interleave(gaps: seq<string>, tokens: seq<string>): string
    requires |gaps| == |tokens| + 1
  {
    if tokens == [] then gaps[0]
    else gaps[0] + tokens[0] + Interleave(gaps[1..], tokens[1..])
  }

  /** `tokens` are maximal runs of class `p` separated by `gaps`: every token is a
      non-empty run of `p` characters, no gap holds a `p` character, and the gaps
      between two tokens are not empty. */
  ghost predicate IsRunSplit(gaps: seq<string>, tokens: seq<string>, p: CharClass)
  {
    && |gaps| == |tokens| + 1
    && (forall k :: 0 <= k < |tokens| ==> tokens[k] != [] && All(tokens[k], p))
    && (forall k :: 0 <= k < |gaps| ==> NoneOf(gaps[k], p))
    && (forall k :: 0 < k < |tokens| ==> gaps[k] != [])
  }

  /** Putting a character in front of the leading gap puts it in front of the text. */
  lemma ExtendLeadingGap(c: char, gaps: seq<string>, tokens: seq<string>)
    requires |gaps| == |tokens| + 1
    ensures Interleave([[c] + gaps[0]] + gaps[1..], tokens) == [c] + Interleave(gaps, tokens)
  {
    var gaps' := [[c] + gaps[0]] + gaps[1..];
    if tokens != [] {
      var rest := Interleave(gaps[1..], tokens[1..]);
      calc {
        Interleave(gaps', tokens);
        gaps'[0] + tokens[0] + Interleave(gaps'[1..], tokens[1..]);
        { assert gaps'[1..] == gaps[1..]; }
        ([c] + gaps[0]) + tokens[0] + rest;
        [c] + (gaps[0] + tokens[0] + rest);
        [c] + Interleave(gaps, tokens);
      }
    }
  }

  /** A token after an empty leading gap comes first in the text. */
  lemma LeadingToken(token: string, gaps: seq<string>, tokens: seq<string>)
    requires |gaps| == |tokens| + 1
    ensures Interleave([""] + gaps, [token] + tokens) == token + Interleave(gaps, tokens)
  {
    var gaps', tokens' := [""] + gaps, [token] + tokens;
    calc {
      Interleave(gaps', tokens');
      gaps'[0] + tokens'[0] + Interleave(gaps'[1..], tokens'[1..]);
      { assert gaps'[1..] == gaps && tokens'[1..] == tokens; }
      "" + token + Interleave(gaps, tokens);
      { assert "" + token == token; }
      token + Interleave(gaps, tokens);
    }
  }

  /** Putting the gaps back between the runs gives `s` again. */
  lemma {:induction false} RunsRoundTrip(s: string, p: CharClass)
    ensures Interleave(Gaps(s, p), Runs(s, p)) == s
    decreases |s|
  {
    if s == [] {
    } else if !Has(p, s[0]) {
      RunsRoundTrip(s[1..], p);
      ExtendLeadingGap(s[0], Gaps(s[1..], p), Runs(s[1..], p));
      assert [s[0]] + s[1..] == s;
    } else {
      var n := RunLength(s, p);
      RunsRoundTrip(s[n..], p);
      LeadingToken(s[..n], Gaps(s[n..], p), Runs(s[n..], p));
      assert s[..n] + s[n..] == s;
    }
  }

  /** The leading gap of text that starts with a separator is not empty. */
  lemma LeadingGapNonEmpty(s: string, p: CharClass)
    requires s != [] && !Has(p, s[0])
    ensures Gaps(s, p)[0] != []
  {
  }

  /** Runs are non-empty and made of class-`p` characters, gaps hold none, and
      consecutive runs are separated. */
  lemma {:induction false} RunsShape(s: string, p: CharClass)
    ensures IsRunSplit(Gaps(s, p), Runs(s, p), p)
    decreases |s|
  {
    if s == [] {
    } else if !Has(p, s[0]) {
      RunsShape(s[1..], p);
      PrependSeparator(s[0], Gaps(s[1..], p), Runs(s[1..], p), p);
    } else {
      var n := RunLength(s, p);
      var rest := s[n..];
      RunsShape(rest, p);
      if Runs(rest, p) != [] {
        LeadingGapNonEmpty(rest, p);
      }
      PrependToken(s[..n], Gaps(rest, p), Runs(rest, p), p);
    }
  }

  /** A separator in front of a split joins its leading gap. */
  lemma PrependSeparator(c: char, gaps: seq<string>, tokens: seq<string>, p: CharClass)
    requires IsRunSplit(gaps, tokens, p) && !Has(p, c)
    ensures IsRunSplit([[c] + gaps[0]] + gaps[1..], tokens, p)
  {
    var gaps' := [[c] + gaps[0]] + gaps[1..];
    forall k | 0 <= k < |gaps'| ensures NoneOf(gaps'[k], p) {
      if k > 0 { assert gaps'[k] == gaps[k]; }
    }
  }

  /** A run in front of a split whose leading gap is not empty (or that has no
      token) becomes its first token, after an empty gap. */
  lemma PrependToken(token: string, gaps: seq<string>, tokens: seq<string>, p: CharClass)
    requires IsRunSplit(gaps, tokens, p) && token != [] && All(token, p)
    requires tokens != [] ==> gaps[0] != []
    ensures IsRunSplit([""] + gaps, [token] + tokens, p)
  {
    var gaps', tokens' := [""] + gaps, [token] + tokens;
    forall k | 0 <= k < |gaps'| ensures NoneOf(gaps'[k], p) {
      if k > 0 { assert gaps'[k] == gaps[k - 1]; }
    }
    forall k | 0 <= k < |tokens'| ensures tokens'[k] != [] && All(tokens'[k], p) {
      if k > 0 { assert tokens'[k] == tokens[k - 1]; }
    }
    forall k | 0 < k < |tokens'| ensures gaps'[k] != [] {
      assert gaps'[k] == gaps[k - 1];
    }
  }

  /** `Runs` cuts `s` into maximal runs, with `Gaps` the text between them. */
  lemma RunsDecompose(s: string, p: CharClass)
    ensures IsRunSplit(Gaps(s, p), Runs(s, p), p)
    ensures Interleave(Gaps(s, p), Runs(s, p)) == s
  {
    RunsShape(s, p);
    RunsRoundTrip(s, p);
  }

  /** The first `n` characters are a maximal run, so `RunLength` is `n`. */
  lemma {:induction false} RunLengthIs(s: string, p: CharClass, n: nat)
    requires n <= |s|
    requires forall i :: 0 <= i < n ==> Has(p, s[i])
    requires n < |s| ==> !Has(p, s[n])
    ensures RunLength(s, p) == n
  {
    if n > 0 {
      RunLengthIs(s[1..], p, n - 1);
    }
  }

  /** Text without any character of class `p` holds no run. */
  lemma {:induction false} NoRunsIn(s: string, p: CharClass)
    requires NoneOf(s, p)
    ensures Runs(s, p) == [] && Gaps(s, p) == [s]
  {
    if s != [] {
      NoRunsIn(s[1..], p);
      assert [s[0]] + s[1..] == s;
    }
  }

  /** Dropping the first character of a non-empty leading gap leaves a split of
      the rest of the text. */
  lemma ShortenLeadingGap(s: string, p: CharClass, gaps: seq<string>, tokens: seq<string>)
    requires IsRunSplit(gaps, tokens, p)
    requires Interleave(gaps, tokens) == s
    requires gaps[0] != []
    ensures s != [] && s[0] == gaps[0][0] && !Has(p, s[0])
    ensures IsRunSplit([gaps[0][1..]] + gaps[1..], tokens, p)
    ensures Interleave([gaps[0][1..]] + gaps[1..], tokens) == s[1..]
  {
    var gaps' := [gaps[0][1..]] + gaps[1..];
    forall k | 0 <= k < |gaps'| ensures NoneOf(gaps'[k], p) {
      if k > 0 { assert gaps'[k] == gaps[k]; }
    }
    assert [gaps[0][0]] + gaps'[0] == gaps[0];
    assert [[gaps[0][0]] + gaps'[0]] + gaps'[1..] == gaps;
    ExtendLeadingGap(gaps[0][0], gaps', tokens);
  }

  /** When the leading gap is empty, the first token is the first maximal run and
      the remaining gaps and tokens split what follows it. */
  lemma DropLeadingToken(s: string, p: CharClass, gaps: seq<string>, tokens: seq<string>)
    requires IsRunSplit(gaps, tokens, p)
    requires Interleave(gaps, tokens) == s
    requires gaps[0] == [] && tokens != []
    ensures RunLength(s, p) == |tokens[0]| > 0
    ensures s[..|tokens[0]|] == tokens[0]
    ensures IsRunSplit(gaps[1..], tokens[1..], p)
    ensures Interleave(gaps[1..], tokens[1..]) == s[|tokens[0]|..]
  {
    var n := |tokens[0]|;
    var rest := Interleave(gaps[1..], tokens[1..]);
    assert s == tokens[0] + rest;
    assert s[..n] == tokens[0] && s[n..] == rest;
    if n < |s| {
      if tokens[1..] != [] {
        assert gaps[1..][0] == gaps[1] && gaps[1] != [];
        assert rest[0] == gaps[1][0];
      } else {
        assert rest == gaps[1];
      }
      assert s[n] == rest[0];
    }
    RunLengthIs(s, p, n);
    var gaps1, tokens1 := gaps[1..], tokens[1..];
    forall k | 0 <= k < |gaps1| ensures NoneOf(gaps1[k], p) {
      assert gaps1[k] == gaps[k + 1];
    }
    forall k | 0 < k < |tokens1| ensures gaps1[k] != [] {
      assert gaps1[k] == gaps[k + 1];
    }
    forall k | 0 <= k < |tokens1| ensures tokens1[k] != [] && All(tokens1[k], p) {
      assert tokens1[k] == tokens[k + 1];
    }
  }

  /** The decomposition into maximal runs is unique: any split of `s` with the
      shape of `IsRunSplit` is the one `Runs` and `Gaps` compute. */
  lemma {:induction false} RunSplitUnique(s: string, p: CharClass, gaps: seq<string>, tokens: seq<string>)
    requires IsRunSplit(gaps, tokens, p)
    requires Interleave(gaps, tokens) == s
    ensures gaps == Gaps(s, p) && tokens == Runs(s, p)
    decreases |s|
  {
    if gaps[0] != [] {
      ShortenLeadingGap(s, p, gaps, tokens);
      var gaps' := [gaps[0][1..]] + gaps[1..];
      RunSplitUnique(s[1..], p, gaps', tokens);
      assert [gaps[0][0]] + gaps'[0] == gaps[0];
      assert [[gaps[0][0]] + gaps'[0]] + gaps'[1..] == gaps;
    } else if tokens == [] {
      NoRunsIn(s, p);
    } else {
      DropLeadingToken(s, p, gaps, tokens);
      var n := |tokens[0]|;
      RunSplitUnique(s[n..], p, gaps[1..], tokens[1..]);
      assert gaps == [gaps[0]] + gaps[1..] && tokens == [tokens[0]] + tokens[1..];
    }
  }

  /** A character of class `p` somewhere in `s` starts at least one run. */
  lemma {:induction false} RunsNonEmpty(s: string, p: CharClass, i: nat)
    requires i < |s| && Has(p, s[i])
    ensures Runs(s, p) != []
  {
    if !Has(p, s[0]) {
      RunsNonEmpty(s[1..], p, i - 1);
    }
  }

  /** The `\w` class of `RegexpTokenizer(r'\w+')`. */
  function WordClass(tools: Tools): CharClass
  {
    Within(tools.wordChars)
  }

  /** The class of characters that `str.split()` keeps. */
  function NonSpace(tools: Tools): CharClass
  {
    Outside(tools.spaces)
  }

  /** `s.split()`: the maximal runs of non-whitespace characters. */
  function Split(tools: Tools, s: string): seq<string>
  {
    Runs(s, NonSpace(tools))
  }

  /** `[stem(w) for w in words]`, or None if one of the calls raises. */
  function StemAll(stems: imap<string, string>, words: seq<string>): Option<seq<string>>
  {
    if words == [] then Some([])
    else if words[0] !in stems then None
    else
      match StemAll(stems, words[1..])
      case None => None
      case Some(rest) => Some([stems[words[0]]] + rest)
  }

  /** The list comprehension raises exactly when some word has no stem, and
      otherwise stems every word in place. */
  lemma {:induction false} StemAllMeaning(stems: imap<string, string>, words: seq<string>)
    ensures StemAll(stems, words).Some? <==> forall k :: 0 <= k < |words| ==> words[k] in stems
    ensures StemAll(stems, words).Some? ==>
      && |StemAll(stems, words).value| == |words|
      && forall k :: 0 <= k < |words| ==> StemAll(stems, words).value[k] == stems[words[k]]
  {
    if words != [] {
      StemAllMeaning(stems, words[1..]);
      assert forall k :: 1 <= k < |words| ==> words[k] == words[1..][k - 1];
    }
  }

  /** What the tokenizer yields on the lowercased text. */
  function Words(tools: Tools, text: string): seq<string>
  {
    Runs(Lower(tools, text), WordClass(tools))
  }

  /** The stemmer answers for every word, i.e. it does not raise. */
  predicate Stemmable(tools: Tools, words: seq<string>)
  {
    forall k :: 0 <= k < |words| ==> words[k] in tools.stems
  }

  /** `preprocess_text(text)`. The tokenizer and the lowercasing cannot raise on
      a string, so the `except` branch is taken exactly when the stemmer raises;
      it splits the already lowercased text, lowercased once more. */
  function Preprocess(tools: Tools, text: string): seq<string>
  {
    var lowered := Lower(tools, text);
    match StemAll(tools.stems, Runs(lowered, WordClass(tools)))
    case Some(stems) => stems
    case None => Split(tools, Lower(tools, lowered))
  }

  /** The tokens are the stems of the tokenizer's words when every word has a
      stem, and the whitespace split of the twice-lowered text otherwise. */
  lemma PreprocessCases(tools: Tools, text: string)
    ensures Stemmable(tools, Words(tools, text)) ==>
      && |Preprocess(tools, text)| == |Words(tools, text)|
      && forall k :: 0 <= k < |Words(tools, text)| ==>
           Preprocess(tools, text)[k] == tools.stems[Words(tools, text)[k]]
    ensures !Stemmable(tools, Words(tools, text)) ==>
      Preprocess(tools, text) == Split(tools, Lower(tools, Lower(tools, text)))
  {
    StemAllMeaning(tools.stems, Words(tools, text));
  }

  /** `\w` holds no whitespace character. */
  ghost predicate WordCharsAreNotSpace(tools: Tools)
  {
    tools.wordChars !! tools.spaces
  }

  /** Stemming a word made of word characters gives a word made of word characters. */
  ghost predicate StemKeepsWordChars(tools: Tools)
  {
    forall w :: w in tools.stems && All(w, WordClass(tools)) ==> All(tools.stems[w], WordClass(tools))
  }

  /** No token `Preprocess` returns holds whitespace; when stemming succeeds every
      token is made of `\w` characters only (so the only punctuation it can hold
      is `_`), and the fallback tokens are never empty. */
  lemma TokensHaveNoSeparators(tools: Tools, text: string)
    requires WordCharsAreNotSpace(tools) && StemKeepsWordChars(tools)
    ensures forall k :: 0 <= k < |Preprocess(tools, text)| ==> All(Preprocess(tools, text)[k], NonSpace(tools))
    ensures Stemmable(tools, Words(tools, text)) ==>
      forall k :: 0 <= k < |Preprocess(tools, text)| ==> All(Preprocess(tools, text)[k], WordClass(tools))
    ensures !Stemmable(tools, Words(tools, text)) ==>
      forall k :: 0 <= k < |Preprocess(tools, text)| ==> Preprocess(tools, text)[k] != []
  {
    var lowered := Lower(tools, text);
    var words := Words(tools, text);
    var tokens := Preprocess(tools, text);
    PreprocessCases(tools, text);
    RunsDecompose(lowered, WordClass(tools));
    if Stemmable(tools, words) {
      forall k | 0 <= k < |tokens| ensures All(tokens[k], WordClass(tools)) && All(tokens[k], NonSpace(tools)) {
        assert All(words[k], WordClass(tools));
        assert tokens[k] == tools.stems[words[k]];
      }
    } else {
      var twice := Lower(tools, lowered);
      RunsDecompose(twice, NonSpace(tools));
    }
  }

  /** Lowercase ASCII letters are left alone by `lower`, are word characters and
      are not whitespace: true of Python's `str.lower`, `\w` and `str.split`. */
  ghost predicate AsciiLettersAreWords(tools: Tools)
  {
    forall c :: 'a' <= c <= 'z' ==> LowerChar(tools, c) == c && c in tools.wordChars && c !in tools.spaces
  }

  /** Text holding a lowercase ASCII letter normalises to at least one token. */
  lemma TokensOfLetter(tools: Tools, text: string, i: nat)
    requires AsciiLettersAreWords(tools)
    requires i < |text| && 'a' <= text[i] <= 'z'
    ensures Preprocess(tools, text) != []
  {
    var lowered := Lower(tools, text);
    PreprocessCases(tools, text);
    LowerAt(tools, text, i);
    RunsNonEmpty(lowered, WordClass(tools), i);
    if !Stemmable(tools, Words(tools, text)) {
      var twice := Lower(tools, lowered);
      LowerAt(tools, lowered, i);
      RunsNonEmpty(twice, NonSpace(tools), i);
    }
  }
}
