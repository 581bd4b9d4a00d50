# Intent engine of the French voice chatbot, in Dafny

This project models the intent-resolution engine of `AdvancedVoiceChatbot` in
`bil.py` and proves properties of it. The engine has four parts:

- **Loading the catalog** (`load_training_data`). It stores six intents in
  `self.intents`: `salutations`, `aurevoir`, `heure`, `date`, `humeur` and
  `capacités`. Each has example patterns and responses. A response is either a
  fixed text or a zero-argument lambda that formats the current time or date.
- **Normalising text** (`preprocess_text`). It lowercases the text and keeps the
  maximal runs of `\w` characters (`RegexpTokenizer(r'\w+')`). It then stems
  every run with `FrenchStemmer`. If stemming raises, it returns the whitespace
  split of the lowercased text.
- **Matching** (`get_intent`). Nested loops visit every (intent, pattern) pair
  in catalog order and compute the Jaccard similarity of the two token sets. The
  pair is kept when its score is strictly above both the best so far and 0.2.
- **Replying** (`get_response`). If a known intent matched, it returns a random
  response of that intent, calling the lambda if the response is one. Otherwise
  it asks the user to rephrase. Any exception becomes a fixed apology.

Modules, one file each:

- `faults.dfy`: `Option`, and `Result` with the two exceptions that can occur.
  These are `ZeroDivisionError` (raised in `get_intent`) and the `IndexError`
  of `random.choice([])` (raised in `Choose`).
- `normalizer.dfy`: `preprocess_text`, and the theory of maximal runs behind
  the tokenizer and `str.split()`.
- `scoring.dfy`: the Jaccard score and the 0.2 threshold.
- `catalog.dfy`: the catalog data and `self.intents[name]`.
- `matcher.dfy`: what `get_intent` computes. It is given twice: as a flat scan
  over all pairs, where the ranking properties are proved, and as the nested
  loops of the source. `NestedIsFlat` proves the two agree.
- `chatbot.dfy`: the class `AdvancedVoiceChatbot`, with `self.intents` as a
  field. `GetIntent` holds the source's outer loop and `MatchPatterns` its
  inner loop, which `GetIntent` runs once per intent. `GetIntent` is proved
  against the nested-loop function `Nested`, and `GetResponse` against `Reply`.

Modelling decisions:

- **Library behaviour is data.** A `Tools` value holds four things:
  - the characters `str.lower` changes and what they become;
  - the `\w` character set;
  - the whitespace set of `str.split()`;
  - the stems `FrenchStemmer.stem` returns.

  The stems form a possibly infinite map (`imap`), so a stemmer that answers
  every word can be given. A word outside its domain is one on which the
  stemmer raised. The
  properties that need something of these libraries say so in a `requires`. For
  example, `AsciiLettersAreWords` states that `a`–`z` are word characters, are
  not whitespace and are left alone by `lower`.
- **Scores are exact.** A score is the pair of counts
  `len(set(a) & set(b))` and `len(set(a + b))`, read as an exact rational.
  For counts this small, Python's float division orders scores the same way.
- **The division is not guarded.** When the input and a pattern both normalise
  to no token, the division raises `ZeroDivisionError`. This aborts
  `get_intent`, and `get_response` returns the apology. With the real catalog every pattern has
  a token, so the error never happens (`CatalogNeverRaises`), and an empty
  input matches nothing (`CatalogEmptyInput`).
- **The constructor is modelled as intended.** In the source the constructor is
  spelled `_init_`, so Python never runs it, and the catalog and tokenizer are
  never set up. The model's constructor loads the catalog, as the authors
  evidently meant. Every constructed object starts in that state, and no method
  of the class changes it.
- **Injected choices.** `random.choice(responses)` is the index
  `draw % len(responses)` for a `draw` given by the caller. The clock is a
  `Clock` value holding the already formatted time and date.
- **Long texts.** Long catalog texts are written as concatenations of short
  literals; the strings are the same.

## Model

| member | source | states |
|---|---|---|
| Normalizer.LowerChar | bil.py:126 | `c.lower()` for one character: its lowercase mapping, or the character itself when it has none |
| Normalizer.Lower | bil.py:126 | `text.lower()`: each character replaced by its lowercase mapping, or kept when it has none; the length is kept |
| Normalizer.LowerAt | bil.py:126 | `text.lower()` lowercases each character in place and keeps the length |
| Normalizer.Runs | bil.py:127 | `RegexpTokenizer(r'\w+').tokenize(text)`: the maximal runs of class characters, left to right (proved in the lemmas below) |
| Normalizer.RunsDecompose | bil.py:127 | the tokenizer's runs are non-empty maximal runs of `\w` characters, separated by text holding none, and putting the separators back gives the text again |
| Normalizer.RunsRoundTrip | bil.py:127 | interleaving the separators and the runs gives back the tokenized text |
| Normalizer.RunsShape | bil.py:127 | every run is non-empty and made of class characters, no separator holds one, and consecutive runs are separated |
| Normalizer.PrependSeparator | bil.py:127 | a character outside the class in front of the text joins the leading separator and leaves the runs as they are |
| Normalizer.PrependToken | bil.py:127 | a non-empty run of class characters in front of a split whose leading separator is non-empty (when a run follows) becomes its new first run, behind an empty separator |
| Normalizer.RunSplitUnique | bil.py:127 | any split of the text into non-empty maximal runs and separators is the one the tokenizer yields, so the runs are exactly the maximal runs, in order |
| Normalizer.RunsNonEmpty | bil.py:127 | a word character anywhere in the text yields at least one token |
| Normalizer.StemAll | bil.py:128 | `[stem(w) for w in words]`: the stems in order, or the failure of the first word the stemmer raises on |
| Normalizer.Split | bil.py:132 | `str.split()`: the maximal runs of characters that are not whitespace |
| Normalizer.StemAllMeaning | bil.py:128 | the stemming comprehension raises exactly when some word has no stem; otherwise it returns one stem per word, at the same position |
| Normalizer.Preprocess | bil.py:123-132 | `preprocess_text(text)`: the stems of the word runs of the lowercased text, or, when the stemmer raises, the whitespace split of the lowercased text lowercased again |
| Normalizer.PreprocessCases | bil.py:123-132 | when stemming succeeds, `preprocess_text` returns exactly one stem per maximal word run of the lowercased text, in order; otherwise it returns `text.lower().split()` of the already lowercased text |
| Normalizer.TokensHaveNoSeparators | bil.py:123-132 | no token holds whitespace; on the stemming path every token is made of `\w` characters only (so the only punctuation it can hold is `_`); the fallback tokens are non-empty |
| Normalizer.TokensOfLetter | bil.py:123-132 | text holding a lowercase ASCII letter normalises to at least one token |
| Scoring.ToSet | bil.py:142 | `set(tokens)`: the distinct tokens of the list |
| Scoring.ToSetConcat | bil.py:142 | `set(a + b)` is the union of `set(a)` and `set(b)` |
| Scoring.Similarity | bil.py:142 | the shared-token count is at most the all-token count, and the denominator is 0 exactly when both token lists are empty |
| Scoring.SimilarityCounts | bil.py:142 | the numerator is 0 exactly when the token sets are disjoint; the denominator counts the union of the two sets, and is 0 exactly when both lists are empty |
| Scoring.Ratio | bil.py:142 | the `/` of the two counts, defined only for a non-zero denominator (Python raises `ZeroDivisionError` otherwise) |
| Scoring.RatioBounds | bil.py:142 | a score lies in [0, 1]; it is 0 exactly when no token is shared and 1 exactly when every token is shared |
| Scoring.RatioGreater | bil.py:143 | one score beats another exactly when the cross products say so |
| Scoring.AboveThreshold | bil.py:143 | a score exceeds 0.2 exactly when five times the shared count exceeds the total count |
| Scoring.SimilaritySymmetric | bil.py:142 | the score does not change when the input and the pattern swap places |
| Scoring.SimilarityOfSets | bil.py:142 | the score depends only on the two token sets, not on order or repetition |
| Scoring.SelfSimilarity | bil.py:142 | a non-empty token list scores exactly 1 against itself |
| Catalog.Render | bil.py:87-95 | a response as returned: a fixed text as is, a computed one as its `f"..."` with the clock's formatted time (or date) inserted |
| Catalog.RenderReadsClock | bil.py:87 | a computed response shows the time (or date) the clock reads when it is produced: two renderings agree exactly when the clock readings do |
| Catalog.Lookup | bil.py:155 | `name in self.intents` holds exactly when some intent has that name, and then the intent found has that name |
| Catalog.LookupFindsOwner | bil.py:155-156 | in a catalog with distinct names, `self.intents[name]` is the intent of that name |
| Catalog.Intents | bil.py:60-121 | the six intents of `self.intents`, in dictionary order, with their patterns and responses as written |
| Catalog.CatalogShape | bil.py:60-121 | every loaded intent has a non-empty name, a pattern and a response |
| Catalog.CatalogNamesDistinct | bil.py:60-121 | the loaded intent names are distinct, as dictionary keys are |
| Catalog.CatalogWellFormed | bil.py:60-121 | the loaded catalog is well formed |
| Catalog.CatalogPatternsHaveLetters | bil.py:60-121 | every loaded pattern holds a lowercase ASCII letter |
| Catalog.SharedPattern | bil.py:63-100 | "ça va" is a pattern of `salutations` (listed first) and of `humeur` |
| Catalog.Greetings | bil.py:61-70 | the first intent is `salutations`, its first pattern is "bonjour", and its responses are fixed texts |
| Matcher.Candidates | bil.py:139-140 | the (intent, pattern) pairs in the order the two loops visit them: intents in dictionary order, each intent's patterns in list order |
| Matcher.PatternsOfAt | bil.py:140 | the pairs of an intent are its patterns, in declaration order |
| Matcher.CandidatesPrefix | bil.py:139-140 | the pairs of the first intents come first in the visiting order |
| Matcher.OffsetCounts | bil.py:139-140 | the position where the pairs of intent `i` start is the number of pairs of the intents before it, and is that of all pairs after the last intent |
| Matcher.OffsetBound | bil.py:139-140 | the start of every intent's pairs lies within the visiting order, and after the last intent it is its end |
| Matcher.CandidateAt | bil.py:139-140 | pattern `j` of intent `i` is visited right after the patterns of the intents before `i` |
| Matcher.CandidatesGrow | bil.py:139-140 | one more intent adds exactly its patterns to the visiting order |
| Matcher.CandidateOrigin | bil.py:139-140 | every visited pair is a pattern of some intent of the catalog |
| Matcher.PatternScore | bil.py:141-142 | the counts of the score of one pattern: the input tokens against `preprocess_text(pattern)` |
| Matcher.Scores | bil.py:141-142 | the score counts of the pairs, one per pair, in visiting order |
| Matcher.ScoreAt | bil.py:141-142 | the score at each position is the similarity of the input and that pair's normalised pattern |
| Matcher.PatternScoreAt | bil.py:141-142 | the score of pattern `j` of intent `i` sits at that pair's place in the visiting order |
| Matcher.ScoreOfPair | bil.py:141-142 | the score at a position holding a pattern is that pattern's score |
| Matcher.ScoresBounded | bil.py:142 | every score is a fraction of at most one, and its division can be carried out when the input has a token |
| Matcher.Scan | bil.py:136-147 | a recorded position is always one already visited |
| Matcher.ScanRaises | bil.py:142 | the scan raises exactly when some visited score has an empty denominator, and then the error is `ZeroDivisionError` |
| Matcher.ScanFindsFirstBest | bil.py:139-145 | when the scan has not raised, no position is recorded (and the best stays 0) exactly when no score is above 0.2; otherwise the recorded position is the first of the best scores, and it is above 0.2 |
| Matcher.ScanRaisedStays | bil.py:142 | once the scan has raised, nothing after it runs |
| Matcher.FirstBestUnique | bil.py:143 | the first best position is unique |
| Matcher.PerfectScoreWins | bil.py:143 | a score of 1 is matched unless an earlier pair also scores 1 |
| Matcher.Resolve | bil.py:134-147 | `get_intent(tokens)`: the flat scan over all (intent, pattern) pairs in visiting order, giving the raised `ZeroDivisionError` or the recorded intent name |
| Matcher.ResolveRaises | bil.py:142 | `get_intent` raises exactly when the input has no token and some pattern normalises to no token, and the error is `ZeroDivisionError` |
| Matcher.UndividedPair | bil.py:142 | a pair whose division is by zero comes from an empty input and a pattern of the catalog that normalises to no token |
| Matcher.UndividedPattern | bil.py:142 | with an empty input, a pattern that normalises to no token yields a pair whose division is by zero |
| Matcher.ScanNone | bil.py:136-147 | the scan ends with no position recorded exactly when every score can be computed and none is above 0.2 |
| Matcher.ResolveNone | bil.py:136-147 | `get_intent` returns None exactly when every pair can be scored and none scores strictly above 0.2 |
| Matcher.ResolveSomeIsFirstBest | bil.py:139-145 | a returned intent owns the first of the best-scoring pairs, which scores above 0.2; no pair anywhere scores higher |
| Matcher.FirstBestIsResolved | bil.py:139-145 | when the first best pair scores above 0.2, `get_intent` returns its intent |
| Matcher.ResolveSome | bil.py:139-145 | `get_intent` returns `name` exactly when the first best-scoring pair scores above 0.2 and belongs to `name`; a later tie does not replace it |
| Matcher.EmptyInputMatchesNothing | bil.py:136-147 | an input without tokens matches nothing when every pattern normalises to some token |
| Matcher.CatalogPatternsHaveTokens | bil.py:60-121 | every loaded pattern normalises to at least one token |
| Matcher.CatalogNeverRaises | bil.py:134-147 | with the loaded catalog, `get_intent` never divides by zero |
| Matcher.CatalogEmptyInput | bil.py:134-147 | with the loaded catalog, an input without tokens matches no intent |
| Matcher.FirstIntentPatternWins | bil.py:143 | typing a pattern of the first intent selects the first intent, whatever the later intents hold, because a tie does not replace the best |
| Matcher.FirstIntentComesFirst | bil.py:139-140 | the patterns of the first intent are the first pairs visited, in order |
| Matcher.SharedPatternGoesToSalutations | bil.py:143 | "ça va", a pattern of both `salutations` and `humeur`, resolves to `salutations` |
| Matcher.RowScores | bil.py:140-142 | the scores of an intent's patterns, one per pattern |
| Matcher.ScoreTable | bil.py:139-142 | one row of scores per intent |
| Matcher.TableAt | bil.py:139-142 | entry `(i, j)` of the table is the score of pattern `j` of intent `i` |
| Matcher.RowAt | bil.py:140-142 | entry `j` of a row is the score of pattern `j` |
| Matcher.TableRowLength | bil.py:139-140 | every row has one entry per pattern |
| Matcher.TableRow | bil.py:139-142 | row `i` of the table is the row of scores of intent `i`'s patterns |
| Matcher.Advance | bil.py:141-145 | the loop body once a score is known: `ZeroDivisionError` on an empty denominator; a score strictly above both the best so far and 0.2 becomes the best, with its intent; otherwise nothing changes |
| Matcher.Continue | bil.py:140-145 | one more pattern: after an exception nothing runs, otherwise the loop body |
| Matcher.ScanPatterns | bil.py:140-145 | the inner loop `for pattern in data["patterns"]` over the first `n` patterns of one intent |
| Matcher.ScanIntents | bil.py:139-145 | the outer loop `for intent, data in self.intents.items()` over the first `i` intents, starting from `max_similarity = 0` and `matched_intent = None` |
| Matcher.PatternStep | bil.py:141-145 | one pass of the inner loop's body on the score of pattern `j` leads from the locals after `j` patterns to those after `j + 1` |
| Matcher.IntentStep | bil.py:139-145 | one pass of the outer loop's body, the whole inner loop over intent `i`, leads from the locals after `i` intents to those after `i + 1` |
| Matcher.StepAgrees | bil.py:141-145 | one pattern of the nested loops takes the same step as one pair of the flat scan |
| Matcher.PatternsAgree | bil.py:140-145 | the inner loop over one intent's patterns takes the steps the flat scan takes over those pairs |
| Matcher.BlockEntry | bil.py:139-142 | the score of pattern `k` of intent `i` in the table is the flat score at that pair's position, and the pair there belongs to intent `i` |
| Matcher.AlignedFrom | bil.py:139-142 | a row whose every entry sits at its place in the flat scores, with a pair of its intent there, is aligned with the flat scan from that place |
| Matcher.IntentRow | bil.py:139-142 | the row of intent `i` has one entry per pattern and lines up with the flat scores and pairs from the position where that intent's pairs start |
| Matcher.IntentsAgree | bil.py:139-145 | whenever every row lines up with the flat scores and pairs of its intent, after each intent the nested loops are in the state the flat scan reaches after that intent's pairs |
| Matcher.IntentAgrees | bil.py:139-145 | one intent more: if the nested loops agree with the flat scan before that intent's row, they agree after it |
| Matcher.Nested | bil.py:134-147 | what the two nested loops of `get_intent` give: the exception they raise, or `matched_intent` once both loops are done |
| Matcher.NestedIsFlat | bil.py:134-147 | the nested loops of `get_intent` compute the flat scan's result |
| Matcher.PatternsRaisedStay | bil.py:142 | once the inner loop has raised, it stays raised |
| Matcher.PatternsFromRaised | bil.py:142 | an inner loop entered after an exception runs nothing |
| Matcher.IntentsRaisedStay | bil.py:142 | once the outer loop has raised, it stays raised |
| Matcher.RaisedInside | bil.py:142 | a division by zero at any pattern is what the whole nested loop raises |
| Chatbot.Choose | bil.py:156 | `random.choice(responses)`: raises (the `IndexError` of an empty list) exactly when there is no response, and otherwise returns one of them |
| Chatbot.Respond | bil.py:153-165 | the apology when `get_intent` raised or the matched intent has no response; the rendered response at index `draw % len(responses)` when a known intent matched; the rephrase request otherwise |
| Chatbot.Reply | bil.py:149-165 | `get_response(user_input)`: `Respond` applied to `get_intent` of the normalised input |
| Chatbot.ReplyOfMatchedIntent | bil.py:155-159 | when an intent matches, the reply is one of its responses (the text itself, or the producer's output), and every response is the reply for some draw |
| Chatbot.CatalogRepliesAreNotApologies | bil.py:60-121 | no loaded response, and not the rephrase request, is the apology |
| Chatbot.CatalogNeverApologises | bil.py:149-165 | with the loaded catalog, `get_response` never reaches its `except` branch: it returns the rephrase request or a response of some intent |
| Chatbot.FirstIntentPatternReply | bil.py:149-159 | typing a pattern of the first intent gets one of that intent's responses |
| Chatbot.BonjourGetsGreeting | bil.py:149-159 | typing "bonjour" gets one of the three `salutations` texts verbatim |
| Chatbot.AdvancedVoiceChatbot.constructor | bil.py:52-56 | a new chatbot has the catalog loaded |
| Chatbot.AdvancedVoiceChatbot.LoadTrainingData | bil.py:58-121 | `self.intents` becomes the catalog, which is well formed |
| Chatbot.AdvancedVoiceChatbot.GetIntent | bil.py:134-147 | the outer loop, running the inner one for each intent, returns what `Nested` gives, including the `ZeroDivisionError` the inner loop raises; `NestedIsFlat` and the `Resolve` lemmas then give its meaning |
| Chatbot.AdvancedVoiceChatbot.MatchPatterns | bil.py:140-145 | the inner loop over one intent's patterns leaves the locals `ScanPatterns` gives for that intent's row of scores, or raises the `ZeroDivisionError` of its division |
| Chatbot.AdvancedVoiceChatbot.GetResponse | bil.py:149-165 | the reply is the one `Reply` gives for the input, draw and clock; with the loaded catalog and ordinary string tools it is never the apology |

## Left out

- The Streamlit page, its CSS, the chat history in `st.session_state` and
  `main` (bil.py:17-49, bil.py:192-249): user interface and I/O. The misspelled
  entry guard `"_main_"` (bil.py:248) belongs to this part.
- `transcribe_speech` (bil.py:167-190): microphone capture and a network
  speech-recognition call.
- The algorithms of `FrenchStemmer`, of Unicode `\w` and of `str.lower` are not
  part of this model. They are given as data in `Tools`. Their answers are taken
  as given, and properties that need something of them say so in a `requires`.
- `str.lower` is modelled character by character. Lowercase mappings that turn
  one character into several, such as `İ`, are not modelled, and neither are
  context-dependent ones: a word-final capital sigma `Σ` becomes `ς` in Python
  and `σ` elsewhere, while the model maps each character the same way
  everywhere.
- `random.choice` and `datetime.now().strftime`: the chosen index and the
  formatted time and date are inputs. Date and time formatting is not modelled.
- The `st.error` calls in the two `except` branches (bil.py:131,
  bil.py:164): UI output only. Only the returned values are kept.
- The imports that are never used: `string`, `requests`, `pandas`, `json`,
  `TextBlob`.
- Chatbot.AdvancedVoiceChatbot.constructor: models the intended `__init__`.
  The source spells it `_init_`, so as written Python never runs it, and the
  catalog is never loaded.
- Python floats: scores are exact rationals. The division of two small counts
  and its comparison with 0.2 order scores the same way.
