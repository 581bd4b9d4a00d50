/**
  The chatbot object: `self.intents` loaded by `load_training_data`, the
  matcher `get_intent` and the reply `get_response`.
 */
module Chatbot {
  import opened Faults
  import opened Normalizer
  import opened Scoring
  import opened Catalog
  import opened Matcher

  /** The reply when no intent matched. */
  const Rephrase: string := "Je ne suis pas sûr de "
    + "comprendre. Pouvez-vous "
    + "reformuler?"

  /** The reply when an exception reached `get_response`. */
  const Apology: string := "Désolé, une erreur s'est "
    + "produite. Pouvez-vous "
    + "réessayer?"

  /** `random.choice(responses)` with the index `draw % len(responses)`: it
      raises on an empty list, and otherwise picks one of the responses. */
  function Choose(responses: seq<Response>, draw: nat): (r: Result<Response>)
    ensures r.Raised? <==> responses == []
    ensures r.Raised? ==> r.fault == EmptyChoice
    ensures r.Ok? ==> r.value in responses
  {
    if responses == [] then Raised(EmptyChoice) else Ok(responses[draw % |responses|])
  }

  /** What `get_response` returns once `get_intent` has given `outcome`: the
      apology if it raised, the rephrase request if no known intent matched, and
      otherwise a response of the matched intent, drawn by `Choose`; an exception
      of `random.choice` is also answered by the apology. The clock is `clock`. */
  function Respond(intents: seq<Intent>, outcome: Result<Option<string>>, draw: nat, clock: Clock): string
  {
    match outcome
    case Raised(_) => Apology
    case Ok(None) => Rephrase
    case Ok(Some(name)) =>
      if name != "" && Lookup(intents, name).Some? then
        match Choose(Lookup(intents, name).value.responses, draw)
        case Raised(_) => Apology
        case Ok(response) => Render(response, clock)
      else Rephrase
  }

  /** What `get_response(user_input)` returns. */
  function Reply(tools: Tools, intents: seq<Intent>, userInput: string, draw: nat, clock: Clock): string
  {
    Respond(intents, Resolve(tools, intents, Preprocess(tools, userInput)), draw, clock)
  }

  /** When an intent matches, the reply is one of its responses, and each of
      them is the reply for some draw. */
  lemma ReplyOfMatchedIntent(intents: seq<Intent>, draw: nat, clock: Clock, k: nat)
    requires WellFormed(intents) && k < |intents|
    ensures exists m :: 0 <= m < |intents[k].responses| &&
                        Respond(intents, Ok(Some(intents[k].name)), draw, clock) == Render(intents[k].responses[m], clock)
    ensures forall m :: 0 <= m < |intents[k].responses| ==>
      Respond(intents, Ok(Some(intents[k].name)), m, clock) == Render(intents[k].responses[m], clock)
  {
    LookupFindsOwner(intents, k);
    var n := |intents[k].responses|;
    var m := draw % n;
    assert Respond(intents, Ok(Some(intents[k].name)), draw, clock) == Render(intents[k].responses[m], clock);
    forall m | 0 <= m < n
      ensures Respond(intents, Ok(Some(intents[k].name)), m, clock) == Render(intents[k].responses[m], clock)
    {
      SmallDraw(m, n);
    }
  }

  /** A draw below the number of responses picks that very response. */
  lemma SmallDraw(m: nat, n: nat)
    requires m < n
    ensures m % n == m
  {
  }

  /** No text of the catalog is the apology: none starts with its first letter. */
  lemma CatalogRepliesAreNotApologies(clock: Clock)
    ensures forall i, m :: 0 <= i < |Intents()| && 0 <= m < |Intents()[i].responses| ==>
      Render(Intents()[i].responses[m], clock) != Apology
    ensures Rephrase != Apology
  {
    assert Apology[0] == 'D' && Rephrase[0] == 'J';
    forall i, m | 0 <= i < |Intents()| && 0 <= m < |Intents()[i].responses|
      ensures Render(Intents()[i].responses[m], clock) != Apology
    {
      var text := Render(Intents()[i].responses[m], clock);
      assert text != [] && text[0] != 'D';
    }
  }

  /** With the loaded catalog, `get_response` never reaches its `except` branch:
      the reply is the rephrase request or one of the matched intent's texts. */
  lemma CatalogNeverApologises(tools: Tools, userInput: string, draw: nat, clock: Clock)
    requires AsciiLettersAreWords(tools)
    ensures Reply(tools, Intents(), userInput, draw, clock) != Apology
    ensures Reply(tools, Intents(), userInput, draw, clock) == Rephrase ||
      exists i, m :: 0 <= i < |Intents()| && 0 <= m < |Intents()[i].responses| &&
                     Reply(tools, Intents(), userInput, draw, clock) == Render(Intents()[i].responses[m], clock)
  {
    var tokens := Preprocess(tools, userInput);
    CatalogNeverRaises(tools, tokens);
    CatalogWellFormed();
    CatalogRepliesAreNotApologies(clock);
    var outcome := Resolve(tools, Intents(), tokens);
    if outcome.value.Some? && Lookup(Intents(), outcome.value.value).Some? {
      var name := outcome.value.value;
      var i :| 0 <= i < |Intents()| && Intents()[i].name == name;
      ReplyOfMatchedIntent(Intents(), draw, clock, i);
    }
  }

  /** Typing a pattern of the first intent gets one of that intent's responses. */
  lemma FirstIntentPatternReply(tools: Tools, intents: seq<Intent>, j: nat, draw: nat, clock: Clock)
    requires WellFormed(intents) && intents != [] && j < |intents[0].patterns|
    requires Preprocess(tools, intents[0].patterns[j]) != []
    ensures exists m :: 0 <= m < |intents[0].responses| &&
                        Reply(tools, intents, intents[0].patterns[j], draw, clock) == Render(intents[0].responses[m], clock)
  {
    FirstIntentPatternWins(tools, intents, j);
    ReplyOfMatchedIntent(intents, draw, clock, 0);
  }

  /** Typing "bonjour", the first pattern of the first intent, gets one of the
      greetings. */
  lemma BonjourGetsGreeting(tools: Tools, draw: nat, clock: Clock)
    requires Preprocess(tools, "bonjour") != []
    ensures Intents()[0].name == "salutations"
    ensures exists m :: 0 <= m < |Intents()[0].responses| &&
                        Reply(tools, Intents(), "bonjour", draw, clock) == Intents()[0].responses[m].text
  {
    Greetings();
    CatalogWellFormed();
    FirstIntentPatternReply(tools, Intents(), 0, draw, clock);
    var m :| 0 <= m < |Intents()[0].responses| &&
             Reply(tools, Intents(), "bonjour", draw, clock) == Render(Intents()[0].responses[m], clock);
  }

  class AdvancedVoiceChatbot {
    /** What the tokenizer, the stemmer and the string builtins that
        `preprocess_text` uses answer. */
    const tools: Tools
    /** `self.intents`. */
    var intents: seq<Intent>

    /** The catalog has been loaded. */
    ghost predicate Valid()
      reads this
    {
      intents == Intents()
    }

    /** The constructor as intended: it loads the catalog. */
    constructor (tools: Tools)
      ensures this.tools == tools && Valid()
    {
      this.tools := tools;
      intents := [];
      new;
      LoadTrainingData();
    }

    /** `load_training_data`: stores the catalog in `self.intents`. */
    method LoadTrainingData()
      modifies this
      ensures Valid() && WellFormed(intents)
    {
      intents := Intents();
      CatalogWellFormed();
    }

    /** `get_intent(tokens)`: the outer loop, over the intents. An exception the
        inner loop raises ends `get_intent`. */
    method GetIntent(tokens: seq<string>) returns (matched: Result<Option<string>>)
      ensures matched == Nested(tools, intents, tokens)
    {
      var catalog := intents;
      ghost var table := ScoreTable(tools, tokens, catalog);
      var maxSimilarity: real := 0.0;
      var matchedIntent: Option<string> := None;
      var i := 0;
      while i < |catalog|
        invariant 0 <= i <= |catalog|
        invariant ScanIntents(table, catalog, i) == Ok(State(maxSimilarity, matchedIntent))
      {
        var outcome := MatchPatterns(catalog[i], tokens, maxSimilarity, matchedIntent);
        TableRow(tools, tokens, catalog, i);
        IntentStep(table, catalog, i);
        if outcome.Raised? {
          IntentsRaisedStay(table, catalog, i + 1, |catalog|);
          return Raised(outcome.fault);
        }
        maxSimilarity, matchedIntent := outcome.value.max, outcome.value.matched;
        i := i + 1;
      }
      matched := Ok(matchedIntent);
    }

    /** The inner loop of `get_intent`, over the patterns of `intent`, from the
        locals `max_similarity` and `matched_intent`: the new locals, or the
        `ZeroDivisionError` the division raises. */
    method MatchPatterns(intent: Intent, tokens: seq<string>, max: real, matched: Option<string>)
      returns (outcome: Result<State>)
      ensures outcome == ScanPatterns(RowScores(tools, tokens, intent.patterns), intent.name,
                                      |intent.patterns|, Ok(State(max, matched)))
    {
      ghost var row := RowScores(tools, tokens, intent.patterns);
      var maxSimilarity, matchedIntent := max, matched;
      var j := 0;
      while j < |intent.patterns|
        invariant 0 <= j <= |intent.patterns|
        invariant ScanPatterns(row, intent.name, j, Ok(State(max, matched))) == Ok(State(maxSimilarity, matchedIntent))
      {
        var patternTokens := Preprocess(tools, intent.patterns[j]);
        var s := Similarity(tokens, patternTokens);
        RowAt(tools, tokens, intent.patterns, j);
        PatternStep(row, intent.name, j, Ok(State(max, matched)), State(maxSimilarity, matchedIntent), s);
        if s.union == 0 {
          PatternsRaisedStay(row, intent.name, j + 1, |row|, Ok(State(max, matched)));
          return Raised(ZeroDivision);
        }
        var similarity := Ratio(s);
        if similarity > maxSimilarity && similarity > Threshold {
          maxSimilarity := similarity;
          matchedIntent := Some(intent.name);
        }
        j := j + 1;
      }
      outcome := Ok(State(maxSimilarity, matchedIntent));
    }

    /** `get_response(user_input)`, with the random draw and the clock as inputs. */
    method GetResponse(userInput: string, draw: nat, clock: Clock) returns (reply: string)
      ensures reply == Reply(tools, intents, userInput, draw, clock)
      ensures Valid() && AsciiLettersAreWords(tools) ==> reply != Apology
    {
      var tokens := Preprocess(tools, userInput);
      var outcome := GetIntent(tokens);
      NestedIsFlat(tools, tokens, intents);
      if outcome.Raised? {
        reply := Apology;
      } else if outcome.value.Some? && outcome.value.value != "" && Lookup(intents, outcome.value.value).Some? {
        var choice := Choose(Lookup(intents, outcome.value.value).value.responses, draw);
        if choice.Raised? {
          reply := Apology;
        } else {
          reply := Render(choice.value, clock);
        }
      } else {
        reply := Rephrase;
      }
      assert reply == Respond(intents, outcome, draw, clock);
      if Valid() && AsciiLettersAreWords(tools) {
        CatalogNeverApologises(tools, userInput, draw, clock);
      }
    }
  }
}
