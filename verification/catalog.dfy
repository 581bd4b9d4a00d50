/**
  The intent catalog that `load_training_data` stores in `self.intents`: intents in
  declaration order (Python dicts keep insertion order), each with its example
  patterns and its possible responses.
 */
module Catalog {
  import opened Faults

  /** What the clock reads when a computed response is produced:
      `datetime.datetime.now().strftime('%H:%M')` and `.strftime('%d/%m/%Y')`. */
  datatype Clock = Clock(time: string, date: string)

  /** The zero-argument lambdas of the catalog. */
  datatype Producer = CurrentTime | CurrentDate

  /** A canned reply, or one computed when it is chosen. */
  datatype Response = Fixed(text: string) | Computed(producer: Producer)

  datatype Intent = Intent(name: string, patterns: seq<string>, responses: seq<Response>)

  /** The text a response yields: the string itself, or the producer called now. */
  function Render(r: Response, clock: Clock): string
  {
    match r
    case Fixed(text) => text
    case Computed(CurrentTime) => "Il est actuellement " + clock.time + "."
    case Computed(CurrentDate) => "Nous sommes le " + clock.date + "."
  }

  /** A computed response shows the clock it is rendered with, not a stored one:
      two renderings agree only if the clock read the same. */
  lemma RenderReadsClock(p: Producer, c1: Clock, c2: Clock)
    ensures p == CurrentTime ==>
      (Render(Computed(p), c1) == Render(Computed(p), c2) <==> c1.time == c2.time)
    ensures p == CurrentDate ==>
      (Render(Computed(p), c1) == Render(Computed(p), c2) <==> c1.date == c2.date)
  {
    var prefix := if p == CurrentTime then "Il est actuellement " else "Nous sommes le ";
    var t1 := if p == CurrentTime then c1.time else c1.date;
    var t2 := if p == CurrentTime then c2.time else c2.date;
    var r1, r2 := Render(Computed(p), c1), Render(Computed(p), c2);
    assert r1 == prefix + t1 + "." && r2 == prefix + t2 + ".";
    if r1 == r2 {
      assert |t1| == |t2|;
      assert r1[|prefix|..|prefix| + |t1|] == t1;
      assert r2[|prefix|..|prefix| + |t2|] == t2;
    }
  }

  /** The example patterns of each intent of `load_training_data`, in
      catalog order. */
  function Patterns(): seq<seq<string>>
  {
    [["bonjour", "salut", "hello", "coucou", "hey", "bonsoir",
      "comment ça va", "comment vas-tu", "ça va"],
     ["au revoir", "bye", "à bientôt", "à plus", "adieu", "bonne journée"],
     ["quelle heure", "l'heure", "heure actuelle", "temps"],
     ["quel jour", "quelle date", "date aujourd'hui", "on est quel jour"],
     ["comment te sens tu", "ça va", "tu vas bien", "ton humeur"],
     ["que sais tu faire", "tes capacités", "peux tu faire",
      "tes fonctionnalités", "aide", "help"]]
  }

  /** The data of `load_training_data`. Long texts are written as
      concatenations of short literals; the text is the same. */
  function Intents(): seq<Intent>
  {
    [
      Intent("salutations",
        Patterns()[0],
        [Fixed("Bonjour! Je suis votre "
               + "assistant virtuel. Comment "
               + "puis-je vous aider?"),
         Fixed("Salut! Ravi de vous parler. "
               + "Que puis-je faire pour vous?"),
         Fixed("Hey! Je suis là pour vous "
               + "aider. Que souhaitez-vous "
               + "faire?")]),
      Intent("aurevoir",
        Patterns()[1],
        [Fixed("Au revoir! Passez une "
               + "excellente journée!"),
         Fixed("À bientôt! N'hésitez pas à "
               + "revenir si vous avez besoin "
               + "d'aide."),
         Fixed("Au revoir et merci de votre "
               + "visite!")]),
      Intent("heure",
        Patterns()[2],
        [Computed(CurrentTime)]),
      Intent("date",
        Patterns()[3],
        [Computed(CurrentDate)]),
      Intent("humeur",
        Patterns()[4],
        [Fixed("Je suis un programme, mais "
               + "j'apprécie votre intérêt! Je "
               + "suis là pour vous aider."),
         Fixed("Très bien, merci! Comment "
               + "puis-je vous assister "
               + "aujourd'hui?"),
         Fixed("En pleine forme et prêt à vous "
               + "aider!")]),
      Intent("capacités",
        Patterns()[5],
        [Fixed("Je peux vous aider avec "
               + "plusieurs choses :\n"
               + "                    "
               + "- Vous donner l'heure et la date\n"
               + "                    "
               + "- Répondre à des questions "
               + "générales\n"
               + "                    "
               + "- Effectuer des calculs simples\n"
               + "                    "
               + "- Et bien plus encore! "
               + "N'hésitez pas à me poser vos "
               + "questions.")])
    ]
  }

  /** What a Python dict of intents guarantees, plus the shape every catalog entry
      has: names are non-empty (so truthy) and distinct, and every intent has a
      pattern and a response. */
  ghost predicate WellFormed(intents: seq<Intent>)
  {
    && (forall k :: 0 <= k < |intents| ==>
          intents[k].name != "" && intents[k].patterns != [] && intents[k].responses != [])
    && (forall k, m :: 0 <= k < m < |intents| ==> intents[k].name != intents[m].name)
  }

  /** `self.intents[name]`, for a name that `name in self.intents` accepts. */
  function Lookup(intents: seq<Intent>, name: string): (found: Option<Intent>)
    ensures found.Some? <==> exists k :: 0 <= k < |intents| && intents[k].name == name
    ensures found.Some? ==> found.value in intents && found.value.name == name
  {
    if intents == [] then None
    else if intents[0].name == name then Some(intents[0])
    else
      var rest := Lookup(intents[1..], name);
      assert forall k :: 1 <= k < |intents| ==> intents[k] == intents[1..][k - 1];
      rest
  }

  /** In a well-formed catalog the name picks out exactly its intent. */
  lemma {:induction false} LookupFindsOwner(intents: seq<Intent>, k: nat)
    requires WellFormed(intents) && k < |intents|
    ensures Lookup(intents, intents[k].name) == Some(intents[k])
  {
    if k > 0 {
      assert intents[0].name != intents[k].name;
      var rest := intents[1..];
      assert rest[k - 1] == intents[k];
      assert WellFormed(rest) by {
        forall j, m | 0 <= j < m < |rest| ensures rest[j].name != rest[m].name {
          assert rest[j] == intents[j + 1] && rest[m] == intents[m + 1];
        }
      }
      LookupFindsOwner(rest, k - 1);
    }
  }

  /** Every intent of the loaded catalog has a non-empty name, a pattern and a
      response. */
  lemma CatalogShape()
    ensures forall k :: 0 <= k < |Intents()| ==>
      Intents()[k].name != "" && Intents()[k].patterns != [] && Intents()[k].responses != []
  {
  }

  /** The names of the loaded catalog are distinct. */
  lemma CatalogNamesDistinct()
    ensures forall k, m :: 0 <= k < m < |Intents()| ==> Intents()[k].name != Intents()[m].name
  {
  }

  /** The loaded catalog is well formed. */
  lemma CatalogWellFormed()
    ensures WellFormed(Intents())
  {
    CatalogShape();
    CatalogNamesDistinct();
  }

  /** `s` holds a lowercase ASCII letter. */
  ghost predicate HasAsciiLetter(s: string)
  {
    exists i :: 0 <= i < |s| && 'a' <= s[i] <= 'z'
  }

  /** Every pattern of the loaded catalog holds a lowercase ASCII letter. */
  lemma CatalogPatternsHaveLetters()
    ensures forall i, j :: 0 <= i < |Intents()| && 0 <= j < |Intents()[i].patterns| ==>
      HasAsciiLetter(Intents()[i].patterns[j])
  {
    PatternsHaveLetters();
    forall i | 0 <= i < |Intents()| ensures Intents()[i].patterns == Patterns()[i] {}
  }

  /** Every pattern of the table holds a lowercase ASCII letter. */
  lemma PatternsHaveLetters()
    ensures forall i, j :: 0 <= i < |Patterns()| && 0 <= j < |Patterns()[i]| ==>
      HasAsciiLetter(Patterns()[i][j])
  {
    forall i, j | 0 <= i < |Patterns()| && 0 <= j < |Patterns()[i]|
      ensures HasAsciiLetter(Patterns()[i][j])
    {
      var p := Patterns()[i][j];
      if 'a' <= p[0] <= 'z' {
        assert 'a' <= p[0] <= 'z';
      } else if 'a' <= p[1] <= 'z' {
        assert 'a' <= p[1] <= 'z';
      } else {
        assert 'a' <= p[2] <= 'z';
      }
    }
  }

  /** "ça va" is a pattern of both `salutations` and `humeur`, listed first under
      `salutations`. */
  lemma SharedPattern()
    ensures Intents()[0].name == "salutations" && Intents()[0].patterns[8] == "ça va"
    ensures Intents()[4].name == "humeur" && Intents()[4].patterns[1] == "ça va"
  {
  }

  /** The first intent of the catalog is `salutations`, its first pattern is
      "bonjour", and its responses are fixed texts. */
  lemma Greetings()
    ensures Intents()[0].name == "salutations" && Intents()[0].patterns[0] == "bonjour"
    ensures forall m :: 0 <= m < |Intents()[0].responses| ==> Intents()[0].responses[m].Fixed?
  {
  }
}
