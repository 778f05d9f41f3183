/** A few entries of the source's question table, kept apart from the
    modules that only need the table's shape. */
module SampleTable {
  import opened Wrappers
  import opened QuestionBank
  import opened JsStrings
  import opened TopicResolver

  /** A few entries of the table, as the source lists them. */
  const SampleDatabase: Database := [
    Topic("history", [
      Subtopic("Ancient Civilizations", [
        Record("What year did the Roman Empire officially fall?", "476 AD", "Ancient Rome"),
        Record("Which pharaoh built the Great Pyramid of Giza?", "Khufu (Cheops)", "Ancient Egypt")
      ]),
      Subtopic("World Wars", [
        Record("In what year did World War I begin?", "1914", "WWI"),
        Record("What was the code name for the D-Day invasion?", "Operation Overlord", "WWII"),
        Record("Which battle is considered the turning point of WWII in Europe?", "Battle of Stalingrad", "WWII")
      ])
    ]),
    Topic("science", [
      Subtopic("Physics", [
        Record("Who formulated the theory of general relativity?", "Albert Einstein", "Physics"),
        Record("What force keeps planets in orbit around the sun?", "Gravity", "Physics")
      ])
    ]),
    Topic("technology", [
      Subtopic("Computing", [
        Record("What does CPU stand for?", "Central Processing Unit", "Computing"),
        Record("Who founded Microsoft?", "Bill Gates and Paul Allen", "Technology")
      ])
    ])
  ]

  /** A request for "Ancient Rome trivia" against these entries searches no
      topic and falls back to every record of the table, whatever the genre. */
  lemma SampleAncientRomeFallsBack(genre: Option<string>)
    ensures ResolvedPool(Lower("Ancient Rome trivia"), genre, SampleDatabase) == AllQuestions(SampleDatabase)
  {
    forall t | 0 <= t < |SampleDatabase|
      ensures SampleDatabase[t].key in SourceKeys
    {
    }
    AncientRomeFallsBack(genre, SampleDatabase);
  }
}
