/** Topic resolution of `generateTopicQuestions`: which records of the table
    make up the question pool for a free-text topic and an optional genre. */
module TopicResolver {
  import opened Wrappers
  import opened JsStrings
  import opened QuestionBank

  /** A main topic is searched when the lower-cased input includes its key,
      or its key includes the input's first space-separated token; so a key
      that starts with that token is searched, and an input whose first
      token is empty (empty, or starting with a space) searches every key. */
  predicate TopicMatches(topicLower: string, key: string): (r: bool)
    ensures Contains(topicLower, key) ==> r
    ensures Contains(key, FirstToken(topicLower)) ==> r
    ensures IsPrefix(FirstToken(topicLower), key) ==> r
    ensures FirstToken(topicLower) == [] ==> r
  {
    ContainsEmpty(key);
    Contains(topicLower, key) || Contains(key, FirstToken(topicLower))
  }

  /** A subtopic of a searched topic is kept when there is no genre, when its
      lower-cased name includes the lower-cased genre, or when the input
      includes its lower-cased name. */
  predicate SubtopicKept(topicLower: string, genre: Option<string>, name: string): (r: bool)
    ensures !Truthy(genre) ==> r
    ensures Truthy(genre) && Lower(name) == Lower(genre.value) ==> r
    ensures Truthy(genre) && Contains(Lower(name), Lower(genre.value)) ==> r
    ensures Contains(topicLower, Lower(name)) ==> r
  {
    !Truthy(genre) || Contains(Lower(name), Lower(genre.value)) || Contains(topicLower, Lower(name))
  }

  /** The records of the kept subtopics of one topic, in order. */
  function KeptQuestions(topicLower: string, genre: Option<string>, subs: seq<Subtopic>): seq<Record>
  {
    if subs == [] then []
    else
      var last := subs[|subs| - 1];
      KeptQuestions(topicLower, genre, subs[..|subs| - 1])
        + (if SubtopicKept(topicLower, genre, last.name) then last.questions else [])
  }

  /** The records of the kept subtopics of every searched topic, in order. */
  function MatchedQuestions(topicLower: string, genre: Option<string>, db: Database): seq<Record>
  {
    if db == [] then []
    else
      var last := db[|db| - 1];
      MatchedQuestions(topicLower, genre, db[..|db| - 1])
        + (if TopicMatches(topicLower, last.key) then KeptQuestions(topicLower, genre, last.subtopics) else [])
  }

  /** The pool: the matched records, or the whole table when none matched. */
  function ResolvedPool(topicLower: string, genre: Option<string>, db: Database): seq<Record>
  {
    var matched := MatchedQuestions(topicLower, genre, db);
    if matched == [] then AllQuestions(db) else matched
  }

  /** Subtopic `s` of topic `t` contributes its records to the pool. */
  predicate Chosen(topicLower: string, genre: Option<string>, db: Database, t: int, s: int)
  {
    0 <= t < |db| && 0 <= s < |db[t].subtopics|
    && TopicMatches(topicLower, db[t].key)
    && SubtopicKept(topicLower, genre, db[t].subtopics[s].name)
  }

  /** Subtopic `s` of topic `t` holds record `r`. */
  predicate Holds(db: Database, t: int, s: int, r: Record)
  {
    0 <= t < |db| && 0 <= s < |db[t].subtopics| && r in db[t].subtopics[s].questions
  }

  /** Builds the pool as the source does: a pass over the topics that
      appends the kept subtopics of every searched one, then, when nothing
      was found, a pass that appends every subtopic. */
  method ResolvePool(db: Database, topicInput: string, genre: Option<string>) returns (pool: seq<Record>)
    ensures pool == ResolvedPool(Lower(topicInput), genre, db)
    ensures AllQuestions(db) != [] ==> pool != []
  {
    var topicLower := Lower(topicInput);
    pool := CollectMatched(db, topicLower, genre);
    if pool == [] {
      pool := CollectAll(db);
    }
  }

  /** The outer pass over the main topics. */
  method CollectMatched(db: Database, topicLower: string, genre: Option<string>) returns (relevant: seq<Record>)
    ensures relevant == MatchedQuestions(topicLower, genre, db)
  {
    relevant := [];
    var t := 0;
    while t < |db|
      invariant 0 <= t <= |db|
      invariant relevant == MatchedQuestions(topicLower, genre, db[..t])
    {
      assert db[..t + 1][..t] == db[..t];
      if TopicMatches(topicLower, db[t].key) {
        relevant := AppendKept(relevant, topicLower, genre, db[t].subtopics);
      }
      t := t + 1;
    }
    assert db[..t] == db;
  }

  /** The inner pass over one searched topic's subtopics. */
  method AppendKept(relevant: seq<Record>, topicLower: string, genre: Option<string>, subs: seq<Subtopic>)
    returns (r: seq<Record>)
    ensures r == relevant + KeptQuestions(topicLower, genre, subs)
  {
    r := relevant;
    var s := 0;
    while s < |subs|
      invariant 0 <= s <= |subs|
      invariant r == relevant + KeptQuestions(topicLower, genre, subs[..s])
    {
      assert subs[..s + 1][..s] == subs[..s];
      if SubtopicKept(topicLower, genre, subs[s].name) {
        r := r + subs[s].questions;
      }
      s := s + 1;
    }
    assert subs[..s] == subs;
  }

  /** The fallback pass: every subtopic list of every topic. */
  method CollectAll(db: Database) returns (relevant: seq<Record>)
    ensures relevant == AllQuestions(db)
  {
    relevant := [];
    var t := 0;
    while t < |db|
      invariant 0 <= t <= |db|
      invariant relevant == AllQuestions(db[..t])
    {
      assert db[..t + 1][..t] == db[..t];
      var s := 0;
      var before := relevant;
      var subs := db[t].subtopics;
      while s < |subs|
        invariant 0 <= s <= |subs|
        invariant relevant == before + SubtopicQuestions(subs[..s])
      {
        assert subs[..s + 1][..s] == subs[..s];
        relevant := relevant + subs[s].questions;
        s := s + 1;
      }
      assert subs[..s] == subs;
      t := t + 1;
    }
    assert db[..t] == db;
  }

  /** A record is in one topic's kept records iff a kept subtopic holds it. */
  lemma {:induction false} InKeptQuestions(topicLower: string, genre: Option<string>, subs: seq<Subtopic>, r: Record)
    ensures r in KeptQuestions(topicLower, genre, subs)
            <==> exists s :: 0 <= s < |subs| && SubtopicKept(topicLower, genre, subs[s].name) && r in subs[s].questions
  {
    if subs != [] {
      var init := subs[..|subs| - 1];
      InKeptQuestions(topicLower, genre, init, r);
      assert forall s :: 0 <= s < |init| ==> init[s] == subs[s];
    }
  }

  /** A record is matched iff some chosen subtopic of some searched topic
      holds it. */
  lemma {:induction false} InMatchedQuestions(topicLower: string, genre: Option<string>, db: Database, r: Record)
    ensures r in MatchedQuestions(topicLower, genre, db)
            <==> exists t, s :: Chosen(topicLower, genre, db, t, s) && r in db[t].subtopics[s].questions
  {
    if db != [] {
      var init := db[..|db| - 1];
      var last := db[|db| - 1];
      InMatchedQuestions(topicLower, genre, init, r);
      InKeptQuestions(topicLower, genre, last.subtopics, r);
      assert forall t :: 0 <= t < |init| ==> init[t] == db[t];
      if r in MatchedQuestions(topicLower, genre, init) {
        var t, s :| Chosen(topicLower, genre, init, t, s) && r in init[t].subtopics[s].questions;
        assert Chosen(topicLower, genre, db, t, s);
      } else if TopicMatches(topicLower, last.key) && r in KeptQuestions(topicLower, genre, last.subtopics) {
        var s :| 0 <= s < |last.subtopics| && SubtopicKept(topicLower, genre, last.subtopics[s].name)
                 && r in last.subtopics[s].questions;
        assert Chosen(topicLower, genre, db, |db| - 1, s);
      }
      if exists t, s :: Chosen(topicLower, genre, db, t, s) && r in db[t].subtopics[s].questions {
        var t, s :| Chosen(topicLower, genre, db, t, s) && r in db[t].subtopics[s].questions;
        if t < |init| {
          assert Chosen(topicLower, genre, init, t, s);
        }
      }
    }
  }

  /** Without a genre every subtopic of a searched topic is kept. */
  lemma {:induction false} NoGenreKeepsAll(topicLower: string, genre: Option<string>, subs: seq<Subtopic>)
    requires !Truthy(genre)
    ensures KeptQuestions(topicLower, genre, subs) == SubtopicQuestions(subs)
  {
    if subs != [] {
      NoGenreKeepsAll(topicLower, genre, subs[..|subs| - 1]);
    }
  }

  /** The first token of the empty input is empty, and every key includes
      it: an empty input searches every topic. */
  lemma EmptyInputMatchesEveryKey(key: string)
    ensures TopicMatches("", key)
  {
    ContainsEmpty(key);
  }

  /** An empty input without a genre resolves to the whole table. */
  lemma {:induction false} EmptyInputResolvesAll(genre: Option<string>, db: Database)
    requires !Truthy(genre)
    ensures ResolvedPool("", genre, db) == AllQuestions(db)
  {
    EmptyInputMatchesAll(genre, db);
  }

  lemma {:induction false} EmptyInputMatchesAll(genre: Option<string>, db: Database)
    requires !Truthy(genre)
    ensures MatchedQuestions("", genre, db) == AllQuestions(db)
  {
    if db != [] {
      EmptyInputMatchesAll(genre, db[..|db| - 1]);
      EmptyInputMatchesEveryKey(db[|db| - 1].key);
      NoGenreKeepsAll("", genre, db[|db| - 1].subtopics);
    }
  }

  /** Every record of the pool comes from the table. */
  lemma PoolFromTable(topicLower: string, genre: Option<string>, db: Database, r: Record)
    requires r in ResolvedPool(topicLower, genre, db)
    ensures exists t, s :: Holds(db, t, s, r)
  {
    if r in MatchedQuestions(topicLower, genre, db) {
      InMatchedQuestions(topicLower, genre, db, r);
      var t, s :| Chosen(topicLower, genre, db, t, s) && r in db[t].subtopics[s].questions;
      assert Holds(db, t, s, r);
    } else {
      InAllQuestions(db, r);
    }
  }

  /** A record is in the whole table iff some subtopic holds it. */
  lemma {:induction false} InAllQuestions(db: Database, r: Record)
    ensures r in AllQuestions(db) <==> exists t, s :: Holds(db, t, s, r)
  {
    if db != [] {
      var init := db[..|db| - 1];
      var last := db[|db| - 1];
      InAllQuestions(init, r);
      InSubtopicQuestions(last.subtopics, r);
      if r in AllQuestions(init) {
        var t, s :| Holds(init, t, s, r);
        assert init[t] == db[t];
        assert Holds(db, t, s, r);
      } else if r in SubtopicQuestions(last.subtopics) {
        var s :| 0 <= s < |last.subtopics| && r in last.subtopics[s].questions;
        assert Holds(db, |db| - 1, s, r);
      }
      if exists t, s :: Holds(db, t, s, r) {
        var t, s :| Holds(db, t, s, r);
        if t < |init| {
          assert init[t] == db[t];
          assert Holds(init, t, s, r);
        } else {
          assert r in SubtopicQuestions(last.subtopics);
        }
      }
    }
  }

  /** With no searched topic nothing is matched. */
  lemma {:induction false} NoneMatched(topicLower: string, genre: Option<string>, db: Database)
    requires forall t :: 0 <= t < |db| ==> !TopicMatches(topicLower, db[t].key)
    ensures MatchedQuestions(topicLower, genre, db) == []
  {
    if db != [] {
      NoneMatched(topicLower, genre, db[..|db| - 1]);
    }
  }

  /** The lower-cased input. */
  lemma AncientRomeLower()
    ensures Lower("Ancient Rome trivia") == "ancient rome trivia"
  {
  }

  /** The first token of the input, "ancient", holds an 'a' and a 'c'.
      (The strings are parameters: as literals the recursive predicates on
      them would be unrolled without bound.) */
  lemma AncientRomeFirstToken(tl: string)
    requires tl == "ancient rome trivia"
    ensures 'a' in FirstToken(tl) && 'c' in FirstToken(tl)
  {
    var first := FirstToken(tl);
    assert |first| > 2 && first[0] == 'a' && first[2] == 'c';
  }

  /** A key holding a character the input lacks, and lacking a character of
      the input's first token, is not searched. */
  lemma MissesBy(topicLower: string, key: string, c: char, d: char)
    requires c in key && c !in topicLower
    requires d in FirstToken(topicLower) && d !in key
    ensures !TopicMatches(topicLower, key)
  {
    MissingChar(topicLower, key, c);
    MissingChar(key, FirstToken(topicLower), d);
  }

  /** The letters of the input the key-by-key argument uses. */
  lemma AncientRomeLetters(tl: string)
    requires tl == "ancient rome trivia"
    ensures |tl| == 19 && tl[7] == ' '
    ensures 'h' !in tl && 's' !in tl && 'g' !in tl
  {
  }

  /** Each key of the source's table either has 13 letters and no space or
      'c' ("entertainment"), or lacks the 'c' of "ancient" and holds a 'g',
      or lacks its 'a' and holds an 'h' or an 's'. */
  lemma SourceKeyLetters(key: string)
    requires key in SourceKeys
    ensures || (|key| == 13 && ' ' !in key && 'c' !in key)
            || ('c' !in key && 'g' in key)
            || ('a' !in key && 'h' in key)
            || ('a' !in key && 's' in key)
  {
  }

  /** An input with these letters searches no key with these letters: the
      13-letter key would have to cover the input's space at index 7. */
  lemma AncientRomeMissesKey(tl: string, key: string)
    requires |tl| == 19 && tl[7] == ' '
    requires 'h' !in tl && 's' !in tl && 'g' !in tl
    requires 'a' in FirstToken(tl) && 'c' in FirstToken(tl)
    requires || (|key| == 13 && ' ' !in key && 'c' !in key)
             || ('c' !in key && 'g' in key)
             || ('a' !in key && 'h' in key)
             || ('a' !in key && 's' in key)
    ensures !TopicMatches(tl, key)
  {
    if |key| == 13 && ' ' !in key && 'c' !in key {
      MissingCovered(tl, key, 7);
      MissingChar(key, FirstToken(tl), 'c');
    } else if 'c' !in key && 'g' in key {
      MissesBy(tl, key, 'g', 'c');
    } else if 'h' in key {
      MissesBy(tl, key, 'h', 'a');
    } else {
      MissesBy(tl, key, 's', 'a');
    }
  }

  /** "Ancient Rome trivia" searches no topic of a table keyed like the
      source's, so whatever the genre the pool falls back to the whole
      table. */
  lemma AncientRomeFallsBack(genre: Option<string>, db: Database)
    requires forall t :: 0 <= t < |db| ==> db[t].key in SourceKeys
    ensures ResolvedPool(Lower("Ancient Rome trivia"), genre, db) == AllQuestions(db)
  {
    var tl := Lower("Ancient Rome trivia");
    AncientRomeLower();
    AncientRomeLetters(tl);
    AncientRomeFirstToken(tl);
    forall t | 0 <= t < |db|
      ensures !TopicMatches(tl, db[t].key)
    {
      SourceKeyLetters(db[t].key);
      AncientRomeMissesKey(tl, db[t].key);
    }
    NoneMatched(tl, genre, db);
  }
}
