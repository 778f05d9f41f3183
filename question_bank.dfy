/** The in-memory question table of the generator: main topics, each with
    named subtopics, each holding a list of question records. Object keys
    are kept in insertion order, so every level is a sequence. */
module QuestionBank {

  /** One question: its text `q`, its answer `a` and its category `cat`. */
  datatype Record = Record(q: string, a: string, cat: string)

  datatype Subtopic = Subtopic(name: string, questions: seq<Record>)

  datatype Topic = Topic(key: string, subtopics: seq<Subtopic>)

  type Database = seq<Topic>

  /** The records of `subs`, list after list, in order. */
  function SubtopicQuestions(subs: seq<Subtopic>): seq<Record>
  {
    if subs == [] then [] else SubtopicQuestions(subs[..|subs| - 1]) + subs[|subs| - 1].questions
  }

  /** Every record of the table, topic after topic. */
  function AllQuestions(db: Database): seq<Record>
  {
    if db == [] then [] else AllQuestions(db[..|db| - 1]) + SubtopicQuestions(db[|db| - 1].subtopics)
  }

  /** A record lies in the concatenation iff it lies in one of the lists. */
  lemma {:induction false} InSubtopicQuestions(subs: seq<Subtopic>, r: Record)
    ensures r in SubtopicQuestions(subs) <==> exists s :: 0 <= s < |subs| && r in subs[s].questions
  {
    if subs != [] {
      var init := subs[..|subs| - 1];
      InSubtopicQuestions(init, r);
      assert forall s :: 0 <= s < |init| ==> init[s] == subs[s];
    }
  }

  /** The main-topic keys of the table, in the source's order. */
  const SourceKeys: seq<string> := ["history", "science", "geography", "entertainment", "sports", "technology"]
}
