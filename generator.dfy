/** `generateTopicQuestions`: resolves the pool, shuffles it once, and builds
    `count` questions from it by wrap-around indexing, either open questions
    or four-option questions. */
module Generator {
  import opened Wrappers
  import opened Randomness
  import opened JsStrings
  import opened QuestionBank
  import opened TopicResolver
  import opened Shuffle
  import opened Distractors

  /** The two output forms: an open question that carries its answer, or a
      multiple-choice question that carries its options and the index of the
      correct one. */
  datatype Question =
    | Open(question: string, answer: string, category: string, difficulty: string)
    | Choice(question: string, options: seq<string>, correctAnswer: int, category: string)

  /** Reading a field of the missing record (`relevantQuestions[i % 0]` on an
      empty pool) throws a TypeError. */
  datatype GenerateError = EmptyPool

  /** `s.indexOf(x)`: the first position holding `x`, or -1. */
  function IndexOf(s: seq<string>, x: string): (r: int)
    ensures -1 <= r < |s|
    ensures r == -1 <==> x !in s
    ensures r >= 0 ==> s[r] == x && x !in s[..r]
  {
    if s == [] then -1
    else if s[0] == x then 0
    else
      var k := IndexOf(s[1..], x);
      assert k >= 0 ==> s[..k + 1] == [s[0]] + s[1..][..k];
      if k == -1 then -1 else k + 1
  }

  /** A string the distractor step can produce for a record of category
      `cat` with answer `correct`: an answer of another record of that
      category, a generic wrong answer, or a placeholder label. */
  ghost predicate Distractor(o: string, correct: string, cat: string, pool: seq<Record>)
  {
    (exists x :: x in SameCategoryOthers(pool, cat, correct) && x.a == o)
    || o in GenericWrongAnswers
    || exists n :: 0 <= n < 3 && o == Placeholder(n)
  }

  /** `q` is the question the source builds from record `rec` of the pool
      `pool`: a multiple-choice question offers the record's answer, at the
      index it reports, once unless the answer is a placeholder label, and
      every other option it offers is a distractor for the record. */
  ghost predicate FormattedFrom(q: Question, rec: Record, pool: seq<Record>, difficulty: string, isMultipleChoice: bool)
  {
    if isMultipleChoice then
      && q.Choice?
      && q.question == rec.q && q.category == rec.cat
      && |q.options| == 4
      && 0 <= q.correctAnswer < 4
      && q.options[q.correctAnswer] == rec.a
      && rec.a !in q.options[..q.correctAnswer]
      && ((forall n :: 0 <= n < 3 ==> rec.a != Placeholder(n)) ==> multiset(q.options)[rec.a] == 1)
      && (forall o :: o in q.options && o != rec.a ==> Distractor(o, rec.a, rec.cat, pool))
    else
      q == Open(rec.q, rec.a, rec.cat, difficulty)
  }

  /** The options of a multiple-choice question for `base` and the next
      unused draw: the correct answer followed by the three wrong answers,
      shuffled with the draws that follow the wrong answers' draws. */
  function ChoiceOptions(base: Record, pool: seq<Record>, rand: Random, pos: nat): (r: (seq<string>, nat))
    ensures |r.0| == 4
    ensures multiset(r.0) == multiset([base.a] + WrongAnswers(base.a, base.cat, pool, rand, pos).0)
    ensures pos <= r.1
  {
    var wrong := WrongAnswers(base.a, base.cat, pool, rand, pos);
    (Shuffled([base.a] + wrong.0, rand, wrong.1), wrong.1 + Draws(4))
  }

  /** The correct answer is offered exactly once, unless it is a placeholder
      label. */
  lemma ChoiceOptionsCorrectOnce(base: Record, pool: seq<Record>, rand: Random, pos: nat)
    requires forall n :: 0 <= n < 3 ==> base.a != Placeholder(n)
    ensures multiset(ChoiceOptions(base, pool, rand, pos).0)[base.a] == 1
  {
    var wrong := WrongAnswers(base.a, base.cat, pool, rand, pos).0;
    WrongAnswersExcludeCorrect(base.a, base.cat, pool, rand, pos);
    assert multiset(wrong)[base.a] == 0;
    assert multiset([base.a] + wrong) == multiset([base.a]) + multiset(wrong);
  }

  /** Every other option is an answer of another record of the category, a
      generic wrong answer or a placeholder label. */
  lemma ChoiceOptionsDistractors(base: Record, pool: seq<Record>, rand: Random, pos: nat)
    ensures forall o :: o in ChoiceOptions(base, pool, rand, pos).0 && o != base.a ==> Distractor(o, base.a, base.cat, pool)
  {
    var wrong := WrongAnswers(base.a, base.cat, pool, rand, pos).0;
    var options := ChoiceOptions(base, pool, rand, pos).0;
    WrongAnswersSlots(base.a, base.cat, pool, rand, pos);
    forall o | o in options && o != base.a
      ensures Distractor(o, base.a, base.cat, pool)
    {
      assert o in multiset(options);
      assert o in multiset([base.a] + wrong);
      assert o in wrong;
      var i :| 0 <= i < 3 && wrong[i] == o;
      var similar := SameCategoryOthers(pool, base.cat, base.a);
      if i < SimilarCount(pool, base.cat, base.a) {
        assert similar[i] in similar && similar[i].a == o;
      } else if GenericPick(GenericWrongAnswers, wrong, i, base.a) {
      } else {
        assert o == Placeholder(i);
      }
    }
  }

  /** One iteration of the generation loop, for the record `base` drawn from
      the shuffled pool `pool`. */
  method FormatQuestion(base: Record, pool: seq<Record>, difficulty: string, isMultipleChoice: bool, rand: Random, pos: nat)
    returns (q: Question, next: nat)
    ensures FormattedFrom(q, base, pool, difficulty, isMultipleChoice)
    ensures isMultipleChoice ==> (q.options, next) == ChoiceOptions(base, pool, rand, pos)
    ensures isMultipleChoice ==>
              multiset(q.options) == multiset([base.a] + WrongAnswers(base.a, base.cat, pool, rand, pos).0)
    ensures isMultipleChoice ==>
              forall o :: o in q.options && o != base.a ==> Distractor(o, base.a, base.cat, pool)
    ensures !isMultipleChoice ==> next == pos
    ensures pos <= next
  {
    if isMultipleChoice {
      var wrongAnswers, p := GenerateWrongAnswers(base.a, base.cat, pool, rand, pos);
      var allOptions, p' := ShuffleArray([base.a] + wrongAnswers, rand, p);
      assert |[base.a] + wrongAnswers| == 4;
      assert allOptions == ChoiceOptions(base, pool, rand, pos).0;
      assert p' == ChoiceOptions(base, pool, rand, pos).1;
      assert base.a in multiset(allOptions);
      var correctIndex := IndexOf(allOptions, base.a);
      if forall n :: 0 <= n < 3 ==> base.a != Placeholder(n) {
        ChoiceOptionsCorrectOnce(base, pool, rand, pos);
      }
      ChoiceOptionsDistractors(base, pool, rand, pos);
      q := Choice(base.q, allOptions, correctIndex, base.cat);
      next := p';
    } else {
      q := Open(base.q, base.a, base.cat, difficulty);
      next := pos;
    }
  }

  /** The pool a request resolves to, as the shuffle leaves it. */
  function ShuffledPool(db: Database, topicInput: string, genre: Option<string>, rand: Random, pos: nat): seq<Record>
  {
    Shuffled(ResolvedPool(Lower(topicInput), genre, db), rand, pos)
  }

  /** The generator: `count` questions, the i-th built from the shuffled pool
      at index `i % |pool|`; the pool is shuffled once, before the loop, and
      the questions then take their draws in turn, starting with the first
      draw the shuffle left unused. The ghost `ps` lists where each
      question's draws start. */
  method GenerateTopicQuestions(db: Database, topicInput: string, count: int, difficulty: string,
                                genre: Option<string>, isMultipleChoice: bool, rand: Random, pos: nat)
    returns (res: Result<seq<Question>, GenerateError>, next: nat, ghost ps: seq<nat>)
    ensures res.Failure? <==> count > 0 && ResolvedPool(Lower(topicInput), genre, db) == []
    ensures res.Success? ==> |res.value| == (if count > 0 then count else 0)
    ensures res.Success? ==>
              var shuffled := ShuffledPool(db, topicInput, genre, rand, pos);
              forall i :: 0 <= i < |res.value| ==>
                |shuffled| > 0 && FormattedFrom(res.value[i], shuffled[i % |shuffled|], shuffled, difficulty, isMultipleChoice)
    ensures res.Success? ==>
              && OptionsDrawn(res.value, ShuffledPool(db, topicInput, genre, rand, pos), rand, ps, isMultipleChoice)
              && ps[0] == pos + Draws(|ResolvedPool(Lower(topicInput), genre, db)|)
              && next == ps[|res.value|]
    ensures pos <= next
  {
    var relevantQuestions := ResolvePool(db, topicInput, genre);
    relevantQuestions, next := ShuffleArray(relevantQuestions, rand, pos);
    assert relevantQuestions == ShuffledPool(db, topicInput, genre, rand, pos);
    if count > 0 && relevantQuestions == [] {
      return Failure(EmptyPool), next, [next];
    }
    var questions;
    questions, next, ps := SampleQuestions(relevantQuestions, count, difficulty, isMultipleChoice, rand, next);
    res := Success(questions);
  }

  /** Question `m` is built from `pool[m % |pool|]`, for every `m`. */
  ghost predicate AllFormatted(questions: seq<Question>, pool: seq<Record>, difficulty: string, isMultipleChoice: bool)
  {
    forall m :: 0 <= m < |questions| ==>
      |pool| > 0 && FormattedFrom(questions[m], pool[m % |pool|], pool, difficulty, isMultipleChoice)
  }

  /** Appending the question built from the next record keeps every question
      built from its record. */
  lemma AllFormattedSnoc(questions: seq<Question>, q: Question, pool: seq<Record>, difficulty: string, isMultipleChoice: bool)
    requires pool != [] && AllFormatted(questions, pool, difficulty, isMultipleChoice)
    requires FormattedFrom(q, pool[|questions| % |pool|], pool, difficulty, isMultipleChoice)
    ensures AllFormatted(questions + [q], pool, difficulty, isMultipleChoice)
  {
    var r := questions + [q];
    forall m | 0 <= m < |r|
      ensures FormattedFrom(r[m], pool[m % |pool|], pool, difficulty, isMultipleChoice)
    {
      if m < |questions| {
        assert r[m] == questions[m];
      }
    }
  }

  /** `q`, built from record `rec` of `pool`, took the draws from `p` up to
      `p'`: a choice question's options are those `ChoiceOptions` builds for
      the record from draw `p` on, and an open question takes no draw. */
  ghost predicate DrawnFrom(q: Question, rec: Record, pool: seq<Record>, rand: Random, p: nat, p': nat, isMultipleChoice: bool)
  {
    if isMultipleChoice then q.Choice? && (q.options, p') == ChoiceOptions(rec, pool, rand, p)
    else p' == p
  }

  /** The relation between question `m`, its record and the draws it took
      from `p` up to `p'`: `pool[m % |pool|]` is its record and it is
      `DrawnFrom` that record. */
  ghost function Drawer(pool: seq<Record>, rand: Random, isMultipleChoice: bool): (int, Question, nat, nat) -> bool
  {
    (m: int, q: Question, p: nat, p': nat) => pool != [] && DrawnFrom(q, pool[m % |pool|], pool, rand, p, p', isMultipleChoice)
  }

  /** The questions took their draws in turn: `ps` holds one position more
      than there are questions, and question `m` is related by `drawn` to the
      draws from `ps[m]` up to `ps[m + 1]`. */
  ghost predicate InTurn(questions: seq<Question>, ps: seq<nat>, drawn: (int, Question, nat, nat) -> bool)
  {
    && |ps| == |questions| + 1
    && forall m :: 0 <= m < |questions| ==> drawn(m, questions[m], ps[m], ps[m + 1])
  }

  /** Every question is built from `pool[m % |pool|]` with the draws from
      `ps[m]` up to `ps[m + 1]`. */
  ghost predicate OptionsDrawn(questions: seq<Question>, pool: seq<Record>, rand: Random, ps: seq<nat>, isMultipleChoice: bool)
  {
    InTurn(questions, ps, Drawer(pool, rand, isMultipleChoice))
  }

  /** Question `m` of a list drawn in turn is built from `pool[m % |pool|]`
      with the draws from `ps[m]` up to `ps[m + 1]`. */
  lemma OptionsDrawnAt(questions: seq<Question>, pool: seq<Record>, rand: Random, ps: seq<nat>,
                       isMultipleChoice: bool, m: nat)
    requires OptionsDrawn(questions, pool, rand, ps, isMultipleChoice) && m < |questions|
    ensures pool != [] && DrawnFrom(questions[m], pool[m % |pool|], pool, rand, ps[m], ps[m + 1], isMultipleChoice)
  {
    assert Drawer(pool, rand, isMultipleChoice)(m, questions[m], ps[m], ps[m + 1]);
  }

  /** Appending a question related to the last position and a new one keeps
      the questions in turn. */
  lemma InTurnSnoc(questions: seq<Question>, q: Question, ps: seq<nat>, p: nat, drawn: (int, Question, nat, nat) -> bool)
    requires InTurn(questions, ps, drawn) && drawn(|questions|, q, ps[|questions|], p)
    ensures InTurn(questions + [q], ps + [p], drawn)
  {
    var r := questions + [q];
    var rs := ps + [p];
    forall m | 0 <= m < |r|
      ensures drawn(m, r[m], rs[m], rs[m + 1])
    {
      if m < |questions| {
        assert r[m] == questions[m] && rs[m] == ps[m] && rs[m + 1] == ps[m + 1];
      }
    }
  }

  /** The counted loop: question `i` is built from `pool[i % |pool|]`, so the
      pool is reused from its start, in the same order, once exhausted; each
      question takes its draws after the previous one's, the first from
      `pos`. */
  method SampleQuestions(pool: seq<Record>, count: int, difficulty: string, isMultipleChoice: bool, rand: Random, pos: nat)
    returns (questions: seq<Question>, next: nat, ghost ps: seq<nat>)
    requires count > 0 ==> pool != []
    ensures |questions| == (if count > 0 then count else 0)
    ensures AllFormatted(questions, pool, difficulty, isMultipleChoice)
    ensures OptionsDrawn(questions, pool, rand, ps, isMultipleChoice) && ps[0] == pos && next == ps[|questions|]
    ensures pos <= next
  {
    questions := [];
    next := pos;
    ps := [pos];
    var i := 0;
    while i < count
      invariant 0 <= i && (if count > 0 then i <= count else i == 0)
      invariant |questions| == i
      invariant pos <= next
      invariant AllFormatted(questions, pool, difficulty, isMultipleChoice)
      invariant OptionsDrawn(questions, pool, rand, ps, isMultipleChoice) && ps[0] == pos && next == ps[i]
    {
      var baseQuestion := pool[i % |pool|];
      var q, p;
      q, p := FormatQuestion(baseQuestion, pool, difficulty, isMultipleChoice, rand, next);
      AllFormattedSnoc(questions, q, pool, difficulty, isMultipleChoice);
      assert Drawer(pool, rand, isMultipleChoice)(|questions|, q, ps[|questions|], p);
      InTurnSnoc(questions, q, ps, p, Drawer(pool, rand, isMultipleChoice));
      questions := questions + [q];
      ps := ps + [p];
      next := p;
      i := i + 1;
    }
  }

  /** A non-zero multiple of `n` is at least `n` away from zero. */
  lemma MultipleBound(n: int, d: int)
    requires n > 0
    ensures d >= 1 ==> n * d >= n
    ensures d <= -1 ==> n * d <= -n
  {
  }

  /** Adding the modulus does not change the remainder. */
  lemma ModShift(i: nat, n: nat)
    requires n > 0
    ensures (i + n) % n == i % n
  {
    var a, q1 := i % n, i / n;
    var b, q2 := (i + n) % n, (i + n) / n;
    var d := q2 - q1 - 1;
    assert n * d == n * q2 - n * q1 - n;
    assert n * d == a - b;
    MultipleBound(n, d);
  }

  /** Past the end of the pool the questions repeat with period `|pool|`:
      question `i + |pool|` comes from the same record as question `i`, and
      an open question is repeated outright. */
  lemma WrapAroundRepeats(questions: seq<Question>, pool: seq<Record>, difficulty: string, isMultipleChoice: bool, i: nat)
    requires pool != []
    requires forall m :: 0 <= m < |questions| ==>
               FormattedFrom(questions[m], pool[m % |pool|], pool, difficulty, isMultipleChoice)
    requires i + |pool| < |questions|
    ensures questions[i].question == questions[i + |pool|].question
    ensures questions[i].category == questions[i + |pool|].category
    ensures !isMultipleChoice ==> questions[i] == questions[i + |pool|]
  {
    var n := |pool|;
    ModShift(i, n);
    assert FormattedFrom(questions[i], pool[i % n], pool, difficulty, isMultipleChoice);
    assert FormattedFrom(questions[i + n], pool[i % n], pool, difficulty, isMultipleChoice);
  }

  /** Every generated question is a question of the table, with that
      question's category; an open question also carries its answer. */
  lemma GeneratedFromTable(db: Database, topicInput: string, genre: Option<string>, rand: Random, pos: nat,
                           questions: seq<Question>, difficulty: string, isMultipleChoice: bool, i: nat)
    requires var shuffled := ShuffledPool(db, topicInput, genre, rand, pos);
             forall m :: 0 <= m < |questions| ==>
               |shuffled| > 0 && FormattedFrom(questions[m], shuffled[m % |shuffled|], shuffled, difficulty, isMultipleChoice)
    requires i < |questions|
    ensures exists rec :: rec in AllQuestions(db) && questions[i].question == rec.q && questions[i].category == rec.cat
                          && (!isMultipleChoice ==> questions[i].answer == rec.a)
  {
    var pool := ResolvedPool(Lower(topicInput), genre, db);
    var shuffled := ShuffledPool(db, topicInput, genre, rand, pos);
    var rec := shuffled[i % |shuffled|];
    assert FormattedFrom(questions[i], rec, shuffled, difficulty, isMultipleChoice);
    assert rec in multiset(shuffled);
    assert rec in pool;
    PoolFromTable(Lower(topicInput), genre, db, rec);
    InAllQuestions(db, rec);
  }
}
