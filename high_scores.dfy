/** `saveHighScore`'s ranking: the new result joins the player's list, the
    list is sorted by score from highest to lowest, and only the first ten
    entries are kept. */
module HighScores {
  import opened Wrappers
  import opened JsStrings
  import opened Scoring

  /** The length of the kept list. */
  const MaxHighScores: nat := 10

  datatype HighScore = HighScore(
    score: int,
    difficulty: string,
    topic: string,
    date: string,
    questionsAnswered: nat,
    correctAnswers: nat)

  /** `${gameSubtopic}${gameGenre ? ' - ' + gameGenre : ''}`. */
  function ScoreTopic(subtopic: string, genre: Option<string>): (t: string)
    ensures |subtopic| <= |t| && t[..|subtopic|] == subtopic
    ensures !Truthy(genre) ==> t == subtopic
    ensures Truthy(genre) ==> t[|subtopic|..] == " - " + genre.value
  {
    if Truthy(genre) then subtopic + " - " + genre.value else subtopic
  }

  /** The entry for a finished game: its score, its difficulty, its topic
      label, its date, and the number of answers and of correct answers in
      the list of answers it is given. */
  function NewHighScore(score: int, difficulty: string, subtopic: string, genre: Option<string>,
                        date: string, answered: seq<AnsweredQuestion>): (e: HighScore)
    ensures e.score == score && e.difficulty == difficulty && e.date == date
    ensures e.topic == ScoreTopic(subtopic, genre)
    ensures e.questionsAnswered == |answered| && e.correctAnswers == CountCorrect(answered)
    ensures e.correctAnswers <= e.questionsAnswered
  {
    HighScore(score, difficulty, ScoreTopic(subtopic, genre), date, |answered|, CountCorrect(answered))
  }

  /** Scores never increase along the list. */
  predicate SortedByScore(s: seq<HighScore>)
  {
    forall i, j :: 0 <= i < j < |s| ==> s[i].score >= s[j].score
  }

  /** Places `x` after every entry scoring at least as much, so entries with
      equal scores keep their order, as the stable sort does. */
  function Insert(s: seq<HighScore>, x: HighScore): (r: seq<HighScore>)
    ensures |r| == |s| + 1
    ensures multiset(r) == multiset(s) + multiset{x}
  {
    if s == [] then [x]
    else if s[0].score >= x.score then
      assert s == [s[0]] + s[1..];
      [s[0]] + Insert(s[1..], x)
    else [x] + s
  }

  /** Insertion puts `x` into `s` right after every leading entry scoring at
      least as much, before the first scoring less: `x`, which comes last,
      stays after every entry of its own score, and the other entries keep
      their order. */
  lemma {:induction false} InsertPlaces(s: seq<HighScore>, x: HighScore) returns (k: nat)
    ensures k <= |s| && Insert(s, x) == s[..k] + [x] + s[k..]
    ensures forall i :: 0 <= i < k ==> s[i].score >= x.score
    ensures k < |s| ==> s[k].score < x.score
  {
    if s == [] || s[0].score < x.score {
      k := 0;
      assert s[..0] + [x] + s[0..] == [x] + s;
    } else {
      var t := s[1..];
      var j := InsertPlaces(t, x);
      k := j + 1;
      assert Insert(s, x) == s[..k] + [x] + s[k..] by {
        assert s == [s[0]] + t;
        assert Insert(s, x) == [s[0]] + Insert(t, x);
        ConsSplit(s[0], t, x, j);
      }
      forall i | 0 <= i < k
        ensures s[i].score >= x.score
      {
        if i > 0 {
          assert s[i] == t[i - 1];
        }
      }
      if k < |s| {
        assert s[k] == t[j];
      }
    }
  }

  /** Putting `h` in front of `t` with `x` inserted at `j` is inserting `x`
      at `j + 1` into `h` followed by `t`. */
  lemma ConsSplit(h: HighScore, t: seq<HighScore>, x: HighScore, j: nat)
    requires j <= |t|
    ensures var s := [h] + t;
      [h] + (t[..j] + [x] + t[j..]) == s[..j + 1] + [x] + s[j + 1..]
  {
    var s := [h] + t;
    assert s[..j + 1] == [h] + t[..j];
    assert s[j + 1..] == t[j..];
  }

  /** No entry of `s` scores more than `b`. */
  predicate AtMost(s: seq<HighScore>, b: int)
  {
    forall i :: 0 <= i < |s| ==> s[i].score <= b
  }

  /** Inserting an entry no better than `b` keeps every entry at most `b`. */
  lemma {:induction false} InsertAtMost(s: seq<HighScore>, x: HighScore, b: int)
    requires AtMost(s, b) && x.score <= b
    ensures AtMost(Insert(s, x), b)
  {
    if s != [] && s[0].score >= x.score {
      InsertAtMost(s[1..], x, b);
    }
  }

  /** A sorted list headed by an entry at least as good as all of it. */
  lemma ConsSorted(h: HighScore, rest: seq<HighScore>)
    requires SortedByScore(rest) && AtMost(rest, h.score)
    ensures SortedByScore([h] + rest)
  {
    var r := [h] + rest;
    forall i, j | 0 <= i < j < |r|
      ensures r[i].score >= r[j].score
    {
      assert r[j] == rest[j - 1];
      if i > 0 {
        assert r[i] == rest[i - 1];
      }
    }
  }

  /** Inserting into a sorted list leaves it sorted. */
  lemma {:induction false} InsertSorted(s: seq<HighScore>, x: HighScore)
    requires SortedByScore(s)
    ensures SortedByScore(Insert(s, x))
  {
    if s != [] && s[0].score >= x.score {
      InsertSorted(s[1..], x);
      InsertAtMost(s[1..], x, s[0].score);
      ConsSorted(s[0], Insert(s[1..], x));
    } else if s != [] {
      ConsSorted(x, s);
    }
  }

  /** Inserts the entries of `s` one after another, first to last, into an
      initially empty list: the insertion sort that `SortByScore` runs. */
  function InsertAll(s: seq<HighScore>): (r: seq<HighScore>)
    ensures |r| == |s|
  {
    if s == [] then [] else Insert(InsertAll(s[..|s| - 1]), s[|s| - 1])
  }

  /** Sorting one entry more of `s` inserts that entry into the sorted
      prefix before it. */
  lemma InsertAllSnoc(s: seq<HighScore>, i: nat)
    requires i < |s|
    ensures InsertAll(s[..i + 1]) == Insert(InsertAll(s[..i]), s[i])
  {
    assert s[..i + 1][..i] == s[..i];
  }

  /** Inserting an entry no better than any entry of `s` appends it. */
  lemma {:induction false} InsertLast(s: seq<HighScore>, x: HighScore)
    requires forall i :: 0 <= i < |s| ==> s[i].score >= x.score
    ensures Insert(s, x) == s + [x]
  {
    var k := InsertPlaces(s, x);
    assert k == |s|;
    assert s[..k] == s && s[k..] == [];
  }

  /** Sorting a list already sorted by score leaves it as it is. */
  lemma {:induction false} InsertAllSorted(s: seq<HighScore>)
    requires SortedByScore(s)
    ensures InsertAll(s) == s
  {
    if s != [] {
      var n := |s| - 1;
      SortedInit(s);
      InsertAllSorted(s[..n]);
      InsertLast(s[..n], s[n]);
      assert s[..n] + [s[n]] == s;
    }
  }

  /** Dropping the last entry of a sorted list leaves it sorted, with every
      entry left scoring at least as much as the dropped one. */
  lemma SortedInit(s: seq<HighScore>)
    requires SortedByScore(s) && s != []
    ensures var n := |s| - 1;
      && SortedByScore(s[..n])
      && forall i :: 0 <= i < n ==> s[..n][i].score >= s[n].score
  {
    var n := |s| - 1;
    forall i, j | 0 <= i < j < n
      ensures s[..n][i].score >= s[..n][j].score
    {
      assert s[..n][i] == s[i] && s[..n][j] == s[j];
    }
  }

  /** `highScores.sort((a, b) => b.score - a.score)`, a stable sort: the
      result is the list `InsertAll` builds. */
  method SortByScore(s: seq<HighScore>) returns (r: seq<HighScore>)
    ensures SortedByScore(r)
    ensures multiset(r) == multiset(s)
    ensures r == InsertAll(s)
  {
    r := [];
    var i := 0;
    while i < |s|
      invariant 0 <= i <= |s|
      invariant r == InsertAll(s[..i])
      invariant SortedByScore(r)
      invariant multiset(r) == multiset(s[..i])
    {
      assert multiset(s[..i + 1]) == multiset(s[..i]) + multiset{s[i]} by {
        assert s[..i + 1] == s[..i] + [s[i]];
      }
      InsertAllSnoc(s, i);
      InsertSorted(r, s[i]);
      r := Insert(r, s[i]);
      i := i + 1;
    }
    assert s[..i] == s;
  }

  /** The first `k` entries of a sorted list are its best: no entry left
      after them scores more than one of them. */
  lemma SortedPrefixIsBest(sorted: seq<HighScore>, k: nat)
    requires SortedByScore(sorted) && k <= |sorted|
    ensures multiset(sorted[..k]) <= multiset(sorted)
    ensures forall x, y :: x in sorted[..k] && y in multiset(sorted) - multiset(sorted[..k]) ==> y.score <= x.score
  {
    var r := sorted[..k];
    assert sorted == r + sorted[k..];
    assert multiset(sorted) == multiset(r) + multiset(sorted[k..]);
    forall x, y | x in r && y in multiset(sorted) - multiset(r)
      ensures y.score <= x.score
    {
      assert y in multiset(sorted[k..]);
      var j :| 0 <= j < |sorted[k..]| && sorted[k..][j] == y;
      var i :| 0 <= i < k && r[i] == x;
      assert sorted[i] == x && sorted[k + j] == y;
    }
  }

  /** The list `saveHighScore` stores: the first ten entries of the stably
      sorted list of the old entries followed by the new one. */
  function Saved(highScores: seq<HighScore>, entry: HighScore): (r: seq<HighScore>)
    ensures |r| == if |highScores| + 1 < MaxHighScores then |highScores| + 1 else MaxHighScores
  {
    var sorted := InsertAll(highScores + [entry]);
    if |sorted| > MaxHighScores then sorted[..MaxHighScores] else sorted
  }

  /** When the stored list is full and sorted, a new result scoring no more
      than its tenth entry is dropped, even on a tie, and the stored list
      stays as it was. */
  lemma TieWithTenthDropped(highScores: seq<HighScore>, entry: HighScore)
    requires SortedByScore(highScores) && |highScores| == MaxHighScores
    requires entry.score <= highScores[MaxHighScores - 1].score
    ensures Saved(highScores, entry) == highScores
  {
    var all := highScores + [entry];
    assert all[..|all| - 1] == highScores;
    InsertAllSorted(highScores);
    assert forall i :: 0 <= i < |highScores| ==> highScores[i].score >= entry.score;
    InsertLast(highScores, entry);
    assert InsertAll(all) == highScores + [entry];
    assert (highScores + [entry])[..MaxHighScores] == highScores;
  }

  /** Adds `entry`, sorts, and keeps the ten best: the result is sorted, holds
      at most ten entries taken from the old list and the new entry, and no
      dropped entry scores more than a kept one. */
  method SaveHighScore(highScores: seq<HighScore>, entry: HighScore) returns (r: seq<HighScore>)
    ensures |r| == if |highScores| + 1 < MaxHighScores then |highScores| + 1 else MaxHighScores
    ensures SortedByScore(r)
    ensures multiset(r) <= multiset(highScores + [entry])
    ensures forall x, y :: x in r && y in multiset(highScores + [entry]) - multiset(r) ==> y.score <= x.score
    ensures r == Saved(highScores, entry)
  {
    var sorted := SortByScore(highScores + [entry]);
    r := if |sorted| > MaxHighScores then sorted[..MaxHighScores] else sorted;
    KeptBest(highScores + [entry], sorted);
  }

  /** The first ten entries of a sorted permutation of `all` are sorted, come
      from `all`, and score at least as much as every entry left out. */
  lemma KeptBest(all: seq<HighScore>, sorted: seq<HighScore>)
    requires SortedByScore(sorted) && multiset(sorted) == multiset(all)
    ensures var r := if |sorted| > MaxHighScores then sorted[..MaxHighScores] else sorted;
      && |r| == (if |all| < MaxHighScores then |all| else MaxHighScores)
      && SortedByScore(r)
      && multiset(r) <= multiset(all)
      && forall x, y :: x in r && y in multiset(all) - multiset(r) ==> y.score <= x.score
  {
    assert |sorted| == |all| by {
      assert |multiset(sorted)| == |multiset(all)|;
    }
    var r := if |sorted| > MaxHighScores then sorted[..MaxHighScores] else sorted;
    assert r == sorted[..|r|];
    SortedPrefixIsBest(sorted, |r|);
  }
}
