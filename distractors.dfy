/** `generateWrongAnswers`: three wrong answers for a question, taken first
    from records of the same category, then from a fixed generic list by
    random draws, then from placeholder labels. */
module Distractors {
  import opened QuestionBank
  import opened Randomness

  /** The generic wrong answers, in the source's order. */
  const GenericWrongAnswers: seq<string> := [
    "Alexander the Great", "Leonardo da Vinci", "Marie Curie", "Isaac Newton",
    "William Shakespeare", "Napoleon Bonaparte", "Cleopatra", "Julius Caesar",
    "Albert Einstein", "Charles Darwin", "The Pacific Ocean", "Mount Kilimanjaro",
    "The Amazon River", "Antarctica", "1776", "1945", "1914", "1492",
    "The Nile", "Rome", "Athens", "Cairo", "London"
  ]

  /** The cap on random draws from the generic list. */
  const MaxAttempts: nat := 50

  /** `Option ${String.fromCharCode(65 + n)}`: the label padding slot `n`. */
  function Placeholder(n: nat): (r: string)
    requires n < 26
    ensures |r| == 8 && r[..7] == "Option " && r[7] == (65 + n) as char
  {
    "Option " + [(65 + n) as char]
  }

  /** What the filter leaves of one record: the record itself when it has the
      category and an answer other than the correct one, nothing otherwise. */
  function KeepRecord(x: Record, category: string, correct: string): (r: seq<Record>)
    ensures r == [x] <==> x.cat == category && x.a != correct
    ensures r == [] <==> !(x.cat == category && x.a != correct)
  {
    if x.cat == category && x.a != correct then [x] else []
  }

  /** `questionPool.filter(q => q.cat === category && q.a !== correctAnswer)`,
      keeping pool order. */
  function SameCategoryOthers(pool: seq<Record>, category: string, correct: string): (r: seq<Record>)
    ensures |r| <= |pool|
    ensures forall x :: x in r ==> x in pool && x.cat == category && x.a != correct
    ensures forall x :: x in pool && x.cat == category && x.a != correct ==> x in r
  {
    if pool == [] then []
    else KeepRecord(pool[0], category, correct) + SameCategoryOthers(pool[1..], category, correct)
  }

  /** Concatenation is associative. */
  lemma ConcatAssoc<T>(x: seq<T>, y: seq<T>, z: seq<T>)
    ensures x + (y + z) == (x + y) + z
  {
  }

  /** The filter works record by record: the result for a concatenation is
      the results for its parts, in order, so the kept records keep their
      order and their number. */
  lemma {:induction false} SameCategoryOthersAppend(a: seq<Record>, b: seq<Record>, category: string, correct: string)
    ensures SameCategoryOthers(a + b, category, correct)
         == SameCategoryOthers(a, category, correct) + SameCategoryOthers(b, category, correct)
    decreases |a|
  {
    if a == [] {
      assert a + b == b;
    } else {
      var x := KeepRecord(a[0], category, correct);
      assert (a + b)[0] == a[0] && (a + b)[1..] == a[1..] + b;
      SameCategoryOthersAppend(a[1..], b, category, correct);
      ConcatAssoc(x, SameCategoryOthers(a[1..], category, correct), SameCategoryOthers(b, category, correct));
      calc {
        SameCategoryOthers(a + b, category, correct);
        x + SameCategoryOthers(a[1..] + b, category, correct);
        x + (SameCategoryOthers(a[1..], category, correct) + SameCategoryOthers(b, category, correct));
        (x + SameCategoryOthers(a[1..], category, correct)) + SameCategoryOthers(b, category, correct);
        SameCategoryOthers(a, category, correct) + SameCategoryOthers(b, category, correct);
      }
    }
  }

  /** The same-category part of the result: `min(2, similar.length)`. */
  function SimilarCount(pool: seq<Record>, category: string, correct: string): (k: nat)
    ensures k <= 2 && k <= |SameCategoryOthers(pool, category, correct)|
    ensures k < 2 ==> k == |SameCategoryOthers(pool, category, correct)|
  {
    var n := |SameCategoryOthers(pool, category, correct)|;
    if n < 2 then n else 2
  }

  /** The answers of some records, in order. */
  function Answers(rs: seq<Record>): (r: seq<string>)
    ensures |r| == |rs| && forall i :: 0 <= i < |rs| ==> r[i] == rs[i].a
  {
    seq(|rs|, i requires 0 <= i < |rs| => rs[i].a)
  }

  /** The answer of the list `generic` that draw `p` selects. */
  function Drawn(generic: seq<string>, rand: Random, p: nat): (g: string)
    requires |generic| > 0
    ensures g in generic
  {
    generic[Pick(rand(p), |generic|)]
  }

  /** The slots after drawing `g`: `g` is appended when it is neither the
      correct answer nor already a slot. */
  function Accept(wrong: seq<string>, g: string, correct: string): (r: seq<string>)
    ensures g != correct && g !in wrong ==> r == wrong + [g]
    ensures g == correct || g in wrong ==> r == wrong
  {
    if g != correct && g !in wrong then wrong + [g] else wrong
  }

  /** The generic loop from slots `wrong`, draw `next` and `left` draws still
      allowed (`MaxAttempts` less the attempts made): while fewer than three
      slots are filled and a draw is allowed, a draw is appended when it is
      neither the correct answer nor already a slot. Returns the slots and the
      next unused draw. */
  function FillGeneric(generic: seq<string>, wrong: seq<string>, correct: string, rand: Random, next: nat, left: nat): (r: (seq<string>, nat))
    requires |generic| > 0
    ensures |wrong| <= |r.0| && next <= r.1
    decreases left
  {
    if |wrong| < 3 && left > 0 then
      FillGeneric(generic, Accept(wrong, Drawn(generic, rand, next), correct), correct, rand, next + 1, left - 1)
    else (wrong, next)
  }

  /** The padding loop: appends the placeholder for each position until three
      slots are filled. */
  function PadPlaceholders(wrong: seq<string>): (r: seq<string>)
    ensures |r| >= 3 && |r| >= |wrong|
    decreases 3 - |wrong|
  {
    if |wrong| < 3 then PadPlaceholders(wrong + [Placeholder(|wrong|)]) else wrong
  }

  /** The slots `start` completed to three: the generic loop, then the
      padding, cut to three, with the next unused draw. */
  function Completed(generic: seq<string>, start: seq<string>, correct: string, rand: Random, pos: nat): (r: (seq<string>, nat))
    requires |generic| > 0
    ensures |r.0| == 3
  {
    var filled := FillGeneric(generic, start, correct, rand, pos, MaxAttempts);
    (PadPlaceholders(filled.0)[..3], filled.1)
  }

  /** The result of `generateWrongAnswers` and the next unused draw: the first
      `min(2, n)` same-category answers, completed by the generic loop and the
      padding. */
  function WrongAnswers(correct: string, category: string, pool: seq<Record>, rand: Random, pos: nat): (r: (seq<string>, nat))
    ensures |r.0| == 3
  {
    var similar := SameCategoryOthers(pool, category, correct);
    Completed(GenericWrongAnswers, Answers(similar[..SimilarCount(pool, category, correct)]), correct, rand, pos)
  }

  /** Slot `i` holds an accepted generic draw: a generic answer other than the
      correct one that no earlier slot holds. */
  predicate GenericPick(generic: seq<string>, wrong: seq<string>, i: int, correct: string)
    requires 0 <= i < |wrong|
  {
    wrong[i] in generic && wrong[i] != correct && wrong[i] !in wrong[..i]
  }

  /** Slot `i` holds the placeholder for its own position. */
  predicate PaddedAt(wrong: seq<string>, i: int)
    requires 0 <= i < |wrong|
  {
    i < 26 && wrong[i] == Placeholder(i)
  }

  /** No answer of `generic` is the label of one of the three slots. */
  predicate NoPlaceholders(generic: seq<string>)
  {
    forall m :: 0 <= m < 3 ==> Placeholder(m) !in generic
  }

  /** No generic answer looks like a placeholder: none starts with 'O'. */
  lemma GenericIsNoPlaceholder(i: nat)
    requires i < 26
    ensures Placeholder(i) !in GenericWrongAnswers
  {
    assert Placeholder(i)[0] == 'O';
    forall g | g in GenericWrongAnswers
      ensures |g| > 0 && g[0] != 'O'
    {
    }
  }

  /** `x` was selected by one of the draws `lo .. hi - 1`. */
  ghost predicate DrawnBetween(generic: seq<string>, x: string, rand: Random, lo: nat, hi: nat)
    requires |generic| > 0
  {
    exists p :: lo <= p < hi && x == Drawn(generic, rand, p)
  }

  /** The generic loop keeps the slots it starts from, fills at most three,
      makes at most the draws left, and stops short of three slots only once
      it has made all of them. */
  lemma {:induction false} FillGenericGrows(generic: seq<string>, wrong: seq<string>, correct: string, rand: Random, next: nat, left: nat)
    requires |generic| > 0 && |wrong| <= 3
    ensures var r := FillGeneric(generic, wrong, correct, rand, next, left);
      && |wrong| <= |r.0| <= 3 && r.0[..|wrong|] == wrong
      && next <= r.1 <= next + left
      && (|r.0| < 3 ==> r.1 == next + left)
    decreases left
  {
    if |wrong| < 3 && left > 0 {
      var w := Accept(wrong, Drawn(generic, rand, next), correct);
      FillGenericGrows(generic, w, correct, rand, next + 1, left - 1);
      var r := FillGeneric(generic, w, correct, rand, next + 1, left - 1);
      assert r.0[..|wrong|] == r.0[..|w|][..|wrong|];
    }
  }

  /** Every slot the generic loop fills holds a generic answer other than the
      correct one and other than every earlier slot, selected by one of the
      draws it made. */
  lemma {:induction false} FillGenericPicks(generic: seq<string>, wrong: seq<string>, correct: string, rand: Random, next: nat, left: nat)
    requires |generic| > 0 && |wrong| <= 3
    ensures var r := FillGeneric(generic, wrong, correct, rand, next, left);
      forall m :: |wrong| <= m < |r.0| ==> GenericPick(generic, r.0, m, correct) && DrawnBetween(generic, r.0[m], rand, next, r.1)
    decreases left
  {
    if |wrong| < 3 && left > 0 {
      var g := Drawn(generic, rand, next);
      var w := Accept(wrong, g, correct);
      FillGenericPicks(generic, w, correct, rand, next + 1, left - 1);
      FillGenericGrows(generic, w, correct, rand, next + 1, left - 1);
      var r := FillGeneric(generic, w, correct, rand, next + 1, left - 1);
      forall m | |wrong| <= m < |r.0|
        ensures GenericPick(generic, r.0, m, correct) && DrawnBetween(generic, r.0[m], rand, next, r.1)
      {
        if m < |w| {
          assert w == wrong + [g] && m == |wrong|;
          assert r.0[m] == w[m] == g;
          assert r.0[..m] == w[..m] == wrong;
        }
      }
    }
  }

  /** Every draw the generic loop makes is either accepted or rejected for
      being the correct answer or a slot already: afterwards each drawn
      answer is the correct one or one of the slots. */
  lemma {:induction false} FillGenericRejects(generic: seq<string>, wrong: seq<string>, correct: string, rand: Random, next: nat, left: nat)
    requires |generic| > 0 && |wrong| <= 3
    ensures var r := FillGeneric(generic, wrong, correct, rand, next, left);
      forall p :: next <= p < r.1 ==> Drawn(generic, rand, p) == correct || Drawn(generic, rand, p) in r.0
    decreases left
  {
    if |wrong| < 3 && left > 0 {
      var g := Drawn(generic, rand, next);
      var w := Accept(wrong, g, correct);
      FillGenericRejects(generic, w, correct, rand, next + 1, left - 1);
      FillGenericGrows(generic, w, correct, rand, next + 1, left - 1);
      var r := FillGeneric(generic, w, correct, rand, next + 1, left - 1);
      assert FillGeneric(generic, wrong, correct, rand, next, left) == r;
      forall p | next <= p < r.1
        ensures Drawn(generic, rand, p) == correct || Drawn(generic, rand, p) in r.0
      {
        if p == next && g != correct {
          assert g in w;
          assert g in r.0[..|w|];
        }
      }
    }
  }

  /** When the generic loop fills the third slot it stops at once: the third
      slot holds the last draw made. */
  lemma {:induction false} FillGenericStops(generic: seq<string>, wrong: seq<string>, correct: string, rand: Random, next: nat, left: nat)
    requires |generic| > 0 && |wrong| < 3
    ensures var r := FillGeneric(generic, wrong, correct, rand, next, left);
      |r.0| == 3 ==> next < r.1 && r.0[2] == Drawn(generic, rand, r.1 - 1)
    decreases left
  {
    if left > 0 {
      var w := Accept(wrong, Drawn(generic, rand, next), correct);
      if |w| < 3 {
        FillGenericStops(generic, w, correct, rand, next + 1, left - 1);
      }
    }
  }

  /** One round of the generic loop. */
  lemma FillGenericStep(generic: seq<string>, wrong: seq<string>, correct: string, rand: Random, next: nat, left: nat)
    requires |generic| > 0 && |wrong| < 3 && left > 0
    ensures FillGeneric(generic, wrong, correct, rand, next, left)
         == FillGeneric(generic, Accept(wrong, Drawn(generic, rand, next), correct), correct, rand, next + 1, left - 1)
  {
  }

  /** The generic loop of `generateWrongAnswers`, run on the slots `start`
      already filled. */
  method DrawGeneric(generic: seq<string>, start: seq<string>, correct: string, rand: Random, pos: nat) returns (wrong: seq<string>, next: nat)
    requires |generic| > 0
    ensures (wrong, next) == FillGeneric(generic, start, correct, rand, pos, MaxAttempts)
  {
    wrong := start;
    var attempts := 0;
    next := pos;
    ghost var target := FillGeneric(generic, start, correct, rand, pos, MaxAttempts);
    while |wrong| < 3 && attempts < MaxAttempts
      invariant 0 <= attempts <= MaxAttempts && next == pos + attempts
      invariant FillGeneric(generic, wrong, correct, rand, next, MaxAttempts - attempts) == target
    {
      var randomAnswer := Drawn(generic, rand, next);
      FillGenericStep(generic, wrong, correct, rand, next, MaxAttempts - attempts);
      ghost var accepted := Accept(wrong, randomAnswer, correct);
      if randomAnswer != correct && randomAnswer !in wrong {
        wrong := wrong + [randomAnswer];
      }
      assert wrong == accepted;
      attempts := attempts + 1;
      next := next + 1;
    }
  }

  /** Padding keeps the slots it starts from and puts each position's
      placeholder in every slot up to the third. */
  lemma {:induction false} PadPlaceholdersFills(wrong: seq<string>)
    requires |wrong| <= 3
    ensures var r := PadPlaceholders(wrong);
      |r| == 3 && r[..|wrong|] == wrong && forall m :: |wrong| <= m < 3 ==> PaddedAt(r, m)
    decreases 3 - |wrong|
  {
    if |wrong| < 3 {
      var w := wrong + [Placeholder(|wrong|)];
      PadPlaceholdersFills(w);
      var r := PadPlaceholders(w);
      assert r[..|wrong|] == r[..|w|][..|wrong|];
      assert r[|wrong|] == w[|wrong|];
    }
  }

  /** Completing keeps the starting slots. */
  lemma CompletedKeeps(generic: seq<string>, start: seq<string>, correct: string, rand: Random, pos: nat)
    requires |generic| > 0 && |start| < 3
    ensures var c := Completed(generic, start, correct, rand, pos);
      forall i :: 0 <= i < |start| ==> c.0[i] == start[i]
  {
    var f := FillGeneric(generic, start, correct, rand, pos, MaxAttempts);
    FillGenericGrows(generic, start, correct, rand, pos, MaxAttempts);
    PadPlaceholdersFills(f.0);
    var padded := PadPlaceholders(f.0);
    forall i | 0 <= i < |start|
      ensures padded[..3][i] == start[i]
    {
      assert padded[..3][i] == padded[i] == padded[..|f.0|][i] == f.0[i] == f.0[..|start|][i];
    }
  }

  /** Every slot completing adds holds either an accepted generic draw,
      selected by one of the draws made, or the placeholder for its position,
      and the placeholders come last. */
  lemma CompletedGenericOrPadded(generic: seq<string>, start: seq<string>, correct: string, rand: Random, pos: nat)
    requires |generic| > 0 && NoPlaceholders(generic) && |start| < 3
    ensures var c := Completed(generic, start, correct, rand, pos);
      && (forall i :: |start| <= i < 3 ==> GenericPick(generic, c.0, i, correct) || PaddedAt(c.0, i))
      && (forall i, j :: |start| <= i < j < 3 && PaddedAt(c.0, i) ==> PaddedAt(c.0, j))
      && (forall i :: |start| <= i < 3 && GenericPick(generic, c.0, i, correct) ==> DrawnBetween(generic, c.0[i], rand, pos, c.1))
  {
    var f := FillGeneric(generic, start, correct, rand, pos, MaxAttempts);
    FillGenericGrows(generic, start, correct, rand, pos, MaxAttempts);
    FillGenericPicks(generic, start, correct, rand, pos, MaxAttempts);
    PadPlaceholdersFills(f.0);
    var padded := PadPlaceholders(f.0);
    var wrong := padded[..3];
    var n := |f.0|;
    forall m | |start| <= m < 3
      ensures m < n ==> (GenericPick(generic, wrong, m, correct) && !PaddedAt(wrong, m)
                         && DrawnBetween(generic, wrong[m], rand, pos, f.1))
      ensures m >= n ==> PaddedAt(wrong, m) && !GenericPick(generic, wrong, m, correct)
    {
      assert wrong[m] == padded[m];
      if m < n {
        assert wrong[m] == padded[..n][m] == f.0[m];
        assert GenericPick(generic, f.0, m, correct);
        assert wrong[..m] == f.0[..m] by {
          forall t | 0 <= t < m
            ensures wrong[..m][t] == f.0[..m][t]
          {
            assert wrong[t] == padded[t] == padded[..n][t];
          }
        }
      } else {
        assert PaddedAt(padded, m);
      }
    }
  }

  /** Completing makes at most `MaxAttempts` draws, and all of them when a
      placeholder was needed. */
  lemma CompletedDrawCount(generic: seq<string>, start: seq<string>, correct: string, rand: Random, pos: nat)
    requires |generic| > 0 && NoPlaceholders(generic) && |start| < 3
    ensures var c := Completed(generic, start, correct, rand, pos);
      && pos <= c.1 <= pos + MaxAttempts
      && ((exists i :: |start| <= i < 3 && PaddedAt(c.0, i)) ==> c.1 == pos + MaxAttempts)
  {
    var f := FillGeneric(generic, start, correct, rand, pos, MaxAttempts);
    FillGenericGrows(generic, start, correct, rand, pos, MaxAttempts);
    FillGenericPicks(generic, start, correct, rand, pos, MaxAttempts);
    PadPlaceholdersFills(f.0);
    var padded := PadPlaceholders(f.0);
    var wrong := padded[..3];
    var n := |f.0|;
    forall m | |start| <= m < n
      ensures !PaddedAt(wrong, m)
    {
      assert wrong[m] == padded[m] == padded[..n][m] == f.0[m];
      assert GenericPick(generic, f.0, m, correct);
    }
  }

  /** Every draw completing makes is the correct answer or one of the
      slots. */
  lemma CompletedRejects(generic: seq<string>, start: seq<string>, correct: string, rand: Random, pos: nat)
    requires |generic| > 0 && |start| < 3
    ensures var c := Completed(generic, start, correct, rand, pos);
      forall p :: pos <= p < c.1 ==> Drawn(generic, rand, p) == correct || Drawn(generic, rand, p) in c.0
  {
    var f := FillGeneric(generic, start, correct, rand, pos, MaxAttempts);
    FillGenericGrows(generic, start, correct, rand, pos, MaxAttempts);
    FillGenericRejects(generic, start, correct, rand, pos, MaxAttempts);
    PadPlaceholdersFills(f.0);
    var padded := PadPlaceholders(f.0);
    var wrong := padded[..3];
    var n := |f.0|;
    forall x | x in f.0
      ensures x in wrong
    {
      var t :| 0 <= t < n && f.0[t] == x;
      assert wrong[t] == padded[t] == padded[..n][t];
    }
  }

  /** When the third slot is no placeholder, the last draw completing made
      filled it. */
  lemma CompletedLastDraw(generic: seq<string>, start: seq<string>, correct: string, rand: Random, pos: nat)
    requires |generic| > 0 && |start| < 3
    ensures var c := Completed(generic, start, correct, rand, pos);
      !PaddedAt(c.0, 2) ==> pos < c.1 && c.0[2] == Drawn(generic, rand, c.1 - 1)
  {
    var f := FillGeneric(generic, start, correct, rand, pos, MaxAttempts);
    FillGenericGrows(generic, start, correct, rand, pos, MaxAttempts);
    PadPlaceholdersFills(f.0);
    var padded := PadPlaceholders(f.0);
    var wrong := padded[..3];
    assert wrong[2] == padded[2];
    if |f.0| == 3 {
      FillGenericStops(generic, start, correct, rand, pos, MaxAttempts);
      assert padded[2] == padded[..3][2] == f.0[2];
    } else {
      assert PaddedAt(padded, 2);
    }
  }

  /** What `generateWrongAnswers` returns, slot by slot: the first
      `SimilarCount` slots hold the same-category answers in pool order;
      every later slot holds an accepted generic draw, selected by one of the
      draws made, or its placeholder, and the placeholders come last. The
      draws themselves are described by `CompletedDrawCount` and
      `CompletedLastDraw`, since the result is `Completed` of the
      same-category answers. */
  lemma WrongAnswersSlots(correct: string, category: string, pool: seq<Record>, rand: Random, pos: nat)
    ensures var (wrong, next) := WrongAnswers(correct, category, pool, rand, pos);
      var similar := SameCategoryOthers(pool, category, correct);
      var k := SimilarCount(pool, category, correct);
      && (forall i :: 0 <= i < k ==> wrong[i] == similar[i].a)
      && (forall i :: k <= i < 3 ==> GenericPick(GenericWrongAnswers, wrong, i, correct) || PaddedAt(wrong, i))
      && (forall i, j :: k <= i < j < 3 && PaddedAt(wrong, i) ==> PaddedAt(wrong, j))
      && (forall i :: k <= i < 3 && GenericPick(GenericWrongAnswers, wrong, i, correct) ==> DrawnBetween(GenericWrongAnswers, wrong[i], rand, pos, next))
  {
    var similar := SameCategoryOthers(pool, category, correct);
    var k := SimilarCount(pool, category, correct);
    var start := Answers(similar[..k]);
    forall m | 0 <= m < 3
      ensures Placeholder(m) !in GenericWrongAnswers
    {
      GenericIsNoPlaceholder(m);
    }
    CompletedKeeps(GenericWrongAnswers, start, correct, rand, pos);
    CompletedGenericOrPadded(GenericWrongAnswers, start, correct, rand, pos);
    var wrong := Completed(GenericWrongAnswers, start, correct, rand, pos).0;
    forall i | 0 <= i < k
      ensures wrong[i] == similar[i].a
    {
      assert wrong[i] == wrong[..k][i] == start[i];
    }
  }

  /** The generic loop never adds the correct answer. */
  lemma {:induction false} FillGenericAvoids(generic: seq<string>, wrong: seq<string>, correct: string, rand: Random, next: nat, left: nat)
    requires |generic| > 0 && correct !in wrong
    ensures correct !in FillGeneric(generic, wrong, correct, rand, next, left).0
    decreases left
  {
    if |wrong| < 3 && left > 0 {
      FillGenericAvoids(generic, Accept(wrong, Drawn(generic, rand, next), correct), correct, rand, next + 1, left - 1);
    }
  }

  /** Padding adds only placeholder labels. */
  lemma {:induction false} PadPlaceholdersAvoids(wrong: seq<string>, x: string)
    requires x !in wrong && forall n :: 0 <= n < 3 ==> x != Placeholder(n)
    ensures x !in PadPlaceholders(wrong)
    decreases 3 - |wrong|
  {
    if |wrong| < 3 {
      PadPlaceholdersAvoids(wrong + [Placeholder(|wrong|)], x);
    }
  }

  /** The correct answer is never among the wrong answers, unless it is
      itself one of the placeholder labels: same-category answers and generic
      draws that equal it are filtered out. */
  lemma WrongAnswersExcludeCorrect(correct: string, category: string, pool: seq<Record>, rand: Random, pos: nat)
    requires forall n :: 0 <= n < 3 ==> correct != Placeholder(n)
    ensures correct !in WrongAnswers(correct, category, pool, rand, pos).0
  {
    var similar := SameCategoryOthers(pool, category, correct);
    var start := Answers(similar[..SimilarCount(pool, category, correct)]);
    forall i | 0 <= i < |start|
      ensures start[i] != correct
    {
      assert similar[i] in similar;
    }
    FillGenericAvoids(GenericWrongAnswers, start, correct, rand, pos, MaxAttempts);
    var f := FillGeneric(GenericWrongAnswers, start, correct, rand, pos, MaxAttempts);
    PadPlaceholdersAvoids(f.0, correct);
    var padded := PadPlaceholders(f.0);
    assert forall x :: x in padded[..3] ==> x in padded;
  }

  /** The same-category loop of `generateWrongAnswers`: the answers of the
      first `k` records of `similar`. */
  method TakeAnswers(similar: seq<Record>, k: nat) returns (wrong: seq<string>)
    requires k <= |similar|
    ensures wrong == Answers(similar[..k])
  {
    wrong := [];
    var i := 0;
    while i < k
      invariant 0 <= i <= k
      invariant wrong == Answers(similar[..i])
    {
      wrong := wrong + [similar[i].a];
      i := i + 1;
    }
  }

  /** The padding loop of `generateWrongAnswers`: fills the remaining slots up
      to three with the placeholder for each position. */
  method PadSlots(start: seq<string>) returns (wrong: seq<string>)
    requires |start| <= 3
    ensures wrong == PadPlaceholders(start)
  {
    wrong := start;
    while |wrong| < 3
      invariant |start| <= |wrong| <= 3
      invariant PadPlaceholders(wrong) == PadPlaceholders(start)
    {
      wrong := wrong + [Placeholder(|wrong|)];
    }
  }

  /** Builds the three wrong answers; `rand` and `pos` stand for the calls to
      `Math.random()`, and `next` is the first draw left unused. */
  method GenerateWrongAnswers(correct: string, category: string, pool: seq<Record>, rand: Random, pos: nat)
    returns (wrong: seq<string>, next: nat)
    ensures (wrong, next) == WrongAnswers(correct, category, pool, rand, pos)
    ensures |wrong| == 3
  {
    var similar := SameCategoryOthers(pool, category, correct);
    var k := SimilarCount(pool, category, correct);
    wrong := TakeAnswers(similar, k);
    var drawn;
    drawn, next := DrawGeneric(GenericWrongAnswers, wrong, correct, rand, pos);
    FillGenericGrows(GenericWrongAnswers, wrong, correct, rand, pos, MaxAttempts);
    var padded := PadSlots(drawn);
    wrong := padded[..3];
    assert (wrong, next) == Completed(GenericWrongAnswers, Answers(similar[..k]), correct, rand, pos);
  }

  /** Two same-category records with the same answer give the same
      distractor twice: the same-category step does not remove repeats. */
  method RepeatedDistractors(rand: Random) returns (wrong: seq<string>)
    ensures |wrong| == 3 && wrong[0] == wrong[1] == "Paris"
  {
    var pool := [
      Record("What is the capital of France?", "Paris", "Capitals"),
      Record("Which city hosts the Louvre?", "Paris", "Capitals"),
      Record("What is the capital of Italy?", "Rome", "Capitals")
    ];
    assert SameCategoryOthers(pool, "Capitals", "Rome") == pool[..2];
    var next;
    wrong, next := GenerateWrongAnswers("Rome", "Capitals", pool, rand, 0);
    WrongAnswersSlots("Rome", "Capitals", pool, rand, 0);
  }
}
