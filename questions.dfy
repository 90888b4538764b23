/**
 * The level-1 question pool: questions are drawn at random among those not
 * asked yet; once every question has been asked the record starts over.
 */
module Questions {

  /** A question and its expected answer. */
  datatype Question = Question(text: string, answer: string)

  /** The distinct questions of a list. */
  function Elems(s: seq<Question>): set<Question>
  {
    set q | q in s
  }

  predicate NoDup(s: seq<Question>)
  {
    forall i, j :: 0 <= i < j < |s| ==> s[i] != s[j]
  }

  /** The questions of `qs` not in `used`, in order. */
  function Available(qs: seq<Question>, used: seq<Question>): (a: seq<Question>)
    ensures forall q :: q in a <==> q in qs && q !in used
    ensures |a| <= |qs|
  {
    if qs == [] then []
    else (if qs[0] in used then [] else [qs[0]]) + Available(qs[1..], used)
  }

  /** The list `random.choice` picks from: the unused questions, or all of them after a reset. */
  function Candidates(qs: seq<Question>, used: seq<Question>): seq<Question>
  {
    var a := Available(qs, used);
    if a == [] then qs else a
  }

  /**
   * One draw with `pick` the index `random.choice` chose: the question and
   * the new record of used questions.
   */
  function Draw(qs: seq<Question>, used: seq<Question>, pick: nat): (r: (Question, seq<Question>))
    requires |qs| > 0
    ensures r.0 in qs
    ensures (exists q :: q in qs && q !in used) ==> r.0 !in used && r.1 == used + [r.0]
    ensures (forall q :: q in qs ==> q in used) ==> r.1 == [r.0]
  {
    var pool := Candidates(qs, used);
    var q := pool[pick % |pool|];
    (q, (if Available(qs, used) == [] then [] else used) + [q])
  }

  /** The record stays a duplicate-free list of pool questions. */
  lemma DrawKeepsRecord(qs: seq<Question>, used: seq<Question>, pick: nat)
    requires |qs| > 0 && NoDup(used) && Elems(used) <= Elems(qs)
    ensures NoDup(Draw(qs, used, pick).1) && Elems(Draw(qs, used, pick).1) <= Elems(qs)
  {
  }

  /** A duplicate-free list has as many distinct elements as entries. */
  lemma {:induction false} NoDupCard(s: seq<Question>)
    requires NoDup(s)
    ensures |Elems(s)| == |s|
    decreases |s|
  {
    if s != [] {
      var p := s[..|s| - 1];
      assert NoDup(p);
      NoDupCard(p);
      assert Elems(s) == Elems(p) + {s[|s| - 1]};
      assert s[|s| - 1] !in Elems(p);
    }
  }

  /** While fewer questions are recorded than there are distinct ones, one is still unused. */
  lemma SomeUnused(qs: seq<Question>, used: seq<Question>)
    requires NoDup(used) && |used| < |Elems(qs)|
    ensures exists q :: q in qs && q !in used
  {
    NoDupCard(used);
    var a, b := Elems(qs), Elems(used);
    assert a == (a - b) + (a * b);
    assert b == (a * b) + (b - a);
    assert |a - b| > 0;
    var q :| q in a - b;
    assert q in qs && q !in used;
  }

  /** Successive draws: the questions asked and the final record. */
  function Draws(qs: seq<Question>, used: seq<Question>, picks: seq<nat>): (seq<Question>, seq<Question>)
    requires |qs| > 0
    decreases |picks|
  {
    if picks == [] then ([], used)
    else
      var (q, used1) := Draw(qs, used, picks[0]);
      var (rest, last) := Draws(qs, used1, picks[1..]);
      ([q] + rest, last)
  }

  /**
   * No question comes twice before every distinct question has been asked:
   * as long as the draws fit in what is left of the round, they are all
   * different from each other and from the ones already asked.
   */
  lemma {:induction false} NoRepeatWithinRound(qs: seq<Question>, used: seq<Question>, picks: seq<nat>)
    requires |qs| > 0 && NoDup(used) && Elems(used) <= Elems(qs)
    requires |used| + |picks| <= |Elems(qs)|
    ensures Draws(qs, used, picks).1 == used + Draws(qs, used, picks).0
    ensures NoDup(Draws(qs, used, picks).1)
    decreases |picks|
  {
    if picks != [] {
      SomeUnused(qs, used);
      var (q, used1) := Draw(qs, used, picks[0]);
      DrawKeepsRecord(qs, used, picks[0]);
      NoRepeatWithinRound(qs, used1, picks[1..]);
      assert used1 == used + [q];
    }
  }

  /** The module-level record of asked questions, over a fixed question list. */
  class QuestionPool {
    const questions: seq<Question>
    var used: seq<Question>

    ghost predicate Valid()
      reads this
    {
      |questions| > 0 && NoDup(used) && Elems(used) <= Elems(questions)
    }

    /** `random.choice` on an empty list fails, so the list must not be empty. */
    constructor (questions: seq<Question>)
      requires |questions| > 0
      ensures Valid() && this.questions == questions && used == []
    {
      this.questions := questions;
      used := [];
    }

    /** `get_question()`: `pick` is the index `random.choice` draws among the candidates. */
    method GetQuestion(pick: nat) returns (question: Question)
      requires Valid() && pick < |Candidates(questions, used)|
      modifies this`used
      ensures Valid()
      ensures (question, used) == Draw(questions, old(used), pick)
    {
      ghost var before := used;
      var available := Available(questions, used);
      if available == [] {
        used := [];
        available := questions;
      }
      assert available == Candidates(questions, before) && pick % |available| == pick;
      question := available[pick];
      used := used + [question];
      assert (question, used) == Draw(questions, before, pick);
      DrawKeepsRecord(questions, before, pick);
    }
  }
}
