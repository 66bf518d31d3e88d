/**
 * The single-digit addition practice page (src/app/math/addition/page.tsx): three built-in
 * multiple-choice questions, the child's picks, the score and the attempt rows written on
 * submit.
 */
module AdditionPage {
  import opened Wrappers

  datatype Question = Question(id: string, prompt: string, choices: seq<string>, answer: string)

  /** The built-in question set. */
  const Questions: seq<Question> := [
    Question("q1", "What is 3 + 4 ?", ["5", "7", "8"], "7"),
    Question("q2", "What is 6 + 2 ?", ["7", "8", "9"], "8"),
    Question("q3", "What is 1 + 5 ?", ["5", "6", "7"], "6")
  ]

  /** The correct answer of every built-in question is one of the choices offered. */
  lemma AnswersAreOffered()
    ensures forall q :: q in Questions ==> q.answer in q.choices
  {
    assert Questions[0].choices[1] == "7";
    assert Questions[1].choices[1] == "8";
    assert Questions[2].choices[1] == "6";
  }

  /** No two built-in questions share an id, so each has its own entry among the picks. */
  lemma IdsAreDistinct()
    ensures forall i, j :: 0 <= i < j < |Questions| ==> Questions[i].id != Questions[j].id
  {
  }

  /** `picked[q.id] === q.answer`: an unanswered question is not correct. */
  predicate IsCorrect(picked: map<string, string>, q: Question) {
    q.id in picked && picked[q.id] == q.answer
  }

  /** The number of questions of `qs` answered correctly. */
  function Correct(picked: map<string, string>, qs: seq<Question>): (r: nat)
    ensures r <= |qs|
  {
    if qs == [] then 0
    else Correct(picked, qs[..|qs| - 1]) + (if IsCorrect(picked, qs[|qs| - 1]) then 1 else 0)
  }

  /** With nothing picked the score is zero. */
  lemma {:induction false} NothingPickedScoresZero(qs: seq<Question>)
    ensures Correct(map[], qs) == 0
  {
    if qs != [] {
      NothingPickedScoresZero(qs[..|qs| - 1]);
    }
  }

  /** When every question is answered with its answer the score is the number of questions. */
  lemma {:induction false} AllRightScoresAll(picked: map<string, string>, qs: seq<Question>)
    requires forall q :: q in qs ==> IsCorrect(picked, q)
    ensures Correct(picked, qs) == |qs|
  {
    if qs != [] {
      assert qs[|qs| - 1] in qs;
      forall q | q in qs[..|qs| - 1] ensures IsCorrect(picked, q) {
        assert q in qs;
      }
      AllRightScoresAll(picked, qs[..|qs| - 1]);
    }
  }

  /** A pick for an id that none of the questions has leaves the score as it was. */
  lemma {:induction false} ForeignPickKeepsScore(picked: map<string, string>, qid: string, choice: string,
                                                 qs: seq<Question>)
    requires forall q :: q in qs ==> q.id != qid
    ensures Correct(picked[qid := choice], qs) == Correct(picked, qs)
  {
    if qs != [] {
      assert qs[|qs| - 1] in qs;
      forall q | q in qs[..|qs| - 1] ensures q.id != qid {
        assert q in qs;
      }
      ForeignPickKeepsScore(picked, qid, choice, qs[..|qs| - 1]);
    }
  }

  /** Picking the right answer for a question never lowers the score. */
  lemma {:induction false} RightPickNeverLowers(picked: map<string, string>, q: Question, qs: seq<Question>)
    requires forall p :: p in qs && p.id == q.id ==> p.answer == q.answer
    ensures Correct(picked[q.id := q.answer], qs) >= Correct(picked, qs)
  {
    if qs != [] {
      assert qs[|qs| - 1] in qs;
      forall p | p in qs[..|qs| - 1] && p.id == q.id ensures p.answer == q.answer {
        assert p in qs;
      }
      RightPickNeverLowers(picked, q, qs[..|qs| - 1]);
    }
  }

  /** The counting loop of `submit`. */
  method CountCorrect(picked: map<string, string>, qs: seq<Question>) returns (correct: nat)
    ensures correct == Correct(picked, qs)
  {
    correct := 0;
    var i := 0;
    while i < |qs|
      invariant i <= |qs|
      invariant correct == Correct(picked, qs[..i])
    {
      assert qs[..i + 1][..i] == qs[..i];
      if qs[i].id in picked && picked[qs[i].id] == qs[i].answer {
        correct := correct + 1;
      }
      i := i + 1;
    }
    assert qs[..i] == qs;
  }

  /** The score shown after submitting. */
  datatype Score = Score(correct: nat, total: nat)

  /** One row of the `attempts` table. */
  datatype Attempt = Attempt(userId: string, subject: string, topic: string, isCorrect: bool, timeSpent: int)

  const Subject: string := "math"
  const Topic: string := "single_digit_addition"

  /** One attempt row per question, in question order, all sharing user, subject, topic and time. */
  function AttemptRows(userId: string, picked: map<string, string>, elapsed: int, qs: seq<Question>)
    : (rows: seq<Attempt>)
    ensures |rows| == |qs|
    ensures forall i :: 0 <= i < |qs| ==> rows[i].isCorrect == IsCorrect(picked, qs[i])
    ensures forall row :: row in rows ==>
              row.userId == userId && row.subject == Subject && row.topic == Topic && row.timeSpent == elapsed
  {
    seq(|qs|, i requires 0 <= i < |qs| => Attempt(userId, Subject, Topic, IsCorrect(picked, qs[i]), elapsed))
  }

  /** The number of rows marked correct. */
  function CountTrue(rows: seq<Attempt>): nat {
    if rows == [] then 0 else CountTrue(rows[..|rows| - 1]) + (if rows[|rows| - 1].isCorrect then 1 else 0)
  }

  /** The rows written agree with the score shown: as many are marked correct as were counted. */
  lemma {:induction false} RowsAgreeWithScore(userId: string, picked: map<string, string>, elapsed: int,
                                              qs: seq<Question>)
    ensures CountTrue(AttemptRows(userId, picked, elapsed, qs)) == Correct(picked, qs)
  {
    if qs != [] {
      var rows := AttemptRows(userId, picked, elapsed, qs);
      assert rows[..|rows| - 1] == AttemptRows(userId, picked, elapsed, qs[..|qs| - 1]);
      RowsAgreeWithScore(userId, picked, elapsed, qs[..|qs| - 1]);
    }
  }

  /** What `submit` ends with. */
  datatype Outcome =
    | NotSignedIn
    | Saved(rows: seq<Attempt>)
    | SaveFailed(rows: seq<Attempt>, alert: string)

  /** `!userId`: no user, or an empty id. */
  predicate SignedIn(userId: Option<string>) {
    userId.Some? && userId.value != ""
  }

  /** The practice page: who is signed in, the picks so far and the last score. */
  class AdditionPractice {
    var userId: Option<string>
    var picked: map<string, string>
    var result: Option<Score>

    /** The page as it opens, once the signed-in user (if any) is known. */
    constructor(user: Option<string>)
      ensures userId == user && picked == map[] && result == None
    {
      userId, picked, result := user, map[], None;
    }

    /** Clicking a choice: this question's pick is replaced, the other picks stay. */
    method Choose(qid: string, choice: string)
      modifies this
      ensures picked == old(picked)[qid := choice]
      ensures userId == old(userId) && result == old(result)
    {
      picked := picked[qid := choice];
    }

    /**
     * `submit`: `elapsed` is the rounded number of seconds since the page opened and
     * `insertError` the error message the insert into `attempts` reported, if any.
     */
    method Submit(elapsed: int, insertError: Option<string>) returns (outcome: Outcome)
      modifies this
      ensures !SignedIn(old(userId)) ==> outcome == NotSignedIn && result == old(result)
      ensures SignedIn(old(userId)) ==>
                result == Some(Score(Correct(old(picked), Questions), |Questions|)) &&
                !outcome.NotSignedIn? && outcome.rows == AttemptRows(old(userId).value, old(picked), elapsed, Questions) &&
                (outcome.Saved? <==> insertError.None?) &&
                (outcome.SaveFailed? ==> outcome.alert == "Could not save attempts: " + insertError.value)
      ensures userId == old(userId) && picked == old(picked)
    {
      if !SignedIn(userId) {
        return NotSignedIn;
      }
      var correct := CountCorrect(picked, Questions);
      result := Some(Score(correct, |Questions|));
      var rows := AttemptRows(userId.value, picked, elapsed, Questions);
      if insertError.Some? {
        outcome := SaveFailed(rows, "Could not save attempts: " + insertError.value);
      } else {
        outcome := Saved(rows);
      }
    }
  }
}
