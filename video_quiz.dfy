/** The static question list of the video quiz and the pure rules over it:
    which question the playback position triggers next, whether an answer is
    correct, and which summary message the results dialog shows. */
module VideoQuiz {

  datatype Option<+T> = None | Some(value: T)

  /** One timed multiple-choice question; `timeStamp` is the playback
      position, in whole seconds, from which it may interrupt the video. */
  datatype Question = Question(
    id: int,
    timeStamp: int,
    question: string,
    options: seq<string>,
    correctAnswer: int)

  /** The four questions authored for the video, in list order. */
  const Questions: seq<Question> := [
    Question(1, 42, "¿Qué estrategia están usando las leonas para cazar?",
      ["Caza en solitario", "Caza en grupo coordinado"], 1),
    Question(2, 120, "¿Qué hace la leona principal durante la persecución?",
      ["Corre directamente hacia la presa", "Conduce a la presa hacia sus compañeras"], 1),
    Question(3, 180, "¿Cuál es el papel de las leonas que esperan?",
      ["Descansar mientras las otras cazan", "Preparar una emboscada"], 1),
    Question(4, 300, "¿Por qué es efectiva esta técnica de caza?",
      ["Porque las leonas son muy rápidas", "Porque combina persecución y emboscada"], 1)
  ]

  /** Ids and timestamps strictly increase along the list, and every
      correct answer indexes one of its question's options. */
  predicate WellFormed(qs: seq<Question>) {
    && (forall i, j :: 0 <= i < j < |qs| ==> qs[i].id < qs[j].id)
    && (forall i, j :: 0 <= i < j < |qs| ==> qs[i].timeStamp < qs[j].timeStamp)
    && (forall i :: 0 <= i < |qs| ==> 0 <= qs[i].correctAnswer < |qs[i].options|)
  }

  lemma {:induction false} AuthoredWellFormed()
    ensures |Questions| == 4 && WellFormed(Questions)
    ensures forall i :: 0 <= i < |Questions| ==> Questions[i].id == i + 1
  {
  }

  /** The predicate handed to `find`: the question's time has come, it has
      not been answered, and it lies beyond the active question (any
      question qualifies when none is active). */
  predicate Eligible(q: Question, currentTime: int, answered: set<int>, active: Option<Question>) {
    && q.timeStamp <= currentTime
    && q.id !in answered
    && (active.None? || q.id > active.value.id)
  }

  /** `questions.find(...)`: the first eligible question in list order. */
  function SelectNext(qs: seq<Question>, currentTime: int, answered: set<int>, active: Option<Question>): (r: Option<Question>)
    ensures r.None? <==> forall i :: 0 <= i < |qs| ==> !Eligible(qs[i], currentTime, answered, active)
    ensures r.Some? ==> r.value in qs && Eligible(r.value, currentTime, answered, active)
    ensures r.Some? ==> exists k :: 0 <= k < |qs| && qs[k] == r.value
                          && forall j :: 0 <= j < k ==> !Eligible(qs[j], currentTime, answered, active)
  {
    if qs == [] then None
    else if Eligible(qs[0], currentTime, answered, active) then Some(qs[0])
    else
      var r := SelectNext(qs[1..], currentTime, answered, active);
      assert r.Some? ==> exists k :: 1 <= k < |qs| && qs[k] == r.value
                          && forall j :: 0 <= j < k ==> !Eligible(qs[j], currentTime, answered, active) by {
        if r.Some? {
          var k :| 0 <= k < |qs[1..]| && qs[1..][k] == r.value
                  && forall j :: 0 <= j < k ==> !Eligible(qs[1..][j], currentTime, answered, active);
          assert qs[k + 1] == r.value;
          assert forall j :: 0 <= j < k + 1 ==> !Eligible(qs[j], currentTime, answered, active) by {
            forall j | 0 <= j < k + 1 ensures !Eligible(qs[j], currentTime, answered, active) {
              if j > 0 { assert qs[j] == qs[1..][j - 1]; }
            }
          }
        }
      }
      r
  }

  /** First-match selection, stated without the function: on a list with
      distinct ids, the `k`-th question is found exactly when it is eligible
      and no earlier one is. */
  lemma {:induction false} SelectNextIsFirstMatch(qs: seq<Question>, currentTime: int, answered: set<int>, active: Option<Question>, k: int)
    requires 0 <= k < |qs|
    requires forall i, j :: 0 <= i < j < |qs| ==> qs[i].id != qs[j].id
    ensures SelectNext(qs, currentTime, answered, active) == Some(qs[k])
            <==> (Eligible(qs[k], currentTime, answered, active)
                  && forall j :: 0 <= j < k ==> !Eligible(qs[j], currentTime, answered, active))
  {
  }

  /** Whether the chosen option is the question's correct one. */
  function IsCorrect(q: Question, optionIndex: int): bool {
    optionIndex == q.correctAnswer
  }

  /** The two closing messages of the results dialog. */
  datatype Verdict = Perfect | TryAgain

  function ResultsMessage(correctAnswers: int, total: int): Verdict {
    if correctAnswers == total then Perfect else TryAgain
  }
}
