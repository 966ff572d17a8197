/** The component instance: its state cells as mutable fields, and one
    method per handler, each proved to perform the transition of the same
    name in QuizMachine. */
module Session {
  import opened VideoQuiz
  import M = QuizMachine
  import QuizTrace

  class QuizSession {
    const questions: seq<Question>
    var currentTime: int
    var activeQuestion: Option<Question>
    var answeredQuestions: set<int>
    var correctAnswers: int
    var showResults: bool
    var selectedOption: Option<int>

    /** The fields read as one state record. */
    ghost function View(): M.State
      reads this
    {
      M.State(currentTime, activeQuestion, answeredQuestions, correctAnswers, showResults, selectedOption)
    }

    /** Mounting: the state cells take their initial values and the
        trigger effect re-runs until it reaches its fixed point. */
    constructor (qs: seq<Question>)
      ensures questions == qs
      ensures View() == M.Settle(qs, M.Initial)
    {
      questions := qs;
      currentTime, activeQuestion, answeredQuestions := 0, None, {};
      correctAnswers, showResults, selectedOption := 0, false, None;
      new;
      var _ := Settle();
    }

    /** One run of the trigger effect; `fired` tells whether it changed
        `activeQuestion`, which makes the effect run again. */
    method Trigger() returns (fired: bool)
      modifies this
      ensures View() == M.Trigger(questions, old(View()))
      ensures fired <==> activeQuestion != old(activeQuestion)
    {
      var currentQuestion := SelectNext(questions, currentTime, answeredQuestions, activeQuestion);
      fired := currentQuestion.Some? && currentQuestion != activeQuestion;
      if fired {
        activeQuestion := currentQuestion;
        selectedOption := None;
      }
    }

    /** The effect re-run until it leaves `activeQuestion` alone; `steps`
        counts the questions surfaced on the way, at most one per question. */
    method Settle() returns (steps: nat)
      modifies this
      ensures View() == M.Settle(questions, old(View()))
      ensures M.Settled(questions, View())
      ensures steps <= |questions|
    {
      steps := 0;
      var fired := Trigger();
      while fired
        invariant M.Settle(questions, View()) == M.Settle(questions, old(View()))
        invariant !fired ==> M.Trigger(questions, View()) == View()
        invariant steps + (if fired then 1 else 0) + M.Rank(questions, activeQuestion) <= |questions|
        decreases M.Rank(questions, activeQuestion), if fired then 1 else 0
      {
        steps := steps + 1;
        fired := Trigger();
      }
    }

    /** A polling tick reporting playback position `t`. */
    method Tick(t: int)
      modifies this
      ensures View() == M.Tick(questions, old(View()), t)
    {
      if t != currentTime {
        currentTime := t;
        var _ := Settle();
      }
    }

    /** A click on option `optionIndex`; `completion` is the id the delayed
        completion must be called with, or None when the click was ignored. */
    method Submit(optionIndex: int) returns (completion: Option<int>)
      modifies this
      ensures M.Submission(View(), completion) == M.Submit(old(View()), optionIndex)
      ensures old(activeQuestion).None? || old(selectedOption).Some? ==> View() == old(View())
    {
      if activeQuestion.None? || selectedOption.Some? {
        return None;
      }
      selectedOption := Some(optionIndex);
      if IsCorrect(activeQuestion.value, optionIndex) {
        correctAnswers := correctAnswers + 1;
      }
      completion := Some(activeQuestion.value.id);
    }

    /** The completion scheduled by an accepted submission, run with the id
        that was active when it was scheduled. */
    method Complete(submittedId: int)
      modifies this
      ensures View() == M.Complete(questions, old(View()), submittedId)
      ensures answeredQuestions == old(answeredQuestions) + {submittedId}
      ensures activeQuestion.None? ==> selectedOption == old(selectedOption)
    {
      answeredQuestions := answeredQuestions + {submittedId};
      activeQuestion := None;
      var _ := Settle();
    }

    /** The player reports that the video ended. */
    method Ended()
      modifies this
      ensures View() == M.End(old(View()))
      ensures showResults
    {
      showResults := true;
    }
  }

  /** A learner on the authored video who reaches question 1, clicks twice
      and waits for the feedback: only the first click schedules a
      completion and scores, and the selection outlives the completion. */
  method DoubleClickOnFirstQuestion() returns (first: Option<int>, second: Option<int>, score: int, answered: set<int>, selection: Option<int>)
    ensures first == Some(1) && second == None
    ensures score == 1 && answered == {1} && selection == Some(1)
  {
    VideoQuiz.AuthoredWellFormed();
    QuizTrace.MountNumbered(Questions);
    var session := new QuizSession(Questions);
    assert QuizTrace.FirstIds(0) == {};
    QuizTrace.TickInTurn(Questions, 0, 0, 45, 0, None);
    session.Tick(45);
    assert session.activeQuestion == Some(Questions[0]);
    first := session.Submit(1);
    second := session.Submit(0);
    QuizTrace.CompleteInTurn(Questions, 0, 45, 1, 1);
    session.Complete(1);
    assert session.activeQuestion == None;
    score, answered, selection := session.correctAnswers, session.answeredQuestions, session.selectedOption;
  }
}
