/** The quiz session as a pure state machine: one state record and one
    transition function per event handler of the component. The class in
    module Session is proved to perform exactly these transitions. */
module QuizMachine {
  import opened VideoQuiz

  /** The component's state cells, stripped of the player handle. */
  datatype State = State(
    currentTime: int,
    activeQuestion: Option<Question>,
    answeredQuestions: set<int>,
    correctAnswers: int,
    showResults: bool,
    selectedOption: Option<int>)

  /** The state cells as the component first renders them. */
  const Initial: State := State(0, None, {}, 0, false, None)

  /** No question is eligible: one more run of the trigger effect changes nothing. */
  predicate Settled(qs: seq<Question>, s: State) {
    SelectNext(qs, s.currentTime, s.answeredQuestions, s.activeQuestion).None?
  }

  /** Number of questions in `qs` whose id exceeds `id`. */
  function CountAbove(qs: seq<Question>, id: int): (n: nat)
    ensures n <= |qs|
  {
    if qs == [] then 0
    else (if qs[0].id > id then 1 else 0) + CountAbove(qs[1..], id)
  }

  /** How many more questions the trigger cascade can still surface. */
  function Rank(qs: seq<Question>, active: Option<Question>): (n: nat)
    ensures n <= |qs|
  {
    match active
    case None => |qs|
    case Some(p) => CountAbove(qs, p.id)
  }

  lemma {:induction false} CountAboveAntitone(qs: seq<Question>, lo: int, hi: int)
    requires lo <= hi
    ensures CountAbove(qs, hi) <= CountAbove(qs, lo)
  {
    if qs != [] {
      CountAboveAntitone(qs[1..], lo, hi);
    }
  }

  /** Moving the active question to a member of the list with a larger id
      (or to any member, when none was active) strictly lowers the rank. */
  lemma {:induction false} RankDrops(qs: seq<Question>, q: Question, active: Option<Question>)
    requires q in qs
    requires active.None? || q.id > active.value.id
    ensures Rank(qs, Some(q)) < Rank(qs, active)
  {
    assert qs != [];
    if qs[0] == q {
      if active.Some? {
        CountAboveAntitone(qs[1..], active.value.id, q.id);
      }
    } else {
      assert q in qs[1..];
      RankDrops(qs[1..], q, active);
    }
  }

  /** One run of the trigger effect: the first eligible question, if any,
      becomes active and the selection is cleared. */
  function Trigger(qs: seq<Question>, s: State): (r: State)
    ensures r.currentTime == s.currentTime && r.answeredQuestions == s.answeredQuestions
    ensures r.correctAnswers == s.correctAnswers && r.showResults == s.showResults
    ensures r.activeQuestion == s.activeQuestion <==> Settled(qs, s)
    ensures r.activeQuestion == s.activeQuestion ==> r == s
    ensures r.activeQuestion != s.activeQuestion ==>
              && r.activeQuestion == SelectNext(qs, s.currentTime, s.answeredQuestions, s.activeQuestion)
              && r.selectedOption == None
              && Rank(qs, r.activeQuestion) < Rank(qs, s.activeQuestion)
  {
    var currentQuestion := SelectNext(qs, s.currentTime, s.answeredQuestions, s.activeQuestion);
    if currentQuestion.Some? && currentQuestion != s.activeQuestion then
      RankDrops(qs, currentQuestion.value, s.activeQuestion);
      s.(activeQuestion := currentQuestion, selectedOption := None)
    else
      s
  }

  /** The effect re-run for as long as it keeps changing `activeQuestion`,
      one of its dependencies. */
  function Settle(qs: seq<Question>, s: State): (r: State)
    decreases Rank(qs, s.activeQuestion)
    ensures r.currentTime == s.currentTime && r.answeredQuestions == s.answeredQuestions
    ensures r.correctAnswers == s.correctAnswers && r.showResults == s.showResults
    ensures Settled(qs, r)
    ensures r.activeQuestion == s.activeQuestion ==> r == s
    ensures r.activeQuestion != s.activeQuestion ==>
              && r.activeQuestion.Some?
              && r.activeQuestion.value in qs
              && Eligible(r.activeQuestion.value, s.currentTime, s.answeredQuestions, s.activeQuestion)
              && r.selectedOption == None
  {
    var next := Trigger(qs, s);
    if next.activeQuestion == s.activeQuestion then s else Settle(qs, next)
  }

  /** After settling, every question that was eligible has an id no larger
      than the active one: a seek surfaces the highest eligible id. */
  lemma {:induction false} SettleReachesHighest(qs: seq<Question>, s: State, p: Question)
    requires p in qs && Eligible(p, s.currentTime, s.answeredQuestions, s.activeQuestion)
    ensures Settle(qs, s).activeQuestion.Some?
    ensures p.id <= Settle(qs, s).activeQuestion.value.id
  {
  }

  /** A polling tick: `currentTime` changes, and the effect runs again only
      if it really changed. */
  function Tick(qs: seq<Question>, s: State, t: int): (r: State)
    ensures r.currentTime == t
    ensures r.answeredQuestions == s.answeredQuestions
    ensures r.correctAnswers == s.correctAnswers && r.showResults == s.showResults
    ensures t == s.currentTime ==> r == s
    ensures t != s.currentTime ==> Settled(qs, r)
    ensures Settled(qs, s) ==> Settled(qs, r)
    ensures r.activeQuestion == s.activeQuestion ==> r == s.(currentTime := t)
    ensures r.activeQuestion != s.activeQuestion ==>
              && r.activeQuestion.Some?
              && r.activeQuestion.value in qs
              && Eligible(r.activeQuestion.value, t, s.answeredQuestions, s.activeQuestion)
              && r.selectedOption == None
  {
    if t == s.currentTime then s else Settle(qs, s.(currentTime := t))
  }

  /** What a submission returns: the new state and, when it was accepted,
      the id the delayed completion will mark as answered. */
  datatype Submission = Submission(state: State, completion: Option<int>)

  /** The answer handler; ignored without an active question or once an
      option has been chosen. */
  function Submit(s: State, optionIndex: int): (r: Submission)
    ensures r.state.activeQuestion == s.activeQuestion && r.state.answeredQuestions == s.answeredQuestions
    ensures r.state.currentTime == s.currentTime && r.state.showResults == s.showResults
    ensures r.completion.Some? ==>
              && s.activeQuestion.Some?
              && r.completion.value == s.activeQuestion.value.id
              && r.state.selectedOption == Some(optionIndex)
  {
    if s.activeQuestion.None? || s.selectedOption.Some? then
      Submission(s, None)
    else
      var q := s.activeQuestion.value;
      Submission(
        s.(selectedOption := Some(optionIndex),
           correctAnswers := if IsCorrect(q, optionIndex) then s.correctAnswers + 1 else s.correctAnswers),
        Some(q.id))
  }

  lemma {:induction false} SubmitIsGuarded(s: State, optionIndex: int)
    ensures Submit(s, optionIndex).completion.None?
            <==> s.activeQuestion.None? || s.selectedOption.Some?
    ensures Submit(s, optionIndex).completion.None? ==> Submit(s, optionIndex).state == s
  {
  }

  /** A second submit for the same active question is a no-op. */
  lemma {:induction false} SecondSubmitIsNoOp(s: State, first: int, second: int)
    ensures var s1 := Submit(s, first).state;
      Submit(s1, second) == Submission(s1, None)
  {
  }

  /** The counter grows by exactly one for a correct accepted answer and
      is otherwise unchanged; the completion carries the active id. */
  lemma {:induction false} SubmitCountsExactly(s: State, optionIndex: int)
    requires s.activeQuestion.Some? && s.selectedOption.None?
    ensures var r := Submit(s, optionIndex);
      && r.state.selectedOption == Some(optionIndex)
      && r.completion == Some(s.activeQuestion.value.id)
      && (r.state.correctAnswers == s.correctAnswers + 1 <==> optionIndex == s.activeQuestion.value.correctAnswer)
      && (r.state.correctAnswers == s.correctAnswers || r.state.correctAnswers == s.correctAnswers + 1)
      && r.state.activeQuestion == s.activeQuestion
      && r.state.answeredQuestions == s.answeredQuestions
      && r.state.currentTime == s.currentTime
      && r.state.showResults == s.showResults
  {
  }

  /** The delayed completion: the id captured at submission joins the
      answered set, the active question is cleared and, since both are
      dependencies, the trigger effect runs again. */
  function Complete(qs: seq<Question>, s: State, submittedId: int): (r: State)
    ensures r.answeredQuestions == s.answeredQuestions + {submittedId}
    ensures Settled(qs, r)
    ensures r.activeQuestion.Some? ==>
              && r.activeQuestion.value in qs
              && r.activeQuestion.value.timeStamp <= s.currentTime
              && r.activeQuestion.value.id !in r.answeredQuestions
  {
    Settle(qs, s.(answeredQuestions := s.answeredQuestions + {submittedId}, activeQuestion := None))
  }

  lemma {:induction false} CompleteIsExactUnion(qs: seq<Question>, s: State, submittedId: int)
    ensures var r := Complete(qs, s, submittedId);
      && r.answeredQuestions == s.answeredQuestions + {submittedId}
      && s.answeredQuestions <= r.answeredQuestions
      && r.correctAnswers == s.correctAnswers
      && r.currentTime == s.currentTime
      && r.showResults == s.showResults
      && Settled(qs, r)
  {
  }

  /** Completion leaves the selection as it was unless the re-run effect
      surfaces another question. */
  lemma {:induction false} CompleteKeepsSelection(qs: seq<Question>, s: State, submittedId: int)
    ensures var r := Complete(qs, s, submittedId);
      && (r.activeQuestion.None? ==> r.selectedOption == s.selectedOption)
      && (r.activeQuestion.Some? ==>
            && r.selectedOption == None
            && r.activeQuestion.value in qs
            && r.activeQuestion.value.id !in r.answeredQuestions)
  {
  }

  /** The player's "ended" event. */
  function End(s: State): (r: State)
    ensures r.showResults
    ensures r.currentTime == s.currentTime && r.activeQuestion == s.activeQuestion
    ensures r.answeredQuestions == s.answeredQuestions && r.correctAnswers == s.correctAnswers
    ensures r.selectedOption == s.selectedOption
  {
    s.(showResults := true)
  }

  lemma {:induction false} EndShowsResults(s: State)
    ensures End(s).showResults
    ensures End(s).(showResults := s.showResults) == s
  {
  }

  /** The message the results dialog closes with. */
  function Summary(qs: seq<Question>, s: State): Verdict {
    ResultsMessage(s.correctAnswers, |qs|)
  }

  lemma {:induction false} SummaryPerfectIff(qs: seq<Question>, s: State)
    ensures Summary(qs, s) == Perfect <==> s.correctAnswers == |qs|
  {
  }
}
