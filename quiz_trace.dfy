/** Whole sessions: a sequence of player and learner events driving the
    state machine, the invariant every sequentially timed session keeps,
    and the playthroughs of the authored video. */
module QuizTrace {
  import opened VideoQuiz
  import opened QuizMachine

  /** What can happen to the component: a polling tick reporting the
      playback position, a click on an option, the feedback delay running
      out, and the video ending. */
  datatype Event = PlayerTick(t: int) | OptionClicked(index: int) | FeedbackElapsed | PlayerEnded

  /** The state cells, together with the ids captured by the completions
      that have been scheduled and have not run yet, oldest first: every
      accepted click starts its own timer, and the timers run out in the
      order they were started. */
  datatype Config = Config(state: State, pending: seq<int>)

  /** The component right after mounting: the trigger effect has run to its fixed point. */
  function Mount(qs: seq<Question>): (r: Config)
    ensures r.pending == [] && Settled(qs, r.state)
    ensures r.state.currentTime == 0 && !r.state.showResults
    ensures r.state.answeredQuestions == {} && r.state.correctAnswers == 0
  {
    Config(Settle(qs, Initial), [])
  }

  /** One event. A click that is accepted queues its completion behind the
      ones already waiting; the end of a delay runs the oldest of them. */
  function Step(qs: seq<Question>, c: Config, e: Event): (r: Config)
    ensures c.state.answeredQuestions <= r.state.answeredQuestions
    ensures e.OptionClicked? ==>
              r.pending == c.pending || (|r.pending| == |c.pending| + 1 && r.pending[..|c.pending|] == c.pending)
    ensures e.OptionClicked? && |r.pending| > |c.pending| ==>
              c.state.activeQuestion.Some? && r.pending[|c.pending|] == c.state.activeQuestion.value.id
    ensures e.FeedbackElapsed? && c.pending != [] ==>
              r.pending == c.pending[1..] && c.pending[0] in r.state.answeredQuestions
    ensures e.FeedbackElapsed? && c.pending == [] ==> r == c
    ensures !e.OptionClicked? && !e.FeedbackElapsed? ==> r.pending == c.pending
    ensures e.PlayerEnded? ==> r.state.showResults
  {
    match e
    case PlayerTick(t) => Config(Tick(qs, c.state, t), c.pending)
    case OptionClicked(i) =>
      var sub := Submit(c.state, i);
      Config(sub.state, if sub.completion.Some? then c.pending + [sub.completion.value] else c.pending)
    case FeedbackElapsed =>
      if c.pending != [] then Config(Complete(qs, c.state, c.pending[0]), c.pending[1..]) else c
    case PlayerEnded => Config(End(c.state), c.pending)
  }

  function Run(qs: seq<Question>, c: Config, es: seq<Event>): Config
    decreases |es|
  {
    if es == [] then c else Run(qs, Step(qs, c, es[0]), es[1..])
  }

  /** Sequential timing: while a completion is waiting, the position does
      not move (the poller may still report the paused position). */
  predicate Sequential(c: Config, e: Event) {
    !(e.PlayerTick? && c.pending != [] && e.t != c.state.currentTime)
  }

  predicate SequentialRun(qs: seq<Question>, c: Config, es: seq<Event>)
    decreases |es|
  {
    es == [] || (Sequential(c, es[0]) && SequentialRun(qs, Step(qs, c, es[0]), es[1..]))
  }

  /** The ids of the authored questions. */
  function Ids(qs: seq<Question>): set<int> {
    set q | q in qs :: q.id
  }

  /** What holds in every state a sequential session reaches. */
  predicate Inv(qs: seq<Question>, c: Config) {
    var s := c.state;
    && Settled(qs, s)
    && s.answeredQuestions <= Ids(qs)
    && (s.activeQuestion.Some? ==>
          s.activeQuestion.value in qs && s.activeQuestion.value.id !in s.answeredQuestions)
    && |c.pending| <= 1
    && (c.pending != [] ==>
          && s.activeQuestion.Some?
          && s.selectedOption.Some?
          && c.pending[0] == s.activeQuestion.value.id)
    && 0 <= s.correctAnswers <= |s.answeredQuestions| + |c.pending|
  }

  lemma {:induction false} MountEstablishesInv(qs: seq<Question>)
    ensures Inv(qs, Mount(qs))
    ensures Mount(qs).state.answeredQuestions == {} && Mount(qs).state.correctAnswers == 0
  {
  }

  /** Every event keeps a settled state settled, whatever the timing. */
  lemma {:induction false} StepKeepsSettled(qs: seq<Question>, c: Config, e: Event)
    requires Settled(qs, c.state)
    ensures Settled(qs, Step(qs, c, e).state)
  {
  }

  lemma {:induction false} StepPreservesInv(qs: seq<Question>, c: Config, e: Event)
    requires Inv(qs, c) && Sequential(c, e)
    ensures Inv(qs, Step(qs, c, e))
    ensures c.state.answeredQuestions <= Step(qs, c, e).state.answeredQuestions
  {
  }

  lemma {:induction false} RunPreservesInv(qs: seq<Question>, c: Config, es: seq<Event>)
    requires Inv(qs, c) && SequentialRun(qs, c, es)
    ensures Inv(qs, Run(qs, c, es))
    ensures c.state.answeredQuestions <= Run(qs, c, es).state.answeredQuestions
    decreases |es|
  {
    if es != [] {
      StepPreservesInv(qs, c, es[0]);
      RunPreservesInv(qs, Step(qs, c, es[0]), es[1..]);
    }
  }

  lemma {:induction false} IdsBound(qs: seq<Question>)
    ensures |Ids(qs)| <= |qs|
  {
    if qs != [] {
      IdsBound(qs[1..]);
      assert Ids(qs) == {qs[0].id} + Ids(qs[1..]);
    }
  }

  /** In every reachable state the counter stays within the number of
      questions, so the partial-score message is shown exactly when some
      answer was missed or wrong. */
  lemma {:induction false} CorrectWithinTotal(qs: seq<Question>, c: Config)
    requires Inv(qs, c)
    ensures 0 <= c.state.correctAnswers <= |qs|
    ensures Summary(qs, c.state) == TryAgain <==> c.state.correctAnswers < |qs|
  {
    var s := c.state;
    IdsBound(qs);
    if c.pending != [] {
      assert c.pending[0] in Ids(qs) by {
        assert s.activeQuestion.value in qs;
      }
      assert s.answeredQuestions + {c.pending[0]} <= Ids(qs);
      assert |s.answeredQuestions + {c.pending[0]}| == |s.answeredQuestions| + 1;
    }
    assert |s.answeredQuestions| <= |Ids(qs)| by {
      SubsetSize(s.answeredQuestions, Ids(qs));
    }
    if c.pending != [] {
      SubsetSize(s.answeredQuestions + {c.pending[0]}, Ids(qs));
    }
  }

  lemma {:induction false} SubsetSize(a: set<int>, b: set<int>)
    requires a <= b
    ensures |a| <= |b|
  {
    assert b == a + (b - a);
  }

  /** The ids of the first `k` authored questions. */
  function FirstIds(k: nat): (r: set<int>)
    ensures forall i :: i in r <==> 1 <= i <= k
  {
    if k == 0 then {} else FirstIds(k - 1) + {k}
  }

  /** A well-formed list numbered 1, 2, 3, ... in list order, as the
      authored one is. */
  predicate Numbered(qs: seq<Question>) {
    WellFormed(qs) && forall i :: 0 <= i < |qs| ==> qs[i].id == i + 1
  }

  /** A tick into the window of question `k+1` (0-based `k`) surfaces
      exactly that question. */
  lemma {:induction false} TickInTurn(qs: seq<Question>, k: nat, before: int, t: int, correct: int, sel: Option<int>)
    requires Numbered(qs)
    requires k < |qs|
    requires before < qs[k].timeStamp <= t
    requires k + 1 < |qs| ==> t < qs[k + 1].timeStamp
    ensures Tick(qs, State(before, None, FirstIds(k), correct, false, sel), t)
            == State(t, Some(qs[k]), FirstIds(k), correct, false, None)
  {
    var s1 := State(t, None, FirstIds(k), correct, false, sel);
    SelectNextIsFirstMatch(qs, t, FirstIds(k), None, k);
    var s2 := State(t, Some(qs[k]), FirstIds(k), correct, false, None);
    assert Trigger(qs, s1) == s2;
    assert Settled(qs, s2) by {
      forall j | 0 <= j < |qs| ensures !Eligible(qs[j], t, FirstIds(k), Some(qs[k])) {
        if j > k + 1 { assert qs[k + 1].timeStamp < qs[j].timeStamp; }
      }
    }
    assert Trigger(qs, s2) == s2;
    assert Settle(qs, s2) == s2;
    assert Settle(qs, s1) == s2;
  }

  /** Completing question `k+1` inside its window leaves nothing eligible. */
  lemma {:induction false} CompleteInTurn(qs: seq<Question>, k: nat, t: int, correct: int, option: int)
    requires Numbered(qs)
    requires k < |qs|
    requires qs[k].timeStamp <= t
    requires k + 1 < |qs| ==> t < qs[k + 1].timeStamp
    ensures Complete(qs, State(t, Some(qs[k]), FirstIds(k), correct, false, Some(option)), k + 1)
            == State(t, None, FirstIds(k + 1), correct, false, Some(option))
  {
  }

  /** Watching on from the window of question `k+1`: one tick surfaces
      exactly that question, the click is scored, and the completion adds
      its id with nothing else eligible. */
  lemma {:induction false} AnswerInTurn(qs: seq<Question>, k: nat, before: int, t: int, correct: int, sel: Option<int>, option: int)
    requires Numbered(qs)
    requires k < |qs|
    requires before < qs[k].timeStamp <= t
    requires k + 1 < |qs| ==> t < qs[k + 1].timeStamp
    ensures Run(qs, Config(State(before, None, FirstIds(k), correct, false, sel), []), Watch(t, option))
            == Config(State(t, None, FirstIds(k + 1),
                            if option == qs[k].correctAnswer then correct + 1 else correct, false, Some(option)), [])
  {
    var c0 := Config(State(before, None, FirstIds(k), correct, false, sel), []);
    TickInTurn(qs, k, before, t, correct, sel);
    var c1 := Step(qs, c0, PlayerTick(t));
    var correct' := if option == qs[k].correctAnswer then correct + 1 else correct;
    var c2 := Step(qs, c1, OptionClicked(option));
    assert c2 == Config(State(t, Some(qs[k]), FirstIds(k), correct', false, Some(option)), [k + 1]);
    CompleteInTurn(qs, k, t, correct', option);
    RunThree(qs, c0, PlayerTick(t), OptionClicked(option), FeedbackElapsed);
  }

  lemma {:induction false} RunThree(qs: seq<Question>, c: Config, a: Event, b: Event, d: Event)
    ensures Run(qs, c, [a, b, d]) == Step(qs, Step(qs, Step(qs, c, a), b), d)
  {
    assert [a, b, d][1..] == [b, d];
    assert [b, d][1..] == [d];
    assert Run(qs, c, [a, b, d]) == Run(qs, Step(qs, c, a), [b, d]);
    assert Run(qs, Step(qs, c, a), [b, d]) == Run(qs, Step(qs, Step(qs, c, a), b), [d]);
    assert [d][1..] == [];
    assert Run(qs, Step(qs, Step(qs, c, a), b), [d]) == Step(qs, Step(qs, Step(qs, c, a), b), d);
  }

  lemma {:induction false} RunAppend(qs: seq<Question>, c: Config, a: seq<Event>, b: seq<Event>)
    ensures Run(qs, c, a + b) == Run(qs, Run(qs, c, a), b)
    decreases |a|
  {
    if a != [] {
      assert (a + b)[0] == a[0] && (a + b)[1..] == a[1..] + b;
      RunAppend(qs, Step(qs, c, a[0]), a[1..], b);
    } else {
      assert a + b == b;
    }
  }

  /** A tick at `t`, a click on `option` and the end of the feedback delay. */
  function Watch(t: int, option: int): seq<Event> {
    [PlayerTick(t), OptionClicked(option), FeedbackElapsed]
  }

  /** The authored playthrough in which the learner answers every question
      as it is reached, choosing option `second` for question 2 and the
      correct option everywhere else, then watches to the end. */
  function Playthrough(second: int): seq<Event> {
    Watch(45, 1) + Watch(125, second) + Watch(185, 1) + Watch(305, 1) + [PlayerTick(336), PlayerEnded]
  }

  /** Each question is surfaced once, in id order; the answered set ends
      complete and the score is 4 of 4 exactly when question 2 was also
      answered correctly. */
  lemma {:induction false} PlaythroughScores(second: int)
    ensures Mount(Questions) == Config(Initial, [])
    ensures var c := Run(Questions, Mount(Questions), Playthrough(second));
      && c.state.answeredQuestions == {1, 2, 3, 4}
      && c.state.correctAnswers == (if second == 1 then 4 else 3)
      && c.state.showResults
      && (Summary(Questions, c.state) == Perfect <==> second == 1)
  {
    AuthoredWellFormed();
    MountNumbered(Questions);
    PlaythroughOf(Questions, second, Mount(Questions));
    assert FirstIds(4) == {1, 2, 3, 4};
  }

  /** The playthrough on any numbered list with the authored timestamps
      and correct answers. */
  lemma {:induction false} PlaythroughOf(qs: seq<Question>, second: int, c0: Config)
    requires Numbered(qs) && |qs| == 4
    requires qs[0].timeStamp == 42 && qs[1].timeStamp == 120
    requires qs[2].timeStamp == 180 && qs[3].timeStamp == 300
    requires forall i :: 0 <= i < 4 ==> qs[i].correctAnswer == 1
    requires c0 == Config(Initial, [])
    ensures Run(qs, c0, Playthrough(second))
            == Config(State(336, None, FirstIds(4), if second == 1 then 4 else 3, true, Some(1)), [])
  {
    var n := if second == 1 then 2 else 1;
    var c1 := Config(State(45, None, FirstIds(1), 1, false, Some(1)), []);
    var c2 := Config(State(125, None, FirstIds(2), n, false, Some(second)), []);
    var c3 := Config(State(185, None, FirstIds(3), n + 1, false, Some(1)), []);
    var c4 := Config(State(305, None, FirstIds(4), n + 2, false, Some(1)), []);
    var c5 := Config(State(336, None, FirstIds(4), n + 2, true, Some(1)), []);
    FirstTwoQuestions(qs, second);
    LastTwoQuestions(qs, n, second);
    WatchToEnd(qs, 305, n + 2);
    PlaythroughComposes(qs, second, c0, c1, c2, c3, c4, c5);
  }

  lemma {:induction false} FirstTwoQuestions(qs: seq<Question>, second: int)
    requires Numbered(qs) && |qs| == 4
    requires qs[0].timeStamp == 42 && qs[1].timeStamp == 120 && qs[2].timeStamp == 180
    requires qs[0].correctAnswer == 1 && qs[1].correctAnswer == 1
    ensures Run(qs, Config(Initial, []), Watch(45, 1))
            == Config(State(45, None, FirstIds(1), 1, false, Some(1)), [])
    ensures Run(qs, Config(State(45, None, FirstIds(1), 1, false, Some(1)), []), Watch(125, second))
            == Config(State(125, None, FirstIds(2), if second == 1 then 2 else 1, false, Some(second)), [])
  {
    assert FirstIds(0) == {};
    AnswerInTurn(qs, 0, 0, 45, 0, None, 1);
    AnswerInTurn(qs, 1, 45, 125, 1, Some(1), second);
  }

  lemma {:induction false} LastTwoQuestions(qs: seq<Question>, n: int, second: int)
    requires Numbered(qs) && |qs| == 4
    requires qs[2].timeStamp == 180 && qs[3].timeStamp == 300
    requires qs[2].correctAnswer == 1 && qs[3].correctAnswer == 1
    ensures Run(qs, Config(State(125, None, FirstIds(2), n, false, Some(second)), []), Watch(185, 1))
            == Config(State(185, None, FirstIds(3), n + 1, false, Some(1)), [])
    ensures Run(qs, Config(State(185, None, FirstIds(3), n + 1, false, Some(1)), []), Watch(305, 1))
            == Config(State(305, None, FirstIds(4), n + 2, false, Some(1)), [])
  {
    AnswerInTurn(qs, 2, 125, 185, n, Some(second), 1);
    AnswerInTurn(qs, 3, 185, 305, n + 1, Some(1), 1);
  }

  /** A playthrough runs as its five phases run one after the other. */
  lemma {:induction false} PlaythroughComposes(qs: seq<Question>, second: int, c0: Config, c1: Config, c2: Config, c3: Config, c4: Config, c5: Config)
    requires Run(qs, c0, Watch(45, 1)) == c1
    requires Run(qs, c1, Watch(125, second)) == c2
    requires Run(qs, c2, Watch(185, 1)) == c3
    requires Run(qs, c3, Watch(305, 1)) == c4
    requires Run(qs, c4, [PlayerTick(336), PlayerEnded]) == c5
    ensures Run(qs, c0, Playthrough(second)) == c5
  {
    var w1, w2, w3, w4 := Watch(45, 1), Watch(125, second), Watch(185, 1), Watch(305, 1);
    RunAppend(qs, c0, w1, w2);
    RunAppend(qs, c0, w1 + w2, w3);
    RunAppend(qs, c0, w1 + w2 + w3, w4);
    RunAppend(qs, c0, w1 + w2 + w3 + w4, [PlayerTick(336), PlayerEnded]);
  }

  /** Nothing is due at time 0, so mounting changes no state cell. */
  lemma {:induction false} MountNumbered(qs: seq<Question>)
    requires Numbered(qs) && qs != [] && qs[0].timeStamp > 0
    ensures Mount(qs) == Config(Initial, [])
  {
  }

  /** With every question answered, the last tick surfaces nothing and the
      end of the video opens the results. */
  lemma {:induction false} WatchToEnd(qs: seq<Question>, before: int, correct: int)
    requires Numbered(qs) && |qs| == 4 && before != 336
    ensures Run(qs, Config(State(before, None, FirstIds(4), correct, false, Some(1)), []),
                [PlayerTick(336), PlayerEnded])
            == Config(State(336, None, FirstIds(4), correct, true, Some(1)), [])
  {
  }

  /** A tick at 125 s, a click on `option`, and the end of two delays. */
  function Overlap(option: int): seq<Event> {
    [PlayerTick(125), OptionClicked(option)] + [FeedbackElapsed, FeedbackElapsed]
  }

  /** A tick inside the feedback delay of question 1 surfaces question 2
      while the first completion still waits; answering it queues a second
      completion, and the two run in turn: both ids end answered and no
      question is left active. */
  lemma {:induction false} OverlappingCompletions(qs: seq<Question>, correct: int, option: int, c0: Config)
    requires Numbered(qs) && |qs| >= 2
    requires qs[0].timeStamp <= 45 && qs[1].timeStamp <= 125
    requires |qs| > 2 ==> 125 < qs[2].timeStamp
    requires c0 == Config(State(45, Some(qs[0]), {}, correct, false, Some(1)), [1])
    ensures Run(qs, c0, Overlap(option))
            == Config(State(125, None, {1, 2},
                            if option == qs[1].correctAnswer then correct + 1 else correct, false, None), [])
  {
    var es := Overlap(option);
    var c1 := Step(qs, c0, PlayerTick(125));
    OverlapFirstTick(qs, correct);
    assert es[0] == PlayerTick(125) && es[1..] == [OptionClicked(option), FeedbackElapsed, FeedbackElapsed];
    assert Run(qs, c0, es) == Run(qs, c1, es[1..]);
    RunThree(qs, c1, OptionClicked(option), FeedbackElapsed, FeedbackElapsed);
    OverlapQueue(qs, correct, option);
  }

  /** The tick at 125 s moves the active question from 1 to 2. */
  lemma {:induction false} OverlapFirstTick(qs: seq<Question>, correct: int)
    requires Numbered(qs) && |qs| >= 2
    requires qs[0].timeStamp <= 45 && qs[1].timeStamp <= 125
    requires |qs| > 2 ==> 125 < qs[2].timeStamp
    ensures Step(qs, Config(State(45, Some(qs[0]), {}, correct, false, Some(1)), [1]), PlayerTick(125))
            == Config(State(125, Some(qs[1]), {}, correct, false, None), [1])
  {
    SurfacesSecond(qs, State(125, Some(qs[0]), {}, correct, false, Some(1)));
  }

  /** The click on question 2 queues its completion behind that of
      question 1, and the two completions then run in turn. */
  lemma {:induction false} OverlapQueue(qs: seq<Question>, correct: int, option: int)
    requires Numbered(qs) && |qs| >= 2
    requires qs[0].timeStamp <= 45 && qs[1].timeStamp <= 125
    requires |qs| > 2 ==> 125 < qs[2].timeStamp
    ensures var correct' := if option == qs[1].correctAnswer then correct + 1 else correct;
      Step(qs, Step(qs, Step(qs, Config(State(125, Some(qs[1]), {}, correct, false, None), [1]),
                             OptionClicked(option)), FeedbackElapsed), FeedbackElapsed)
      == Config(State(125, None, {1, 2}, correct', false, None), [])
  {
    var correct' := if option == qs[1].correctAnswer then correct + 1 else correct;
    var c1 := Config(State(125, Some(qs[1]), {}, correct, false, None), [1]);
    var c2 := Config(State(125, Some(qs[1]), {}, correct', false, Some(option)), [1, 2]);
    assert Step(qs, c1, OptionClicked(option)) == c2;
    SurfacesSecond(qs, State(125, None, {1}, correct', false, Some(option)));
    var c3 := Config(State(125, Some(qs[1]), {1}, correct', false, None), [2]);
    assert {} + {1} == {1};
    assert Step(qs, c2, FeedbackElapsed) == c3;
    var s4 := State(125, None, {1, 2}, correct', false, None);
    assert Settled(qs, s4) by {
      forall j | 0 <= j < |qs| ensures !Eligible(qs[j], 125, {1, 2}, None) {
        if j > 2 { assert qs[2].timeStamp < qs[j].timeStamp; }
      }
    }
    assert {1} + {2} == {1, 2};
    assert Step(qs, c3, FeedbackElapsed) == Config(s4, []);
  }

  /** A tick at 125 s inside question 1's delay, then two correct clicks
      on question 2, each followed by the end of a delay, and a last delay. */
  function Rescoring(qs: seq<Question>): seq<Event>
    requires |qs| >= 2
  {
    var a := qs[1].correctAnswer;
    [PlayerTick(125), OptionClicked(a), FeedbackElapsed] + [OptionClicked(a), FeedbackElapsed, FeedbackElapsed]
  }

  /** The interleaving the invariant excludes lets one question be scored
      twice: after a tick inside question 1's delay, question 2 is answered,
      question 1's completion then surfaces question 2 again with its
      selection cleared, and a second correct click counts once more. Only
      two ids end answered while the counter has grown by two. */
  lemma {:induction false} RescoredAfterOverlap(qs: seq<Question>, correct: int, c0: Config)
    requires Numbered(qs) && |qs| >= 2
    requires qs[0].timeStamp <= 45 && qs[1].timeStamp <= 125
    requires |qs| > 2 ==> 125 < qs[2].timeStamp
    requires c0 == Config(State(45, Some(qs[0]), {}, correct, false, Some(1)), [1])
    ensures Run(qs, c0, Rescoring(qs))
            == Config(State(125, None, {1, 2}, correct + 2, false, Some(qs[1].correctAnswer)), [])
  {
    var a := qs[1].correctAnswer;
    var c3 := Config(State(125, Some(qs[1]), {1}, correct + 1, false, None), [2]);
    OverlapFirstTick(qs, correct);
    RescoreFirstHalf(qs, correct);
    RescoreSecondHalf(qs, correct);
    RunThree(qs, c0, PlayerTick(125), OptionClicked(a), FeedbackElapsed);
    RunThree(qs, c3, OptionClicked(a), FeedbackElapsed, FeedbackElapsed);
    RunAppend(qs, c0, [PlayerTick(125), OptionClicked(a), FeedbackElapsed], [OptionClicked(a), FeedbackElapsed, FeedbackElapsed]);
  }

  /** The first correct click on question 2 scores; question 1's
      completion surfaces question 2 again with no selection. */
  lemma {:induction false} RescoreFirstHalf(qs: seq<Question>, correct: int)
    requires Numbered(qs) && |qs| >= 2
    requires qs[0].timeStamp <= 45 && qs[1].timeStamp <= 125
    requires |qs| > 2 ==> 125 < qs[2].timeStamp
    ensures var c1 := Config(State(125, Some(qs[1]), {}, correct, false, None), [1]);
      Step(qs, Step(qs, c1, OptionClicked(qs[1].correctAnswer)), FeedbackElapsed)
      == Config(State(125, Some(qs[1]), {1}, correct + 1, false, None), [2])
  {
    var a := qs[1].correctAnswer;
    var c2 := Config(State(125, Some(qs[1]), {}, correct + 1, false, Some(a)), [1, 2]);
    assert Step(qs, Config(State(125, Some(qs[1]), {}, correct, false, None), [1]), OptionClicked(a)) == c2;
    SurfacesSecond(qs, State(125, None, {1}, correct + 1, false, Some(a)));
    assert {} + {1} == {1};
  }

  /** The second correct click scores again, and both completions of
      question 2 then run. */
  lemma {:induction false} RescoreSecondHalf(qs: seq<Question>, correct: int)
    requires Numbered(qs) && |qs| >= 2
    requires qs[0].timeStamp <= 45 && qs[1].timeStamp <= 125
    requires |qs| > 2 ==> 125 < qs[2].timeStamp
    ensures var a := qs[1].correctAnswer;
      var c3 := Config(State(125, Some(qs[1]), {1}, correct + 1, false, None), [2]);
      Step(qs, Step(qs, Step(qs, c3, OptionClicked(a)), FeedbackElapsed), FeedbackElapsed)
      == Config(State(125, None, {1, 2}, correct + 2, false, Some(a)), [])
  {
    var a := qs[1].correctAnswer;
    var c4 := Config(State(125, Some(qs[1]), {1}, correct + 2, false, Some(a)), [2, 2]);
    assert Step(qs, Config(State(125, Some(qs[1]), {1}, correct + 1, false, None), [2]), OptionClicked(a)) == c4;
    var s5 := State(125, None, {1, 2}, correct + 2, false, Some(a));
    assert Settled(qs, s5) by {
      forall j | 0 <= j < |qs| ensures !Eligible(qs[j], 125, {1, 2}, None) {
        if j > 2 { assert qs[2].timeStamp < qs[j].timeStamp; }
      }
    }
    assert {1} + {2} == {1, 2} && {1, 2} + {2} == {1, 2};
    assert Step(qs, c4, FeedbackElapsed) == Config(s5, [2]);
    assert Step(qs, Config(s5, [2]), FeedbackElapsed) == Config(s5, []);
  }

  /** At 125 s, with question 1 either active or answered, the cascade
      settles on question 2 and clears the selection. */
  lemma {:induction false} SurfacesSecond(qs: seq<Question>, s: State)
    requires Numbered(qs) && |qs| >= 2
    requires qs[0].timeStamp <= 45 && qs[1].timeStamp <= 125
    requires |qs| > 2 ==> 125 < qs[2].timeStamp
    requires s.currentTime == 125 && !s.showResults
    requires (s.activeQuestion == Some(qs[0]) && s.answeredQuestions == {})
          || (s.activeQuestion == None && s.answeredQuestions == {1})
    ensures Settle(qs, s) == s.(activeQuestion := Some(qs[1]), selectedOption := None)
  {
    SelectNextIsFirstMatch(qs, 125, s.answeredQuestions, s.activeQuestion, 1);
    var s2 := s.(activeQuestion := Some(qs[1]), selectedOption := None);
    assert Trigger(qs, s) == s2;
    assert Settled(qs, s2) by {
      forall j | 0 <= j < |qs| ensures !Eligible(qs[j], 125, s.answeredQuestions, Some(qs[1])) {
        if j > 2 { assert qs[2].timeStamp < qs[j].timeStamp; }
      }
    }
    assert Settle(qs, s2) == s2;
  }

  /** Seeking straight to 185 s makes questions 1, 2 and 3 eligible at
      once; the cascade stops at the highest of them. */
  lemma {:induction false} SeekSurfacesHighest()
    ensures Tick(Questions, Initial, 185).activeQuestion == Some(Questions[2])
  {
  }
}
