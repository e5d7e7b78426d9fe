/**
 * Model of src/hooks/useQuiz.ts: the state of one quiz run. The hook keeps
 * three React state cells: the quiz state proper, the best streak and the
 * time remaining. Here they are the fields of a `Quiz` object; each state
 * transition is a function on the `QuizState` value, and every callback of
 * the hook is a method that applies it. The clock enters as the `nowMs`
 * parameter (milliseconds since the epoch).
 */
module QuizSession {
  import opened Types
  import Scoring

  /** Seconds on the clock for a whole Desafio run (5 * 60). */
  const DesafioSeconds := 300

  datatype AnswerRecord = AnswerRecord(questionId: string, selectedAnswer: int, isCorrect: bool)

  datatype QuizResult = QuizResult(
    score: int,
    correctAnswers: int,
    totalQuestions: int,
    maxStreak: int,
    xpGained: int,
    timeSpent: int,
    answers: seq<AnswerRecord>)

  /** The hook's main state cell. */
  datatype QuizState = QuizState(
    questions: seq<Question>,
    currentQuestionIndex: nat,
    score: int,
    correctAnswers: nat,
    streak: nat,
    answers: seq<AnswerRecord>,
    isFinished: bool,
    startedAt: Option<int>)

  /** How many recorded answers were right. */
  function CountCorrect(answers: seq<AnswerRecord>): (n: nat)
    ensures n <= |answers|
  {
    if answers == [] then 0
    else CountCorrect(answers[..|answers| - 1]) + (if answers[|answers| - 1].isCorrect then 1 else 0)
  }

  lemma CountCorrectAppend(answers: seq<AnswerRecord>, a: AnswerRecord)
    ensures CountCorrect(answers + [a]) == CountCorrect(answers) + (if a.isCorrect then 1 else 0)
  {
    assert (answers + [a])[..|answers|] == answers;
  }

  /** The clock a question is scored against: the whole run in Desafio, one question otherwise. */
  function TotalTime(mode: GameMode, timePerQuestion: int): int
  {
    if mode == Desafio then DesafioSeconds else timePerQuestion
  }

  /** The timer value set when a run starts or restarts; Treino keeps whatever it had. */
  function StartTime(mode: GameMode, timePerQuestion: int, previous: Option<int>): (t: Option<int>)
    ensures mode == Treino ==> t == previous
    ensures mode != Treino ==> t == Some(TotalTime(mode, timePerQuestion))
  {
    if mode == Desafio then Some(DesafioSeconds)
    else if mode != Treino then Some(timePerQuestion)
    else previous
  }

  /** Whole seconds elapsed since the start, or 0 when there is no start time. */
  function ElapsedSeconds(startedAt: Option<int>, nowMs: int): int
  {
    if startedAt.Some? then (nowMs - startedAt.value) / 1000 else 0
  }

  /** A run over `questions` started (or restarted) at `nowMs`. */
  function Fresh(questions: seq<Question>, nowMs: int): QuizState
  {
    QuizState(questions, 0, 0, 0, 0, [], false, Some(nowMs))
  }

  /** `state.questions[state.currentQuestionIndex] || null`. */
  function CurrentQuestion(s: QuizState): (q: Option<Question>)
    ensures q.Some? <==> s.currentQuestionIndex < |s.questions|
    ensures q.Some? ==> q.value == s.questions[s.currentQuestionIndex]
  {
    if s.currentQuestionIndex < |s.questions| then Some(s.questions[s.currentQuestionIndex]) else None
  }

  /** `currentQuestionIndex >= questions.length - 1`. */
  function IsLastQuestion(s: QuizState): bool
  {
    s.currentQuestionIndex >= |s.questions| - 1
  }

  /** The streak the current answer leaves behind. */
  function NewStreak(s: QuizState, selected: int): nat
    requires s.currentQuestionIndex < |s.questions|
  {
    if selected == s.questions[s.currentQuestionIndex].correctAnswer then s.streak + 1 else 0
  }

  /**
   * The points the current answer earns, scored with the streak it leaves
   * behind and the time left against the clock of the mode.
   */
  function AnswerPoints(s: QuizState, selected: int, timeRemaining: Option<int>,
                        mode: GameMode, timePerQuestion: int): (p: int)
    requires s.currentQuestionIndex < |s.questions|
    requires timePerQuestion > 0
    ensures selected != s.questions[s.currentQuestionIndex].correctAnswer ==> p == 0
    ensures selected == s.questions[s.currentQuestionIndex].correctAnswer ==> p >= Scoring.BasePoints
  {
    var q := s.questions[s.currentQuestionIndex];
    Scoring.AnswerScore(q.difficulty, selected == q.correctAnswer, NewStreak(s, selected),
                        timeRemaining, Some(TotalTime(mode, timePerQuestion)))
  }

  /**
   * The state after `selected` is chosen for the current question: the
   * answer is logged and scored, the streak grows or breaks, and the run
   * moves to the next question or finishes on the last one.
   */
  function AfterAnswer(s: QuizState, selected: int, points: int): QuizState
    requires s.currentQuestionIndex < |s.questions|
  {
    var q := s.questions[s.currentQuestionIndex];
    var isCorrect := selected == q.correctAnswer;
    var last := IsLastQuestion(s);
    s.(score := s.score + points,
       correctAnswers := if isCorrect then s.correctAnswers + 1 else s.correctAnswers,
       streak := NewStreak(s, selected),
       answers := s.answers + [AnswerRecord(q.id, selected, isCorrect)],
       currentQuestionIndex := if last then s.currentQuestionIndex else s.currentQuestionIndex + 1,
       isFinished := last)
  }

  /** skipQuestion's transition: the last question ends the run, any other one is passed over. */
  function AfterSkip(s: QuizState): QuizState
  {
    if IsLastQuestion(s) then s.(isFinished := true)
    else s.(currentQuestionIndex := s.currentQuestionIndex + 1, streak := 0)
  }

  /** The result a finished run reports. */
  function ResultOf(s: QuizState, maxStreak: nat, mode: GameMode, timeSpent: int): QuizResult
  {
    QuizResult(s.score, s.correctAnswers, |s.questions|, maxStreak,
               Scoring.XP(s.score, mode), timeSpent, s.answers)
  }

  /** The sum of a list of points. */
  function SumPoints(points: seq<int>): int
  {
    if points == [] then 0 else SumPoints(points[..|points| - 1]) + points[|points| - 1]
  }

  lemma SumPointsAppend(points: seq<int>, p: int)
    ensures SumPoints(points + [p]) == SumPoints(points) + p
  {
    assert (points + [p])[..|points|] == points;
  }

  /** Each logged answer earned its points: none when wrong, at least the base points when right. */
  ghost predicate Earned(answers: seq<AnswerRecord>, points: seq<int>)
  {
    && |points| == |answers|
    && forall k :: 0 <= k < |points| ==>
         if answers[k].isCorrect then points[k] >= Scoring.BasePoints else points[k] == 0
  }

  /** Points earned this way add up to at least the base points per right answer. */
  lemma {:induction false} EarnedAtLeastBase(answers: seq<AnswerRecord>, points: seq<int>)
    requires Earned(answers, points)
    ensures SumPoints(points) >= Scoring.BasePoints * CountCorrect(answers)
  {
    if points != [] {
      var n := |points| - 1;
      assert Earned(answers[..n], points[..n]);
      EarnedAtLeastBase(answers[..n], points[..n]);
      assert answers[..n] == answers[..|answers| - 1];
    }
  }

  /** The `k`-th logged answer was given to the question at position `at[k]`. */
  ghost predicate Logged(s: QuizState, at: seq<nat>, k: int)
    requires 0 <= k < |at| == |s.answers|
  {
    && at[k] < |s.questions|
    && at[k] <= s.currentQuestionIndex
    && (!s.isFinished ==> at[k] < s.currentQuestionIndex)
    && s.answers[k].questionId == s.questions[at[k]].id
    && s.answers[k].isCorrect == (s.answers[k].selectedAnswer == s.questions[at[k]].correctAnswer)
  }

  /**
   * What every transition keeps, given the positions `at` of the answered
   * questions: the index stays on a question, each logged answer belongs
   * to an earlier question (or the current one once finished) and says
   * truly whether it was right, no question is answered twice, the count
   * of right answers agrees with the log, the streak is bounded by it, and
   * the score is the sum of the points `points` each logged answer earned.
   */
  ghost predicate Consistent(s: QuizState, at: seq<nat>, points: seq<int>)
  {
    && (|s.questions| == 0 ==> s.currentQuestionIndex == 0)
    && (|s.questions| > 0 ==> s.currentQuestionIndex < |s.questions|)
    && |at| == |s.answers|
    && (forall k :: 0 <= k < |at| ==> Logged(s, at, k))
    && (forall i, j :: 0 <= i < j < |at| ==> at[i] < at[j])
    && s.correctAnswers == CountCorrect(s.answers)
    && s.streak <= s.correctAnswers
    && Earned(s.answers, points)
    && s.score == SumPoints(points)
  }

  lemma FreshConsistent(questions: seq<Question>, nowMs: int)
    ensures Consistent(Fresh(questions, nowMs), [], [])
  {
  }

  /** Answering the current question keeps the run consistent, logging its position. */
  lemma AfterAnswerConsistent(s: QuizState, at: seq<nat>, earned: seq<int>, selected: int, points: int)
    requires Consistent(s, at, earned)
    requires !s.isFinished && s.currentQuestionIndex < |s.questions|
    requires selected != s.questions[s.currentQuestionIndex].correctAnswer ==> points == 0
    requires selected == s.questions[s.currentQuestionIndex].correctAnswer ==> points >= Scoring.BasePoints
    ensures Consistent(AfterAnswer(s, selected, points), at + [s.currentQuestionIndex], earned + [points])
  {
    var q := s.questions[s.currentQuestionIndex];
    var record := AnswerRecord(q.id, selected, selected == q.correctAnswer);
    var t := AfterAnswer(s, selected, points);
    var at' := at + [s.currentQuestionIndex];
    CountCorrectAppend(s.answers, record);
    SumPointsAppend(earned, points);
    forall k | 0 <= k < |at'|
      ensures Logged(t, at', k)
    {
      if k < |at| {
        assert Logged(s, at, k);
      }
    }
    forall i, j | 0 <= i < j < |at'|
      ensures at'[i] < at'[j]
    {
      if j == |at| {
        assert Logged(s, at, i);
      }
    }
  }

  /** Skipping keeps the run consistent; nothing is logged. */
  lemma AfterSkipConsistent(s: QuizState, at: seq<nat>, earned: seq<int>)
    requires Consistent(s, at, earned)
    ensures Consistent(AfterSkip(s), at, earned)
  {
    var t := AfterSkip(s);
    forall k | 0 <= k < |at|
      ensures Logged(t, at, k)
    {
      assert Logged(s, at, k);
    }
  }

  /** Finishing where the run stands keeps it consistent. */
  lemma FinishConsistent(s: QuizState, at: seq<nat>, earned: seq<int>)
    requires Consistent(s, at, earned)
    ensures Consistent(s.(isFinished := true), at, earned)
  {
    var t := s.(isFinished := true);
    forall k | 0 <= k < |at|
      ensures Logged(t, at, k)
    {
      assert Logged(s, at, k);
    }
  }

  /** Strictly increasing positions below `n` number at most `n`. */
  lemma {:induction false} IncreasingPositionsBound(at: seq<nat>, n: nat)
    requires forall k :: 0 <= k < |at| ==> at[k] < n
    requires forall i, j :: 0 <= i < j < |at| ==> at[i] < at[j]
    ensures |at| <= n
  {
    if |at| > 0 {
      var init := at[..|at| - 1];
      var last := at[|at| - 1];
      assert forall k :: 0 <= k < |init| ==> init[k] < last;
      IncreasingPositionsBound(init, last);
    }
  }

  /**
   * A consistent run never logs more answers than it has questions, so it
   * never reports more right answers than questions either.
   */
  lemma AnswersAtMostQuestions(s: QuizState, at: seq<nat>, earned: seq<int>)
    requires Consistent(s, at, earned)
    ensures s.correctAnswers <= |s.answers| <= |s.questions|
  {
    forall k | 0 <= k < |at|
      ensures at[k] < |s.questions|
    {
      assert Logged(s, at, k);
    }
    IncreasingPositionsBound(at, |s.questions|);
  }

  class Quiz {
    var state: QuizState
    var maxStreak: nat
    var timeRemaining: Option<int>
    const mode: GameMode
    const timePerQuestion: int
    /** For each logged answer, the position of the question it answered. */
    ghost var answeredAt: seq<nat>
    /** For each logged answer, the points it earned. */
    ghost var earned: seq<int>

    /** The run is consistent and the best streak lies between the streak and the right answers. */
    ghost predicate Valid()
      reads this
    {
      && timePerQuestion > 0
      && Consistent(state, answeredAt, earned)
      && state.streak <= maxStreak <= state.correctAnswers
    }

    /** The hook mounted and its initialising effect run at time `nowMs`. */
    constructor (questions: seq<Question>, mode: GameMode, timePerQuestion: int, nowMs: int)
      requires timePerQuestion > 0
      ensures Valid()
      ensures state == Fresh(questions, nowMs) && maxStreak == 0
      ensures this.mode == mode && this.timePerQuestion == timePerQuestion
      ensures timeRemaining == StartTime(mode, timePerQuestion, None)
    {
      state := Fresh(questions, nowMs);
      maxStreak := 0;
      timeRemaining := StartTime(mode, timePerQuestion, None);
      this.mode := mode;
      this.timePerQuestion := timePerQuestion;
      answeredAt := [];
      earned := [];
      FreshConsistent(questions, nowMs);
    }

    /**
     * handleAnswer: ignored once finished or when there is no current
     * question. Otherwise the answer is scored and logged, the best streak
     * catches up with the new streak, a per-question clock restarts unless
     * the run finished, and only a finishing answer produces a result.
     */
    method HandleAnswer(selected: int, nowMs: int) returns (result: Option<QuizResult>)
      requires Valid()
      modifies this
      ensures Valid()
      ensures old(state.isFinished) || old(state.currentQuestionIndex) >= |old(state.questions)| ==>
        result.None? && state == old(state) && maxStreak == old(maxStreak) &&
        timeRemaining == old(timeRemaining)
      ensures !old(state.isFinished) && old(state.currentQuestionIndex) < |old(state.questions)| ==>
        var s := old(state);
        var newStreak := NewStreak(s, selected);
        && state == AfterAnswer(s, selected, AnswerPoints(s, selected, old(timeRemaining), mode, timePerQuestion))
        && maxStreak == (if newStreak > old(maxStreak) then newStreak else old(maxStreak))
        && timeRemaining == (if !IsLastQuestion(s) && mode != Desafio && mode != Treino
                             then Some(timePerQuestion) else old(timeRemaining))
        && result == (if IsLastQuestion(s)
                      then Some(ResultOf(state, maxStreak, mode, ElapsedSeconds(s.startedAt, nowMs)))
                      else None)
    {
      if state.isFinished || CurrentQuestion(state).None? {
        return None;
      }
      var newStreak := NewStreak(state, selected);
      if newStreak > maxStreak {
        maxStreak := newStreak;
      }
      var points := AnswerPoints(state, selected, timeRemaining, mode, timePerQuestion);
      var isFinishing := IsLastQuestion(state);
      var startedAt := state.startedAt;
      var next := AfterAnswer(state, selected, points);
      AfterAnswerConsistent(state, answeredAt, earned, selected, points);
      answeredAt := answeredAt + [state.currentQuestionIndex];
      earned := earned + [points];
      state := next;
      assert Consistent(state, answeredAt, earned);
      result := None;
      if isFinishing {
        result := Some(ResultOf(state, maxStreak, mode, ElapsedSeconds(startedAt, nowMs)));
      }
      if !isFinishing && mode != Desafio && mode != Treino {
        timeRemaining := Some(timePerQuestion);
      }
    }

    /**
     * handleTimeUp: in Desafio the run ends where it stands and reports the
     * full five minutes as time spent (every call reports again); in every
     * other mode it answers the current question with -1.
     */
    method HandleTimeUp(nowMs: int) returns (result: Option<QuizResult>)
      requires Valid()
      modifies this
      ensures Valid()
      ensures mode == Desafio ==>
        state == old(state).(isFinished := true) && maxStreak == old(maxStreak) &&
        timeRemaining == old(timeRemaining) &&
        result == Some(ResultOf(state, maxStreak, mode, DesafioSeconds))
      ensures mode != Desafio && (old(state.isFinished) || old(state.currentQuestionIndex) >= |old(state.questions)|) ==>
        result.None? && state == old(state) && maxStreak == old(maxStreak) &&
        timeRemaining == old(timeRemaining)
      ensures mode != Desafio && !old(state.isFinished) && old(state.currentQuestionIndex) < |old(state.questions)| ==>
        var s := old(state);
        var newStreak := NewStreak(s, -1);
        && state == AfterAnswer(s, -1, AnswerPoints(s, -1, old(timeRemaining), mode, timePerQuestion))
        && maxStreak == (if newStreak > old(maxStreak) then newStreak else old(maxStreak))
        && timeRemaining == (if !IsLastQuestion(s) && mode != Treino then Some(timePerQuestion) else old(timeRemaining))
        && result == (if IsLastQuestion(s)
                      then Some(ResultOf(state, maxStreak, mode, ElapsedSeconds(s.startedAt, nowMs)))
                      else None)
    {
      if mode == Desafio {
        FinishConsistent(state, answeredAt, earned);
        state := state.(isFinished := true);
        result := Some(ResultOf(state, maxStreak, mode, DesafioSeconds));
      } else {
        result := HandleAnswer(-1, nowMs);
      }
    }

    /** resetQuiz: back to the first question with empty counters and a fresh start time. */
    method Reset(nowMs: int)
      requires Valid()
      modifies this
      ensures Valid()
      ensures state == Fresh(old(state.questions), nowMs) && maxStreak == 0
      ensures timeRemaining == StartTime(mode, timePerQuestion, old(timeRemaining))
    {
      FreshConsistent(state.questions, nowMs);
      state := Fresh(state.questions, nowMs);
      maxStreak := 0;
      timeRemaining := StartTime(mode, timePerQuestion, timeRemaining);
      answeredAt := [];
      earned := [];
    }

    /**
     * skipQuestion: only in Treino and only while running. Skipping the last
     * question ends the run without a result; otherwise the next question
     * comes up and the streak is broken. Nothing is scored or logged.
     */
    method Skip()
      requires Valid()
      modifies this
      ensures Valid()
      ensures maxStreak == old(maxStreak) && timeRemaining == old(timeRemaining)
      ensures old(state.isFinished) || mode != Treino ==> state == old(state)
      ensures !old(state.isFinished) && mode == Treino ==> state == AfterSkip(old(state))
    {
      if state.isFinished || mode != Treino {
        return;
      }
      AfterSkipConsistent(state, answeredAt, earned);
      state := AfterSkip(state);
    }

    /** setTimeRemaining, as driven by the page's countdown. */
    method SetTimeRemaining(t: Option<int>)
      requires Valid()
      modifies this
      ensures Valid()
      ensures timeRemaining == t
      ensures state == old(state) && maxStreak == old(maxStreak)
    {
      timeRemaining := t;
    }
  }

  /** A finished run reports no more right answers than questions, each worth at least 100 points. */
  lemma ResultBounds(s: QuizState, at: seq<nat>, earned: seq<int>, maxStreak: nat, mode: GameMode, timeSpent: int)
    requires Consistent(s, at, earned) && maxStreak <= s.correctAnswers
    ensures var r := ResultOf(s, maxStreak, mode, timeSpent);
      && 0 <= r.maxStreak <= r.correctAnswers <= |r.answers| <= r.totalQuestions
      && r.score >= 100 * r.correctAnswers
      && r.xpGained >= 0
  {
    AnswersAtMostQuestions(s, at, earned);
    EarnedAtLeastBase(s.answers, earned);
  }

  function SampleQuestion(id: string): Question
  {
    Question(id, "?", ["a", "b", "c", "d"], 0, Selecoes, Facil, None)
  }

  /**
   * Time running out on the only question of a Duelo run answers it with
   * -1: the run finishes and reports a result with no right answer, no
   * points and no streak.
   */
  method TimeUpOnLastQuestion() returns (result: Option<QuizResult>)
    ensures result.Some?
    ensures result.value.score == 0 && result.value.correctAnswers == 0
    ensures result.value.maxStreak == 0 && result.value.totalQuestions == 1
    ensures |result.value.answers| == 1 && !result.value.answers[0].isCorrect
  {
    var quiz := new Quiz([SampleQuestion("q1")], Duelo, 15, 1000);
    result := quiz.HandleTimeUp(16000);
  }

  /**
   * A Treino run over three easy questions, all answered right: 100, 100 and
   * 100 + 25 (a streak of three) make 325 points, worth floor(325 * 0.05) = 16 XP.
   */
  method PerfectTreinoRun() returns (result: Option<QuizResult>)
    ensures result.Some?
    ensures result.value.score == 325 && result.value.correctAnswers == 3
    ensures result.value.maxStreak == 3 && result.value.xpGained == 16
    ensures result.value.timeSpent == 7
  {
    var quiz := new Quiz([SampleQuestion("q1"), SampleQuestion("q2"), SampleQuestion("q3")], Treino, 20, 1000);
    result := quiz.HandleAnswer(0, 3000);
    result := quiz.HandleAnswer(0, 5000);
    result := quiz.HandleAnswer(0, 8000);
  }
}
