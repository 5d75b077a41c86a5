/**
 * The AI lesson session: one learner takes one generated lesson through the
 * steps generate -> learn -> exercise -> complete, answering multiple-choice
 * exercises one at a time, and is shown a rounded percentage score and a
 * review of every option.
 *
 * The lesson records and the pure presentation rules are functions; the
 * component's state, which its event handlers overwrite, is the class
 * `LessonSession`.
 */
module AiLesson {
  import opened Wrappers
  import JsMath

  // ---------------------------------------------------------------------------
  // Lesson records
  // ---------------------------------------------------------------------------

  datatype Exercise = Exercise(
    question: string,
    options: seq<string>,
    correctAnswer: int,
    explanation: string)

  datatype LessonContent = LessonContent(
    title: string,
    content: string,
    keyPoints: seq<string>,
    exercises: seq<Exercise>)

  /** The four values of `currentStep`. */
  datatype Step = GenerateStep | LearnStep | ExerciseStep | CompleteStep

  /** `correctAnswer` names one of the exercise's options. */
  predicate ValidExercise(e: Exercise) {
    0 <= e.correctAnswer < |e.options|
  }

  /** Exercises a session can be run on: at least one, each with a valid correct answer. */
  predicate Runnable(exercises: seq<Exercise>) {
    |exercises| > 0 && forall i :: 0 <= i < |exercises| ==> ValidExercise(exercises[i])
  }

  /** A lesson the session can be run on. */
  predicate WellFormed(l: LessonContent) {
    Runnable(l.exercises)
  }

  /** The lesson `generateLesson` builds for a subject and a topic. */
  function MockLesson(subject: string, topic: string): LessonContent {
    LessonContent(
      topic + " in " + subject,
      MockContent(subject, topic),
      MockKeyPoints(subject, topic),
      MockExercises(subject, topic))
  }

  /**
   * The lesson text, with the topic and the subject filled in. The literals
   * are split into short pieces, which keeps the verifier's work on them
   * small; their concatenation is the component's text.
   */
  function MockContent(subject: string, topic: string): string {
    "Welcome to your " + "personalized " + "lesson on " + topic + "!\n\n"
    + topic + " is a fundamental " + "concept in " + subject
    + " that forms " + "the building " + "blocks for more " + "advanced topics. \n\n"
    + "In this lesson, " + "you'll learn:\n"
    + "\U{2022} Core concepts " + "and terminology\n"
    + "\U{2022} Practical " + "applications " + "and examples\n"
    + "\U{2022} Step-by-step " + "problem-solving " + "approaches\n"
    + "\U{2022} Real-world " + "use cases\n\n"
    + "Let's start " + "with the basics " + "and build your " + "understanding " + "progressively. "
    + "This content " + "is tailored " + "for visual learners " + "with interactive " + "examples and " + "clear explanations.\n\n"
    + "Key Concept: " + topic + " involves understanding " + "how different " + "elements work " + "together to " + "create solutions. "
    + "Think of it " + "like building " + "blocks - each " + "piece has a " + "specific purpose " + "and fits together " + "in a logical " + "way.\n\n"
    + "Example: Imagine " + "you're giving " + "directions to " + "a friend. You " + "need to be clear, " + "specific, and " + "break down "
    + "the journey " + "into simple " + "steps. This " + "is exactly how " + topic
    + " works - breaking " + "complex problems " + "into manageable " + "pieces."
  }

  function MockKeyPoints(subject: string, topic: string): seq<string> {
    [ topic + " is essential " + "for understanding " + subject,
      "Break complex " + "problems into " + "smaller, manageable " + "parts",
      "Practice with " + "real examples " + "to reinforce " + "learning",
      "Apply logical " + "thinking and " + "step-by-step " + "approaches",
      "Build confidence " + "through hands-on " + "practice" ]
  }

  function MockExercises(subject: string, topic: string): seq<Exercise> {
    [ Exercise(
        "What is the " + "main purpose of " + topic + " in " + subject + "?",
        [ "To make things " + "more complicated",
          "To break down " + "complex problems " + "into manageable " + "parts",
          "To avoid using " + "logic",
          "To memorize " + "facts without " + "understanding" ],
        1,
        topic + " helps us break " + "down complex " + "problems into " + "smaller, more " + "manageable parts " + "that we can " + "solve step by " + "step."),
      Exercise(
        "Which approach " + "is most effective " + "when learning " + topic + "?",
        [ "Memorizing without " + "practicing",
          "Skipping the " + "basics",
          "Practicing with " + "real examples " + "and building " + "understanding " + "progressively",
          "Learning everything " + "at once" ],
        2,
        "The most effective " + "approach is " + "to practice " + "with real examples " + "and build understanding " + "progressively, " + "starting with " + "basics."),
      Exercise(
        "How does " + topic + " relate to problem-solving?",
        [ "It makes problems " + "harder to solve",
          "It provides " + "a systematic " + "approach to " + "finding solutions",
          "It's not related " + "to problem-solving",
          "It only works " + "for simple problems" ],
        1,
        topic + " provides a " + "systematic, " + "logical approach " + "to finding solutions " + "by breaking " + "problems down " + "into steps.") ]
  }

  /** The generated exercises: three, with correct answers 1, 2, 1, each among four options. */
  lemma MockExercisesShape(subject: string, topic: string)
    ensures var e := MockExercises(subject, topic);
      && |e| == 3
      && |e[0].options| == 4 && |e[1].options| == 4 && |e[2].options| == 4
      && e[0].correctAnswer == 1 && e[1].correctAnswer == 2 && e[2].correctAnswer == 1
      && Runnable(e)
  {
  }

  /** The generated lesson can be run: it is well formed and its exercises are the ones above. */
  lemma MockLessonShape(subject: string, topic: string)
    ensures MockLesson(subject, topic).exercises == MockExercises(subject, topic)
    ensures WellFormed(MockLesson(subject, topic))
  {
    MockExercisesShape(subject, topic);
  }

  // ---------------------------------------------------------------------------
  // Selected answers: a sparse array indexed by exercise position
  // ---------------------------------------------------------------------------

  /** `selectedAnswers`: `None` is a hole; reading past the end is `undefined` too. */
  type Answers = seq<Option<int>>

  /** `selectedAnswers[i]` as JavaScript reads it. */
  function AnswerAt(answers: Answers, i: nat): Option<int> {
    if i < |answers| then answers[i] else None
  }

  /**
   * `newAnswers[i] = v` on a copy of the array: overwrites position i, or,
   * past the end, grows the array with holes up to i.
   */
  function WithAnswer(answers: Answers, i: nat, v: int): (r: Answers)
    ensures |r| == if i < |answers| then |answers| else i + 1
    ensures AnswerAt(r, i) == Some(v)
    ensures forall j: nat :: j != i ==> AnswerAt(r, j) == AnswerAt(answers, j)
  {
    if i < |answers| then answers[i := Some(v)]
    else answers + seq(i - |answers|, _ => None) + [Some(v)]
  }

  /** A second selection at the same position overwrites the first: the last selection wins. */
  lemma {:induction false} LastSelectionWins(answers: Answers, i: nat, first: int, second: int)
    ensures WithAnswer(WithAnswer(answers, i, first), i, second) == WithAnswer(answers, i, second)
  {
    var a := WithAnswer(WithAnswer(answers, i, first), i, second);
    var b := WithAnswer(answers, i, second);
    assert |a| == |b|;
    forall j | 0 <= j < |a|
      ensures a[j] == b[j]
    {
      assert a[j] == AnswerAt(a, j) && b[j] == AnswerAt(b, j);
    }
  }

  /** Every recorded answer is the index of one of its exercise's options. */
  predicate AnswersInRange(exercises: seq<Exercise>, answers: Answers)
    requires |answers| <= |exercises|
  {
    forall i :: 0 <= i < |answers| && answers[i].Some? ==> 0 <= answers[i].value < |exercises[i].options|
  }

  // ---------------------------------------------------------------------------
  // Scoring
  // ---------------------------------------------------------------------------

  /** `answer === exercise.correctAnswer`; a hole never matches. */
  predicate IsCorrect(e: Exercise, answer: Option<int>) {
    answer == Some(e.correctAnswer)
  }

  /**
   * The number of recorded answers that equal their exercise's correct
   * answer, counting positions 0 .. |answers|-1 in order as `forEach` does.
   */
  function CorrectCount(exercises: seq<Exercise>, answers: Answers): (c: nat)
    requires |answers| <= |exercises|
    ensures c <= |answers|
    ensures c == |answers| <==> forall i :: 0 <= i < |answers| ==> IsCorrect(exercises[i], answers[i])
    ensures c == 0 <==> forall i :: 0 <= i < |answers| ==> !IsCorrect(exercises[i], answers[i])
  {
    if answers == [] then 0
    else
      var k := |answers| - 1;
      CorrectCount(exercises, answers[..k]) + if IsCorrect(exercises[k], answers[k]) then 1 else 0
  }

  /** The positions whose recorded answer is correct. */
  function CorrectPositions(exercises: seq<Exercise>, answers: Answers): set<nat>
    requires |answers| <= |exercises|
  {
    set i: nat | i < |answers| && IsCorrect(exercises[i], answers[i])
  }

  /** Dropping the last answer removes its position from the correct positions, and nothing else. */
  lemma CorrectPositionsStep(exercises: seq<Exercise>, answers: Answers)
    requires answers != [] && |answers| <= |exercises|
    ensures var k := |answers| - 1;
      CorrectPositions(exercises, answers) ==
        CorrectPositions(exercises, answers[..k]) + (if IsCorrect(exercises[k], answers[k]) then {k} else {})
    ensures |answers| - 1 !in CorrectPositions(exercises, answers[..|answers| - 1])
  {
    var k := |answers| - 1;
    assert forall i :: 0 <= i < k ==> answers[..k][i] == answers[i];
  }

  /** The count is the number of positions holding a correct answer. */
  lemma {:induction false} CorrectCountIsPositionCount(exercises: seq<Exercise>, answers: Answers)
    requires |answers| <= |exercises|
    ensures CorrectCount(exercises, answers) == |CorrectPositions(exercises, answers)|
    decreases |answers|
  {
    if answers != [] {
      CorrectPositionsStep(exercises, answers);
      CorrectCountIsPositionCount(exercises, answers[..|answers| - 1]);
    }
  }

  /**
   * The final score, `Math.round((correct / exercises.length) * 100)`: the
   * percentage of correct answers, rounded to the nearest integer with halves
   * going up.
   */
  function Score(l: LessonContent, answers: Answers): (s: int)
    requires |l.exercises| > 0 && |answers| <= |l.exercises|
    ensures 0 <= s <= 100
    ensures var n, c := |l.exercises|, CorrectCount(l.exercises, answers);
      n * (2 * s - 1) <= 200 * c < n * (2 * s + 1)
  {
    var n := |l.exercises|;
    var c := CorrectCount(l.exercises, answers);
    JsMath.RoundDivRange(100 * c, n, 0, 100);
    JsMath.RoundDiv(100 * c, n)
  }

  /** Answering every exercise correctly scores 100. */
  lemma AllCorrectScores100(l: LessonContent, answers: Answers)
    requires |l.exercises| > 0 && |answers| == |l.exercises|
    requires forall i :: 0 <= i < |answers| ==> answers[i] == Some(l.exercises[i].correctAnswer)
    ensures Score(l, answers) == 100
  {
    var n := |l.exercises|;
    assert CorrectCount(l.exercises, answers) == n;
    JsMath.RoundDivUnique(100 * n, n, 100);
  }

  /** When no recorded answer is correct the score is 0. */
  lemma NoneCorrectScores0(l: LessonContent, answers: Answers)
    requires |l.exercises| > 0 && |answers| <= |l.exercises|
    requires forall i :: 0 <= i < |answers| ==> !IsCorrect(l.exercises[i], answers[i])
    ensures Score(l, answers) == 0
  {
    JsMath.RoundDivUnique(0, |l.exercises|, 0);
  }

  /** Two right answers out of three score 67: two thirds, rounded up. */
  lemma TwoOfThreeScores67(l: LessonContent, answers: Answers)
    requires |l.exercises| == 3 && |answers| <= 3
    requires CorrectCount(l.exercises, answers) == 2
    ensures Score(l, answers) == 67
  {
    JsMath.RoundDivUnique(200, 3, 67);
  }

  /** On the generated exercises the answers 1, 2, 0 get the first two right and the third wrong. */
  lemma MockExercisesExampleCount(subject: string, topic: string)
    ensures CorrectCount(MockExercises(subject, topic), [Some(1), Some(2), Some(0)]) == 2
  {
    MockExercisesShape(subject, topic);
    var answers: Answers := [Some(1), Some(2), Some(0)];
    assert answers[..2] == [Some(1), Some(2)] && answers[..2][..1] == [Some(1)];
  }

  /** On the generated lesson, the answers 1, 2, 0 get two of three right and score 67. */
  lemma MockLessonExampleScore(subject: string, topic: string)
    ensures Score(MockLesson(subject, topic), [Some(1), Some(2), Some(0)]) == 67
  {
    MockLessonShape(subject, topic);
    MockExercisesShape(subject, topic);
    MockExercisesExampleCount(subject, topic);
    TwoOfThreeScores67(MockLesson(subject, topic), [Some(1), Some(2), Some(0)]);
  }

  /**
   * `calculateResults`' `forEach`: counts the recorded answers that match
   * their exercise's correct answer, skipping holes.
   */
  method CountCorrect(exercises: seq<Exercise>, answers: Answers) returns (correct: nat)
    requires |answers| <= |exercises|
    ensures correct == CorrectCount(exercises, answers)
  {
    correct := 0;
    var index := 0;
    while index < |answers|
      invariant index <= |answers|
      invariant correct == CorrectCount(exercises, answers[..index])
    {
      assert answers[..index + 1][..index] == answers[..index];
      var answer := answers[index];
      if answer.Some? && answer.value == exercises[index].correctAnswer {
        correct := correct + 1;
      }
      index := index + 1;
    }
    assert answers[..index] == answers;
  }

  // ---------------------------------------------------------------------------
  // Presentation rules
  // ---------------------------------------------------------------------------

  /** The label of the exercise view's button. */
  function NextButtonLabel(currentExercise: nat, exerciseCount: nat): string {
    if currentExercise < exerciseCount - 1 then "Next Question" else "Complete Lesson"
  }

  /** Within a lesson, the button reads "Complete Lesson" exactly on the last exercise. */
  lemma CompleteLabelOnLastExercise(currentExercise: nat, exerciseCount: nat)
    requires currentExercise < exerciseCount
    ensures NextButtonLabel(currentExercise, exerciseCount) == "Complete Lesson" <==> currentExercise == exerciseCount - 1
    ensures NextButtonLabel(currentExercise, exerciseCount) == "Next Question" <==> currentExercise < exerciseCount - 1
  {
  }

  /** The background of one option in the review: green, red, or neutral grey. */
  datatype Mark = CorrectMark | WrongMark | Neutral

  /** The review colour of option `optionIndex` when `selected` was recorded for the exercise. */
  function ReviewMark(e: Exercise, selected: Option<int>, optionIndex: int): Mark {
    if optionIndex == e.correctAnswer then CorrectMark
    else if selected == Some(optionIndex) then WrongMark
    else Neutral
  }

  /** The check icon beside an option. */
  function ShowsCheckIcon(e: Exercise, optionIndex: int): bool {
    optionIndex == e.correctAnswer
  }

  /** The cross icon beside an option. */
  function ShowsCrossIcon(e: Exercise, selected: Option<int>, optionIndex: int): bool {
    selected == Some(optionIndex) && optionIndex != e.correctAnswer
  }

  /** The results header shows the check (pass) icon rather than the cross. */
  function ShowsPassIcon(score: int): bool {
    score >= 70
  }

  /**
   * The review colouring: the correct option is green even when it was the
   * one selected, a selected wrong option is red, every other option is
   * neutral; and the icons agree with the colours.
   */
  lemma ReviewMarkRule(e: Exercise, selected: Option<int>, optionIndex: int)
    ensures ReviewMark(e, selected, optionIndex) == CorrectMark <==> optionIndex == e.correctAnswer
    ensures ReviewMark(e, selected, optionIndex) == WrongMark <==> selected == Some(optionIndex) && optionIndex != e.correctAnswer
    ensures ReviewMark(e, selected, optionIndex) == Neutral <==> optionIndex != e.correctAnswer && selected != Some(optionIndex)
    ensures ShowsCheckIcon(e, optionIndex) <==> ReviewMark(e, selected, optionIndex) == CorrectMark
    ensures ShowsCrossIcon(e, selected, optionIndex) <==> ReviewMark(e, selected, optionIndex) == WrongMark
  {
  }

  /**
   * The review of an exercise shows a red option exactly when the learner
   * answered it and the answer is not the correct one, i.e. exactly when the
   * position did not add to the score.
   */
  lemma {:induction false} ReviewShowsMistake(e: Exercise, selected: Option<int>)
    requires ValidExercise(e)
    requires selected.Some? ==> 0 <= selected.value < |e.options|
    ensures (exists o :: 0 <= o < |e.options| && ReviewMark(e, selected, o) == WrongMark)
        <==> selected.Some? && !IsCorrect(e, selected)
    ensures exists o :: 0 <= o < |e.options| && ReviewMark(e, selected, o) == CorrectMark
  {
    assert ReviewMark(e, selected, e.correctAnswer) == CorrectMark;
    if selected.Some? && !IsCorrect(e, selected) {
      assert ReviewMark(e, selected, selected.value) == WrongMark;
    }
  }

  /** With three exercises the pass icon needs every answer right: two of three is 67. */
  lemma {:induction false} PassOnThreeNeedsAllCorrect(l: LessonContent, answers: Answers)
    requires |l.exercises| == 3 && |answers| <= 3
    ensures ShowsPassIcon(Score(l, answers)) <==> CorrectCount(l.exercises, answers) == 3
  {
    var c := CorrectCount(l.exercises, answers);
    JsMath.RoundDivUnique(100 * c, 3, [0, 33, 67, 100][c]);
  }

  /** Which view the component renders: the chain of `if`s ahead of `return null`. */
  datatype Screen = GenerateScreen | LoadingScreen | LearnScreen | ExerciseScreen | ResultsScreen | Nothing

  function ScreenFor(step: Step, lesson: Option<LessonContent>, showResults: bool, loading: bool): Screen {
    if step == GenerateStep then GenerateScreen
    else if loading then LoadingScreen
    else if step == LearnStep && lesson.Some? then LearnScreen
    else if step == ExerciseStep && lesson.Some? && !showResults then ExerciseScreen
    else if step == CompleteStep && lesson.Some? && showResults then ResultsScreen
    else Nothing
  }

  // ---------------------------------------------------------------------------
  // The session state
  // ---------------------------------------------------------------------------

  /** The state of one `AILessonGenerator` component and its event handlers. */
  class LessonSession {
    const subject: string
    const topic: string
    var step: Step
    var lesson: Option<LessonContent>
    var currentExercise: nat
    var selectedAnswers: Answers
    var showResults: bool
    var score: int

    /** The states the handlers can reach. */
    ghost predicate Valid()
      reads this
    {
      && (step == GenerateStep <==> lesson.None?)
      && (lesson.None? ==> currentExercise == 0 && selectedAnswers == [])
      && (lesson.Some? ==>
            && WellFormed(lesson.value)
            && currentExercise < |lesson.value.exercises|
            && |selectedAnswers| <= |lesson.value.exercises|
            && AnswersInRange(lesson.value.exercises, selectedAnswers))
      && (showResults <==> step == CompleteStep)
      && 0 <= score <= 100
      && (step == CompleteStep ==> score == Score(lesson.value, selectedAnswers))
    }

    /** The component's initial state. */
    constructor (subject: string, topic: string)
      ensures Valid()
      ensures this.subject == subject && this.topic == topic
      ensures step == GenerateStep && lesson == None && currentExercise == 0
      ensures selectedAnswers == [] && !showResults && score == 0
    {
      this.subject := subject;
      this.topic := topic;
      step := GenerateStep;
      lesson := None;
      currentExercise := 0;
      selectedAnswers := [];
      showResults := false;
      score := 0;
    }

    /** The view rendered in a reachable state: never `null`, and always the current step's own view. */
    function CurrentScreen(): (s: Screen)
      reads this
      requires Valid()
      ensures s != Nothing && s != LoadingScreen
      ensures s == match step
        case GenerateStep => GenerateScreen
        case LearnStep => LearnScreen
        case ExerciseStep => ExerciseScreen
        case CompleteStep => ResultsScreen
    {
      ScreenFor(step, lesson, showResults, false)
    }

    /**
     * `generateLesson`, offered on the generate view. `succeeded` is the
     * outcome of the awaited generation: on success the generated lesson is
     * stored and the learner moves on to it; on failure nothing changes.
     */
    method GenerateLesson(succeeded: bool)
      requires Valid() && step == GenerateStep
      modifies this
      ensures Valid()
      ensures succeeded ==> lesson == Some(MockLesson(subject, topic)) && step == LearnStep
      ensures !succeeded ==> lesson == old(lesson) && step == old(step)
      ensures currentExercise == old(currentExercise) && selectedAnswers == old(selectedAnswers)
      ensures showResults == old(showResults) && score == old(score)
    {
      if succeeded {
        MockLessonShape(subject, topic);
        lesson := Some(MockLesson(subject, topic));
        step := LearnStep;
      }
    }

    /** `startExercises`: the first exercise, no answers yet, whatever came before. */
    method StartExercises()
      requires Valid() && lesson.Some?
      modifies this
      ensures Valid()
      ensures step == ExerciseStep && currentExercise == 0 && selectedAnswers == [] && !showResults
      ensures lesson == old(lesson) && score == old(score)
    {
      step := ExerciseStep;
      currentExercise := 0;
      selectedAnswers := [];
      showResults := false;
    }

    /**
     * `handleAnswerSelect`: records `answerIndex` at the current position
     * only. The radio group offers only the current exercise's options.
     */
    method HandleAnswerSelect(answerIndex: int)
      requires Valid() && step == ExerciseStep
      requires 0 <= answerIndex < |lesson.value.exercises[currentExercise].options|
      modifies this
      ensures Valid()
      ensures selectedAnswers == WithAnswer(old(selectedAnswers), old(currentExercise), answerIndex)
      ensures AnswerAt(selectedAnswers, currentExercise) == Some(answerIndex)
      ensures forall j: nat :: j != currentExercise ==> AnswerAt(selectedAnswers, j) == AnswerAt(old(selectedAnswers), j)
      ensures step == old(step) && lesson == old(lesson) && currentExercise == old(currentExercise)
      ensures showResults == old(showResults) && score == old(score)
    {
      selectedAnswers := WithAnswer(selectedAnswers, currentExercise, answerIndex);
    }

    /**
     * `nextExercise`, whose button is enabled only once the current position
     * has an answer: the next exercise, or on the last one the results.
     */
    method NextExercise()
      requires Valid() && step == ExerciseStep
      requires AnswerAt(selectedAnswers, currentExercise).Some?
      modifies this
      ensures Valid()
      ensures lesson == old(lesson) && selectedAnswers == old(selectedAnswers)
      ensures old(currentExercise) < |lesson.value.exercises| - 1 ==>
        && currentExercise == old(currentExercise) + 1
        && step == ExerciseStep && !showResults && score == old(score)
      ensures old(currentExercise) == |lesson.value.exercises| - 1 ==>
        && currentExercise == old(currentExercise)
        && step == CompleteStep && showResults
        && score == Score(lesson.value, selectedAnswers)
      ensures step == CompleteStep <==>
        NextButtonLabel(old(currentExercise), |lesson.value.exercises|) == "Complete Lesson"
    {
      if currentExercise < |lesson.value.exercises| - 1 {
        currentExercise := currentExercise + 1;
      } else {
        CalculateResults();
      }
    }

    /** `calculateResults`: scores the answers and shows the results; without a lesson it does nothing. */
    method CalculateResults()
      requires Valid()
      modifies this
      ensures Valid()
      ensures lesson == old(lesson) && currentExercise == old(currentExercise)
      ensures selectedAnswers == old(selectedAnswers)
      ensures old(lesson).None? ==> step == old(step) && showResults == old(showResults) && score == old(score)
      ensures old(lesson).Some? ==>
        step == CompleteStep && showResults && score == Score(lesson.value, selectedAnswers)
    {
      if lesson.None? {
        return;
      }
      var correct := CountCorrect(lesson.value.exercises, selectedAnswers);
      score := JsMath.RoundDiv(100 * correct, |lesson.value.exercises|);
      assert score == Score(lesson.value, selectedAnswers);
      showResults := true;
      step := CompleteStep;
    }

    /** `resetLesson`: from any state back to the initial one, with no lesson and no answers. */
    method ResetLesson()
      modifies this
      ensures Valid()
      ensures step == GenerateStep && lesson == None && currentExercise == 0
      ensures selectedAnswers == [] && !showResults && score == 0
    {
      lesson := None;
      step := GenerateStep;
      currentExercise := 0;
      selectedAnswers := [];
      showResults := false;
      score := 0;
    }
  }
}
