/**
 * The onboarding learning-style assessment: five fixed questions, each with
 * one option per learning style. The learner picks one option text per
 * question; after the last one every chosen text is mapped back to its
 * style, the styles are tallied, and the style with the highest count is
 * reported, a tie going to the later of visual, auditory, kinesthetic.
 *
 * The tally loop is the method `CountStyles`; the component's state, which
 * its handlers overwrite, is the class `Quiz`.
 */
module LearningStyleQuiz {
  import opened Wrappers

  // ---------------------------------------------------------------------------
  // The question table
  // ---------------------------------------------------------------------------

  datatype Style = Visual | Auditory | Kinesthetic

  datatype QuizOption = QuizOption(text: string, style: Style)

  datatype Question = Question(id: int, question: string, options: seq<QuizOption>)

  /**
   * The fixed questions. The literals are split into short pieces, which
   * keeps the verifier's work on them small; each concatenation is the
   * component's text.
   */
  const Questions: seq<Question> := [
    Question(1, "When learning " + "something new, " + "I prefer to:", [
      QuizOption("See diagrams, " + "charts, or visual " + "examples", Visual),
      QuizOption("Listen to explanations " + "or discussions", Auditory),
      QuizOption("Try it hands-on " + "or practice " + "immediately", Kinesthetic)]),
    Question(2, "When I need " + "to remember " + "information, I:", [
      QuizOption("Create mental " + "pictures or " + "write notes", Visual),
      QuizOption("Repeat it out " + "loud or discuss it", Auditory),
      QuizOption("Associate it " + "with physical " + "movements or " + "actions", Kinesthetic)]),
    Question(3, "In a classroom, " + "I learn best " + "when:", [
      QuizOption("The teacher " + "uses slides, " + "boards, or visual " + "aids", Visual),
      QuizOption("The teacher " + "explains concepts " + "verbally", Auditory),
      QuizOption("There are interactive " + "activities or " + "experiments", Kinesthetic)]),
    Question(4, "When solving " + "problems, I " + "tend to:", [
      QuizOption("Draw diagrams " + "or make lists", Visual),
      QuizOption("Talk through " + "the problem", Auditory),
      QuizOption("Try different " + "approaches physically", Kinesthetic)]),
    Question(5, "I concentrate " + "best when:", [
      QuizOption("My workspace " + "is organized " + "and visually " + "clean", Visual),
      QuizOption("There's background " + "music or I can " + "discuss ideas", Auditory),
      QuizOption("I can move around " + "or fidget while " + "thinking", Kinesthetic)])
  ]

  /** `q.options.some(opt => opt.text === text)`. */
  predicate HasOption(q: Question, text: string) {
    exists j :: 0 <= j < |q.options| && q.options[j].text == text
  }

  /** `options.find(opt => opt.text === text)`: the first option with that text. */
  function FindOption(options: seq<QuizOption>, text: string): (r: Option<QuizOption>)
    ensures r.None? <==> forall j :: 0 <= j < |options| ==> options[j].text != text
    ensures r.Some? ==>
      exists j :: 0 <= j < |options| && options[j] == r.value && r.value.text == text &&
        forall k :: 0 <= k < j ==> options[k].text != text
  {
    if options == [] then None
    else if options[0].text == text then Some(options[0])
    else
      var r := FindOption(options[1..], text);
      assert forall j :: 1 <= j < |options| ==> options[1..][j - 1] == options[j];
      r
  }

  /** `questions.find(q => q.options.some(...))`: the first question offering that text. */
  function FindQuestion(questions: seq<Question>, text: string): (r: Option<Question>)
    ensures r.None? <==> forall i :: 0 <= i < |questions| ==> !HasOption(questions[i], text)
    ensures r.Some? ==>
      exists i :: 0 <= i < |questions| && questions[i] == r.value && HasOption(r.value, text) &&
        forall k :: 0 <= k < i ==> !HasOption(questions[k], text)
  {
    if questions == [] then None
    else if HasOption(questions[0], text) then Some(questions[0])
    else
      var r := FindQuestion(questions[1..], text);
      assert forall i :: 1 <= i < |questions| ==> questions[1..][i - 1] == questions[i];
      r
  }

  /**
   * The option an answer text is mapped back to in a question table, or
   * `None` (`undefined`) when no question offers it: the first option with
   * that text in the first question offering it.
   */
  function LookupOption(table: seq<Question>, text: string): (r: Option<QuizOption>)
    ensures r.None? <==> forall i :: 0 <= i < |table| ==> !HasOption(table[i], text)
    ensures r.Some? ==> r.value.text == text
    ensures r.Some? ==> exists i :: 0 <= i < |table| && r.value in table[i].options
    ensures r.Some? ==> exists i :: FirstOffering(table, text, i) && FirstWithText(table[i].options, text, r.value)
  {
    match FindQuestion(table, text)
    case None => None
    case Some(q) => FindOption(q.options, text)
  }

  /** Question i is the first of the table that offers the text. */
  predicate FirstOffering(table: seq<Question>, text: string, i: int) {
    0 <= i < |table| && HasOption(table[i], text) && forall k :: 0 <= k < i ==> !HasOption(table[k], text)
  }

  /** o is the first option with the text. */
  predicate FirstWithText(options: seq<QuizOption>, text: string, o: QuizOption) {
    exists j :: 0 <= j < |options| && options[j] == o && o.text == text &&
      forall m :: 0 <= m < j ==> options[m].text != text
  }

  /** No two options of the table, in the same question or not, share a text. */
  predicate DistinctTexts(table: seq<Question>) {
    forall i, j, k, l ::
      0 <= i < |table| && 0 <= j < |table[i].options| && 0 <= k < |table| && 0 <= l < |table[k].options|
      && (i, j) != (k, l)
      ==> table[i].options[j].text != table[k].options[l].text
  }

  /** With distinct texts, only question i offers the text of its option j. */
  lemma {:induction false} DistinctTextsOneQuestion(table: seq<Question>, i: int, j: int, k: int)
    requires DistinctTexts(table)
    requires 0 <= i < |table| && 0 <= j < |table[i].options| && 0 <= k < |table|
    requires HasOption(table[k], table[i].options[j].text)
    ensures k == i
  {
    var l :| 0 <= l < |table[k].options| && table[k].options[l].text == table[i].options[j].text;
  }

  /** With distinct texts, every option's text maps back to that very option, and so to its style. */
  lemma {:induction false} DistinctTextsLookUpTheirOption(table: seq<Question>, i: int, j: int)
    requires DistinctTexts(table)
    requires 0 <= i < |table| && 0 <= j < |table[i].options|
    ensures LookupOption(table, table[i].options[j].text) == Some(table[i].options[j])
  {
    var text := table[i].options[j].text;
    assert HasOption(table[i], text);
    var found := FindQuestion(table, text);
    var i' :| 0 <= i' < |table| && table[i'] == found.value && HasOption(found.value, text);
    DistinctTextsOneQuestion(table, i, j, i');
    var option := FindOption(table[i].options, text);
    var j' :| 0 <= j' < |table[i].options| && table[i].options[j'] == option.value && option.value.text == text;
    assert (i, j') == (i, j);
  }

  // ---------------------------------------------------------------------------
  // The tally and the dominant style
  // ---------------------------------------------------------------------------

  /** The `styles` counter object. */
  datatype Tally = Tally(visual: nat, auditory: nat, kinesthetic: nat) {

    /** `styles[s]`. */
    function Count(s: Style): nat {
      match s
      case Visual => visual
      case Auditory => auditory
      case Kinesthetic => kinesthetic
    }

    /** `styles[s]++`: that counter goes up by one, the others stay. */
    function Increment(s: Style): (t: Tally)
      ensures t.Count(s) == Count(s) + 1
      ensures forall o :: o != s ==> t.Count(o) == Count(o)
      ensures t.Total() == Total() + 1
    {
      match s
      case Visual => this.(visual := visual + 1)
      case Auditory => this.(auditory := auditory + 1)
      case Kinesthetic => this.(kinesthetic := kinesthetic + 1)
    }

    function Total(): nat {
      visual + auditory + kinesthetic
    }
  }

  /** The tally of the answers, each adding one to the counter of the style its text maps back to. */
  function StyleTally(table: seq<Question>, answers: seq<string>): (t: Tally)
    ensures t.Total() <= |answers|
  {
    if answers == [] then Tally(0, 0, 0)
    else
      var k := |answers| - 1;
      var prev := StyleTally(table, answers[..k]);
      match LookupOption(table, answers[k])
      case Some(option) => prev.Increment(option.style)
      case None => prev
  }

  /** The `forEach` over the answers that fills the counter object. */
  method CountStyles(table: seq<Question>, answers: seq<string>) returns (styles: Tally)
    ensures styles == StyleTally(table, answers)
  {
    styles := Tally(0, 0, 0);
    var index := 0;
    while index < |answers|
      invariant index <= |answers|
      invariant styles == StyleTally(table, answers[..index])
    {
      assert answers[..index + 1][..index] == answers[..index];
      var option := LookupOption(table, answers[index]);
      if option.Some? {
        styles := styles.Increment(option.value.style);
      }
      index := index + 1;
    }
    assert answers[..index] == answers;
  }

  /** The `reduce` callback on two entries of the counter object: the first only if it counts strictly more. */
  function Pick(t: Tally, a: Style, b: Style): Style {
    if t.Count(a) > t.Count(b) then a else b
  }

  /**
   * The style passed to `onComplete`: `Object.entries(styles).reduce(...)`
   * over the entries in the order visual, auditory, kinesthetic. It counts at
   * least as much as each other style, and a style later in that order counts
   * strictly less, so a tie goes to the later style.
   */
  function DominantStyle(t: Tally): (s: Style)
    ensures forall o :: t.Count(o) <= t.Count(s)
    ensures s == Visual ==> t.auditory < t.visual && t.kinesthetic < t.visual
    ensures s == Auditory ==> t.kinesthetic < t.auditory
  {
    Pick(t, Pick(t, Visual, Auditory), Kinesthetic)
  }

  /** The two properties of `DominantStyle` determine it: no other style has both. */
  lemma DominantStyleIsUnique(t: Tally, s: Style)
    requires forall o :: t.Count(o) <= t.Count(s)
    requires s == Visual ==> t.auditory < t.visual && t.kinesthetic < t.visual
    requires s == Auditory ==> t.kinesthetic < t.auditory
    ensures DominantStyle(t) == s
  {
  }

  /** All counters equal, as with no answers at all: kinesthetic. */
  lemma EqualCountsGiveKinesthetic(t: Tally)
    requires t.visual == t.auditory == t.kinesthetic
    ensures DominantStyle(t) == Kinesthetic
  {
  }

  /** Visual and auditory tied above kinesthetic: auditory, the later of the two. */
  lemma VisualAuditoryTieGivesAuditory(t: Tally)
    requires t.visual == t.auditory && t.kinesthetic < t.auditory
    ensures DominantStyle(t) == Auditory
  {
  }

  // ---------------------------------------------------------------------------
  // The answers, mapped back to the table
  // ---------------------------------------------------------------------------

  /** A text offered anywhere in the table maps back to some option. */
  lemma TableOptionIsFound(table: seq<Question>, i: int, text: string)
    requires 0 <= i < |table| && HasOption(table[i], text)
    ensures LookupOption(table, text).Some?
  {
  }

  /** When every answer is a table text, every answer adds one: the counts sum to the number of answers. */
  lemma {:induction false} TallyCountsEveryAnswer(table: seq<Question>, answers: seq<string>)
    requires forall k :: 0 <= k < |answers| ==> LookupOption(table, answers[k]).Some?
    ensures StyleTally(table, answers).Total() == |answers|
  {
    if answers != [] {
      var k := |answers| - 1;
      var front := answers[..k];
      assert forall m :: 0 <= m < k ==> front[m] == answers[m];
      TallyCountsEveryAnswer(table, front);
      var option := LookupOption(table, answers[k]);
      assert option.Some?;
      assert StyleTally(table, answers) == StyleTally(table, front).Increment(option.value.style);
    }
  }

  /** `text` maps back to an option of style `s`. */
  predicate MapsToStyle(table: seq<Question>, text: string, s: Style) {
    match LookupOption(table, text)
    case Some(option) => option.style == s
    case None => false
  }

  /** When every answer maps back to a kinesthetic option, only the kinesthetic counter moves. */
  lemma {:induction false} AllKinestheticTally(table: seq<Question>, answers: seq<string>)
    requires forall k :: 0 <= k < |answers| ==> MapsToStyle(table, answers[k], Kinesthetic)
    ensures StyleTally(table, answers) == Tally(0, 0, |answers|)
  {
    if answers != [] {
      var k := |answers| - 1;
      var front := answers[..k];
      assert forall m :: 0 <= m < k ==> front[m] == answers[m];
      AllKinestheticTally(table, front);
      TallyStepStyle(table, answers, Kinesthetic);
    }
  }

  /** An answer that maps back to style `s` adds one to the counter of `s`. */
  lemma TallyStepStyle(table: seq<Question>, answers: seq<string>, s: Style)
    requires answers != [] && MapsToStyle(table, answers[|answers| - 1], s)
    ensures StyleTally(table, answers) == StyleTally(table, answers[..|answers| - 1]).Increment(s)
  {
  }

  /** When every answer maps back to a kinesthetic option, the result is kinesthetic. */
  lemma AllKinestheticGivesKinesthetic(table: seq<Question>, answers: seq<string>)
    requires forall k :: 0 <= k < |answers| ==> MapsToStyle(table, answers[k], Kinesthetic)
    ensures DominantStyle(StyleTally(table, answers)) == Kinesthetic
  {
    AllKinestheticTally(table, answers);
  }

  /** The fixed table: five questions, each offering a visual, an auditory and a kinesthetic option in that order. */
  lemma QuestionsShape()
    ensures |Questions| == 5
    ensures forall i :: 0 <= i < 5 ==>
      && |Questions[i].options| == 3
      && Questions[i].options[0].style == Visual
      && Questions[i].options[1].style == Auditory
      && Questions[i].options[2].style == Kinesthetic
  {
  }

  /**
   * Where a text sits in the fixed table, read off its characters at
   * positions 0 and 13, which differ for any two of its option texts.
   */
  function TablePosition(text: string): Option<(int, int)> {
    if |text| <= 13 then None
    else
      match (text[0], text[13])
      case ('S', ' ') => Some((0, 0))
      case ('L', 'l') => Some((0, 1))
      case ('T', 'o') => Some((0, 2))
      case ('C', ' ') => Some((1, 0))
      case ('R', ' ') => Some((1, 1))
      case ('A', 'w') => Some((1, 2))
      case ('T', 's') => Some((2, 0))
      case ('T', 'x') => Some((2, 1))
      case ('T', 'e') => Some((2, 2))
      case ('D', ' ') => Some((3, 0))
      case ('T', 't') => Some((3, 1))
      case ('T', ' ') => Some((3, 2))
      case ('M', 'i') => Some((4, 0))
      case ('T', 'r') => Some((4, 1))
      case ('I', 'o') => Some((4, 2))
      case _ => None
  }

  /** Option j of question i sits at position (i, j); checked option by option. */
  lemma OptionPosition(i: int, j: int)
    requires 0 <= i < |Questions| && 0 <= j < |Questions[i].options|
    ensures TablePosition(Questions[i].options[j].text) == Some((i, j))
  {
    if j == 0 {
      if i == 0 {} else if i == 1 {} else if i == 2 {} else if i == 3 {} else {}
    } else if j == 1 {
      if i == 0 {} else if i == 1 {} else if i == 2 {} else if i == 3 {} else {}
    } else {
      if i == 0 {} else if i == 1 {} else if i == 2 {} else if i == 3 {} else {}
    }
  }

  /** Question i of the fixed table offers a visual, an auditory and a kinesthetic option, in that order. */
  lemma QuestionStyles(i: int)
    requires 0 <= i < |Questions|
    ensures |Questions[i].options| == 3
    ensures Questions[i].options[0].style == Visual
    ensures Questions[i].options[1].style == Auditory
    ensures Questions[i].options[2].style == Kinesthetic
  {
    QuestionsShape();
  }

  /** The fixed table's option texts are pairwise distinct. */
  lemma QuestionsHaveDistinctTexts()
    ensures DistinctTexts(Questions)
  {
    forall i, j | 0 <= i < |Questions| && 0 <= j < |Questions[i].options|
      ensures TablePosition(Questions[i].options[j].text) == Some((i, j))
    {
      OptionPosition(i, j);
    }
  }

  /** On the fixed table, the text of option j of question i maps back to that option. */
  lemma FixedTableLookup(i: int, j: int)
    requires 0 <= i < |Questions| && 0 <= j < |Questions[i].options|
    ensures LookupOption(Questions, Questions[i].options[j].text) == Some(Questions[i].options[j])
  {
    QuestionsHaveDistinctTexts();
    DistinctTextsLookUpTheirOption(Questions, i, j);
  }

  /** On the fixed table, an answer that is the text of option j of question i adds one to that option's style only. */
  lemma TableAnswerIncrementsItsStyle(answers: seq<string>, i: int, j: int)
    requires 0 <= i < |Questions| && 0 <= j < |Questions[i].options|
    ensures StyleTally(Questions, answers + [Questions[i].options[j].text])
      == StyleTally(Questions, answers).Increment(Questions[i].options[j].style)
  {
    FixedTableLookup(i, j);
    var extended := answers + [Questions[i].options[j].text];
    assert extended[..|answers|] == answers;
  }

  /** On the fixed table, choosing the kinesthetic option of every question gives kinesthetic. */
  lemma KinestheticOptionsGiveKinesthetic()
    ensures var answers := seq(|Questions|, k requires 0 <= k < |Questions| => Questions[k].options[2].text);
      DominantStyle(StyleTally(Questions, answers)) == Kinesthetic
  {
    var answers := seq(|Questions|, k requires 0 <= k < |Questions| => Questions[k].options[2].text);
    forall k | 0 <= k < |answers|
      ensures MapsToStyle(Questions, answers[k], Kinesthetic)
    {
      QuestionStyles(k);
      FixedTableLookup(k, 2);
    }
    AllKinestheticGivesKinesthetic(Questions, answers);
  }

  // ---------------------------------------------------------------------------
  // The quiz state
  // ---------------------------------------------------------------------------

  /** The label of the quiz's button. */
  function NextButtonLabel(currentQuestion: nat, questionCount: nat): string {
    if currentQuestion < questionCount - 1 then "Next Question" else "Complete Assessment"
  }

  /** Within the table, the button reads "Complete Assessment" exactly on the last question. */
  lemma CompleteLabelOnLastQuestion(currentQuestion: nat, questionCount: nat)
    requires currentQuestion < questionCount
    ensures NextButtonLabel(currentQuestion, questionCount) == "Complete Assessment" <==> currentQuestion == questionCount - 1
    ensures NextButtonLabel(currentQuestion, questionCount) == "Next Question" <==> currentQuestion < questionCount - 1
  {
  }

  /** The question an answer at position k was given for: k, or the last question once the assessment is complete. */
  function AnsweredQuestion(k: nat, questionCount: nat): nat
    requires questionCount > 0
  {
    if k < questionCount then k else questionCount - 1
  }

  /** The answer at position k was an option of the question it was given for. */
  ghost predicate AnswersOffered(questions: seq<Question>, answers: seq<string>)
    requires |questions| > 0
  {
    forall k :: 0 <= k < |answers| ==> HasOption(questions[AnsweredQuestion(k, |questions|)], answers[k])
  }

  /** The c-th `onComplete` call reported the dominant style of the first |questions| + c answers. */
  ghost predicate CompletionsReported(questions: seq<Question>, answers: seq<string>, completions: seq<Style>)
    requires completions == [] || |questions| + |completions| <= |answers| + 1
  {
    forall c :: 0 <= c < |completions| ==>
      completions[c] == DominantStyle(StyleTally(questions, answers[..|questions| + c]))
  }

  /**
   * The states the quiz's handlers can reach: the answers came from their
   * questions, `onComplete` is only ever called on the last question, and
   * each call reported the dominant style of the answers given until then.
   */
  ghost predicate Reachable(questions: seq<Question>, currentQuestion: nat, answers: seq<string>,
                            selectedAnswer: string, completions: seq<Style>)
  {
    && |questions| > 0
    && currentQuestion < |questions|
    && |answers| == currentQuestion + |completions|
    && (completions != [] ==> currentQuestion == |questions| - 1)
    && (selectedAnswer == "" || HasOption(questions[currentQuestion], selectedAnswer))
    && AnswersOffered(questions, answers)
    && CompletionsReported(questions, answers, completions)
  }

  /** Appending an option of the question being answered keeps the answers offered. */
  lemma AppendOfferedAnswer(questions: seq<Question>, answers: seq<string>, text: string)
    requires |questions| > 0 && AnswersOffered(questions, answers)
    requires HasOption(questions[AnsweredQuestion(|answers|, |questions|)], text)
    ensures AnswersOffered(questions, answers + [text])
  {
    AppendKeepsPrefixes(answers, text);
  }

  /** Reporting the dominant style of all the answers after the last one is appended keeps the reports right. */
  lemma AppendReport(questions: seq<Question>, answers: seq<string>, text: string, completions: seq<Style>)
    requires |questions| + |completions| == |answers| + 1
    requires CompletionsReported(questions, answers, completions)
    ensures var newAnswers := answers + [text];
      CompletionsReported(questions, newAnswers, completions + [DominantStyle(StyleTally(questions, newAnswers))])
  {
    var newAnswers := answers + [text];
    var newCompletions := completions + [DominantStyle(StyleTally(questions, newAnswers))];
    forall c | 0 <= c < |newCompletions|
      ensures newCompletions[c] == DominantStyle(StyleTally(questions, newAnswers[..|questions| + c]))
    {
      if c < |completions| {
        assert newAnswers[..|questions| + c] == answers[..|questions| + c];
        assert newCompletions[c] == completions[c];
      } else {
        assert newAnswers[..|questions| + c] == newAnswers;
      }
    }
  }

  /** Answering a question before the last one and moving on keeps the state reachable. */
  lemma AdvanceKeepsReachable(questions: seq<Question>, currentQuestion: nat, answers: seq<string>,
                              selectedAnswer: string, completions: seq<Style>)
    requires Reachable(questions, currentQuestion, answers, selectedAnswer, completions)
    requires selectedAnswer != "" && currentQuestion < |questions| - 1
    ensures Reachable(questions, currentQuestion + 1, answers + [selectedAnswer], "", completions)
  {
    AppendOfferedAnswer(questions, answers, selectedAnswer);
  }

  /** Answering the last question and reporting the dominant style keeps the state reachable. */
  lemma CompleteKeepsReachable(questions: seq<Question>, currentQuestion: nat, answers: seq<string>,
                               selectedAnswer: string, completions: seq<Style>)
    requires Reachable(questions, currentQuestion, answers, selectedAnswer, completions)
    requires selectedAnswer != "" && currentQuestion == |questions| - 1
    ensures var newAnswers := answers + [selectedAnswer];
      Reachable(questions, currentQuestion, newAnswers, selectedAnswer,
                completions + [DominantStyle(StyleTally(questions, newAnswers))])
  {
    AppendOfferedAnswer(questions, answers, selectedAnswer);
    AppendReport(questions, answers, selectedAnswer, completions);
  }

  /** Appending leaves every element and every prefix of the old sequence in place. */
  lemma AppendKeepsPrefixes(s: seq<string>, x: string)
    ensures forall k :: 0 <= k < |s| ==> (s + [x])[k] == s[k]
    ensures forall m :: 0 <= m <= |s| ==> (s + [x])[..m] == s[..m]
  {
  }

  /** The state of one `LearningStyleQuiz` component and its handlers. */
  class Quiz {
    /** The question table the component renders: `Questions`. */
    const questions: seq<Question>
    var currentQuestion: nat
    var answers: seq<string>
    var selectedAnswer: string
    /** The arguments `onComplete` has been called with, in order. */
    var completions: seq<Style>

    ghost predicate Valid()
      reads this
    {
      Reachable(questions, currentQuestion, answers, selectedAnswer, completions)
    }

    /** The component's initial state: the first question, nothing chosen. */
    constructor()
      ensures Valid()
      ensures questions == Questions
      ensures currentQuestion == 0 && answers == [] && selectedAnswer == "" && completions == []
    {
      questions := Questions;
      currentQuestion := 0;
      answers := [];
      selectedAnswer := "";
      completions := [];
    }

    /** The radio group's `onValueChange`: it offers the current question's option texts. */
    method SelectAnswer(text: string)
      requires Valid() && HasOption(questions[currentQuestion], text)
      modifies this
      ensures Valid()
      ensures selectedAnswer == text
      ensures currentQuestion == old(currentQuestion) && answers == old(answers) && completions == old(completions)
    {
      selectedAnswer := text;
    }

    /**
     * `handleNext`: without a selection nothing happens. Otherwise the
     * selection is appended; before the last question the quiz moves on
     * with the selection cleared, and on the last one the dominant style of
     * all the answers is passed to `onComplete`, the selection staying.
     */
    method HandleNext()
      requires Valid()
      modifies this
      ensures Valid()
      ensures old(selectedAnswer) == "" ==>
        && currentQuestion == old(currentQuestion) && answers == old(answers)
        && selectedAnswer == old(selectedAnswer) && completions == old(completions)
      ensures old(selectedAnswer) != "" ==> answers == old(answers) + [old(selectedAnswer)]
      ensures old(selectedAnswer) != "" && old(currentQuestion) < |questions| - 1 ==>
        && currentQuestion == old(currentQuestion) + 1 && selectedAnswer == ""
        && completions == old(completions)
      ensures old(selectedAnswer) != "" && old(currentQuestion) == |questions| - 1 ==>
        && currentQuestion == old(currentQuestion) && selectedAnswer == old(selectedAnswer)
        && completions == old(completions) + [DominantStyle(StyleTally(questions, answers))]
      ensures old(selectedAnswer) != "" ==>
        (|completions| > |old(completions)| <==>
          NextButtonLabel(old(currentQuestion), |questions|) == "Complete Assessment")
    {
      if selectedAnswer != "" {
        var newAnswers := answers + [selectedAnswer];
        if currentQuestion < |questions| - 1 {
          AdvanceKeepsReachable(questions, currentQuestion, answers, selectedAnswer, completions);
          answers := newAnswers;
          currentQuestion := currentQuestion + 1;
          selectedAnswer := "";
        } else {
          CompleteKeepsReachable(questions, currentQuestion, answers, selectedAnswer, completions);
          var styles := CountStyles(questions, newAnswers);
          answers := newAnswers;
          completions := completions + [DominantStyle(styles)];
        }
      }
    }
  }

  /**
   * The first `onComplete` call comes after exactly one answer per question,
   * each of which adds one to the tally: the counts sum to the number of
   * questions, five for the fixed table.
   */
  lemma FirstCompletionCountsEveryAnswer(quiz: Quiz)
    requires quiz.Valid() && quiz.completions != []
    ensures StyleTally(quiz.questions, quiz.answers[..|quiz.questions|]).Total() == |quiz.questions|
    ensures quiz.questions == Questions ==> StyleTally(quiz.questions, quiz.answers[..|quiz.questions|]).Total() == 5
  {
    var first := quiz.answers[..|quiz.questions|];
    forall k | 0 <= k < |first|
      ensures LookupOption(quiz.questions, first[k]).Some?
    {
      assert HasOption(quiz.questions[AnsweredQuestion(k, |quiz.questions|)], quiz.answers[k]);
      TableOptionIsFound(quiz.questions, k, first[k]);
    }
    TallyCountsEveryAnswer(quiz.questions, first);
    if quiz.questions == Questions {
      QuestionsShape();
    }
  }
}
