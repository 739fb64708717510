/**
 * The state machine of the multiple-choice quiz: an answer can be selected
 * until it is submitted, submitting grades it once, and a reset starts
 * over.
 */
module Quiz {
  import opened Wrappers

  /** What `onAnswer` receives on submission. */
  datatype AnswerReport = AnswerReport(correct: bool, selectedIndex: int)

  /** The classes an option carries beyond the base style. */
  datatype OptionStatus = OptionStatus(selected: bool, correct: bool, incorrect: bool)

  /** The per-option decoration: selected, then after submission correct or else, if selected, incorrect. */
  function StatusOf(selectedIndex: Option<int>, isSubmitted: bool, correctAnswer: int, index: int): (s: OptionStatus)
    ensures !(s.correct && s.incorrect)
  {
    OptionStatus(
      selectedIndex == Some(index),
      isSubmitted && index == correctAnswer,
      isSubmitted && index != correctAnswer && selectedIndex == Some(index))
  }

  /** The feedback header shown after submission. */
  function FeedbackOf(isSubmitted: bool, isCorrect: bool): (header: Option<string>)
    ensures header.Some? <==> isSubmitted
    ensures header == Some("Correct!") <==> isSubmitted && isCorrect
  {
    if !isSubmitted then None
    else if isCorrect then Some("Correct!")
    else Some("Incorrect - Keep learning!")
  }

  class QuizState {
    const correctAnswer: int
    var selectedIndex: Option<int>
    var isSubmitted: bool
    var isCorrect: bool

    /** A grade only exists for a submitted selection, and it is that selection's grade. */
    predicate Valid()
      reads this
    {
      && (isCorrect ==> isSubmitted)
      && (isSubmitted ==> selectedIndex.Some? && isCorrect == (selectedIndex.value == correctAnswer))
    }

    constructor(correctAnswer: int)
      ensures this.correctAnswer == correctAnswer
      ensures selectedIndex == None && !isSubmitted && !isCorrect
      ensures Valid()
    {
      this.correctAnswer := correctAnswer;
      selectedIndex := None;
      isSubmitted := false;
      isCorrect := false;
    }

    function Status(index: int): OptionStatus
      reads this
    {
      StatusOf(selectedIndex, isSubmitted, correctAnswer, index)
    }

    function Feedback(): Option<string>
      reads this
    {
      FeedbackOf(isSubmitted, isCorrect)
    }

    /** The submit button is disabled while nothing is selected. */
    function SubmitDisabled(): bool
      reads this
    {
      selectedIndex.None?
    }

    /** `handleSelect`: choosing an option is possible only before submission. */
    method HandleSelect(index: int)
      requires Valid()
      modifies this
      ensures Valid()
      ensures old(isSubmitted) ==> selectedIndex == old(selectedIndex)
      ensures !old(isSubmitted) ==> selectedIndex == Some(index)
      ensures isSubmitted == old(isSubmitted) && isCorrect == old(isCorrect)
    {
      if !isSubmitted {
        selectedIndex := Some(index);
      }
    }

    /**
     * `handleSubmit`: without a selection nothing happens and `onAnswer`
     * is not called; otherwise the selection is graded and reported.
     */
    method HandleSubmit() returns (report: Option<AnswerReport>)
      requires Valid()
      modifies this
      ensures Valid()
      ensures selectedIndex == old(selectedIndex)
      ensures old(selectedIndex).None? ==> report.None? && isSubmitted == old(isSubmitted) && isCorrect == old(isCorrect)
      ensures old(selectedIndex).Some? ==>
        && isSubmitted
        && isCorrect == (old(selectedIndex).value == correctAnswer)
        && report == Some(AnswerReport(isCorrect, old(selectedIndex).value))
    {
      if selectedIndex.None? {
        return None;
      }
      var correct := selectedIndex.value == correctAnswer;
      isCorrect := correct;
      isSubmitted := true;
      report := Some(AnswerReport(correct, selectedIndex.value));
    }

    /** `handleReset`: back to the initial state. */
    method HandleReset()
      modifies this
      ensures Valid()
      ensures selectedIndex == None && !isSubmitted && !isCorrect
    {
      selectedIndex := None;
      isSubmitted := false;
      isCorrect := false;
    }
  }

  /**
   * After submission the correct option is marked correct, a selected
   * wrong option is marked incorrect, nothing unselected is marked
   * incorrect, and before submission nothing is graded.
   */
  lemma StatusMarks(selectedIndex: Option<int>, isSubmitted: bool, correctAnswer: int, index: int)
    ensures isSubmitted && index == correctAnswer ==> StatusOf(selectedIndex, isSubmitted, correctAnswer, index).correct
    ensures isSubmitted && selectedIndex == Some(index) && index != correctAnswer ==>
              StatusOf(selectedIndex, isSubmitted, correctAnswer, index).incorrect
    ensures StatusOf(selectedIndex, isSubmitted, correctAnswer, index).incorrect ==> selectedIndex == Some(index)
    ensures !isSubmitted ==> (!StatusOf(selectedIndex, isSubmitted, correctAnswer, index).correct
                              && !StatusOf(selectedIndex, isSubmitted, correctAnswer, index).incorrect)
  {
  }

  /**
   * In a consistent state the feedback agrees with the options: it says
   * "Correct!" exactly when the selected option is the one marked correct.
   */
  lemma FeedbackAgreesWithStatus(selectedIndex: Option<int>, isSubmitted: bool, isCorrect: bool, correctAnswer: int)
    requires isCorrect ==> isSubmitted
    requires isSubmitted ==> selectedIndex.Some? && isCorrect == (selectedIndex.value == correctAnswer)
    requires isSubmitted
    ensures FeedbackOf(isSubmitted, isCorrect) == Some("Correct!")
            <==> StatusOf(selectedIndex, isSubmitted, correctAnswer, selectedIndex.value).correct
    ensures FeedbackOf(isSubmitted, isCorrect) == Some("Incorrect - Keep learning!")
            <==> StatusOf(selectedIndex, isSubmitted, correctAnswer, selectedIndex.value).incorrect
  {
  }

  /**
   * A wrong answer, a selection attempt while locked, a reset and a right
   * answer, with what `onAnswer` receives each time.
   */
  method QuizScenario() returns (first: Option<AnswerReport>, lockedSelection: Option<int>, second: Option<AnswerReport>)
    ensures first == Some(AnswerReport(false, 0))
    ensures lockedSelection == Some(0)
    ensures second == Some(AnswerReport(true, 1))
  {
    var q := new QuizState(1);
    var none := q.HandleSubmit();
    assert none.None?;
    q.HandleSelect(0);
    first := q.HandleSubmit();
    q.HandleSelect(1);
    lockedSelection := q.selectedIndex;
    q.HandleReset();
    q.HandleSelect(1);
    second := q.HandleSubmit();
  }
}
