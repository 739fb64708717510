/**
 * The navigation of the step-by-step tutorial: a current step that is
 * either owned by the component or supplied by its parent, moved by
 * next, previous and the step indicators.
 */
module StepByStep {
  import opened Wrappers

  /** The decoration of one step indicator. */
  datatype Indicator = Indicator(active: bool, completed: bool, showsCheck: bool, number: int)

  /** Indicator `index` when `current` is the current step. */
  function IndicatorOf(index: int, current: int): (d: Indicator)
    ensures d.active ==> !d.completed
  {
    Indicator(index == current, index < current, index < current, index + 1)
  }

  function PrevDisabledAt(current: int): bool {
    current == 0
  }

  function NextDisabledAt(current: int, stepCount: nat): bool {
    current == stepCount - 1
  }

  class Tutorial {
    /** The number of steps; rendering an empty list fails, so there is at least one. */
    const stepCount: nat
    /** The `currentStep` prop; `None` when the component is uncontrolled. */
    var controlledStep: Option<int>
    var internalStep: int
    /** The arguments `onStepChange` has received, oldest first. */
    var reported: seq<int>

    predicate Valid()
      reads this
    {
      stepCount > 0 && 0 <= internalStep < stepCount
    }

    constructor(stepCount: nat, controlledStep: Option<int>)
      requires stepCount > 0
      ensures this.stepCount == stepCount && this.controlledStep == controlledStep
      ensures internalStep == 0 && reported == []
      ensures Valid()
    {
      this.stepCount := stepCount;
      this.controlledStep := controlledStep;
      internalStep := 0;
      reported := [];
    }

    /** `controlledStep ?? internalStep`. */
    function CurrentStep(): int
      reads this
    {
      controlledStep.GetOr(internalStep)
    }

    function IsControlled(): bool
      reads this
    {
      controlledStep.Some?
    }

    function IndicatorAt(index: int): Indicator
      reads this
    {
      IndicatorOf(index, CurrentStep())
    }

    function PrevDisabled(): bool
      reads this
    {
      PrevDisabledAt(CurrentStep())
    }

    function NextDisabled(): bool
      reads this
    {
      NextDisabledAt(CurrentStep(), stepCount)
    }

    /** The parent re-renders with another `currentStep` prop. */
    method SetControlledStep(step: Option<int>)
      modifies this
      ensures controlledStep == step
      ensures internalStep == old(internalStep) && reported == old(reported)
    {
      controlledStep := step;
    }

    /**
     * `handleStepChange`: only an uncontrolled component moves itself; the
     * requested step is reported in both modes.
     */
    method HandleStepChange(newStep: int)
      requires Valid()
      requires !IsControlled() ==> 0 <= newStep < stepCount
      modifies this
      ensures Valid()
      ensures controlledStep == old(controlledStep)
      ensures internalStep == (if old(IsControlled()) then old(internalStep) else newStep)
      ensures reported == old(reported) + [newStep]
    {
      if controlledStep.None? {
        internalStep := newStep;
      }
      reported := reported + [newStep];
    }

    /** `goToNext`: one step forward unless already at the last step. */
    method GoToNext()
      requires Valid()
      modifies this
      ensures Valid()
      ensures controlledStep == old(controlledStep)
      ensures old(CurrentStep()) < stepCount - 1 ==>
        && reported == old(reported) + [old(CurrentStep()) + 1]
        && internalStep == (if IsControlled() then old(internalStep) else old(internalStep) + 1)
      ensures old(CurrentStep()) >= stepCount - 1 ==> internalStep == old(internalStep) && reported == old(reported)
    {
      if CurrentStep() < stepCount - 1 {
        HandleStepChange(CurrentStep() + 1);
      }
    }

    /** `goToPrev`: one step back unless already at the first step. */
    method GoToPrev()
      requires Valid()
      modifies this
      ensures Valid()
      ensures controlledStep == old(controlledStep)
      ensures old(CurrentStep()) > 0 ==>
        && reported == old(reported) + [old(CurrentStep()) - 1]
        && internalStep == (if IsControlled() then old(internalStep) else old(internalStep) - 1)
      ensures old(CurrentStep()) <= 0 ==> internalStep == old(internalStep) && reported == old(reported)
    {
      if CurrentStep() > 0 {
        HandleStepChange(CurrentStep() - 1);
      }
    }

    /** A click on the indicator of step `index`, one of the rendered ones. */
    method ClickIndicator(index: int)
      requires Valid() && 0 <= index < stepCount
      modifies this
      ensures Valid()
      ensures controlledStep == old(controlledStep)
      ensures internalStep == (if IsControlled() then old(internalStep) else index)
      ensures reported == old(reported) + [index]
    {
      HandleStepChange(index);
    }
  }

  /**
   * Exactly one indicator is active, those before the current step are
   * completed and show a check mark, and the others show their number.
   */
  lemma IndicatorsAgree(current: int, stepCount: nat, i: int, j: int)
    requires 0 <= current < stepCount
    ensures IndicatorOf(i, current).active && IndicatorOf(j, current).active ==> i == j
    ensures IndicatorOf(current, current).active
    ensures IndicatorOf(i, current).completed <==> i < current
    ensures !IndicatorOf(i, current).showsCheck ==> IndicatorOf(i, current).number == i + 1
  {
  }

  /**
   * For a step in range, Prev is disabled exactly when going back is a
   * no-op and Next exactly when going forward is one.
   */
  lemma ButtonsMatchNavigation(current: int, stepCount: nat)
    requires 0 <= current < stepCount
    ensures PrevDisabledAt(current) <==> !(current > 0)
    ensures NextDisabledAt(current, stepCount) <==> !(current < stepCount - 1)
  {
  }

  /**
   * An uncontrolled three-step tutorial clamps at both ends; a controlled
   * one reports the clicked indicator (the third, index 2) without moving.
   */
  method NavigationScenario() returns (afterNexts: int, afterPrev: int, reports: seq<int>, controlledStays: int)
    ensures afterNexts == 2 && afterPrev == 1
    ensures reports == [1, 2, 1]
    ensures controlledStays == 0
  {
    var t := new Tutorial(3, None);
    t.GoToPrev();
    t.GoToNext();
    t.GoToNext();
    t.GoToNext();
    afterNexts := t.CurrentStep();
    t.GoToPrev();
    afterPrev := t.CurrentStep();
    reports := t.reported;
    var c := new Tutorial(3, Some(0));
    c.ClickIndicator(2);
    assert c.reported == [2];
    controlledStays := c.CurrentStep();
  }
}
