/**
 * The three-step report wizard: a `step` counter that starts at 1, clamped
 * updaters for Next and Previous, and what the form shows for each step
 * (the stepper circles, the one step panel, and the navigation buttons).
 */
module ReportForm {

  /** The stepper's labels; their number is the last step. */
  const Steps: seq<string> := ["Issue Details", "Location", "Evidence"]

  function Min(a: int, b: int): int {
    if a < b then a else b
  }

  function Max(a: int, b: int): int {
    if a > b then a else b
  }

  /** The updater `nextStep` passes to `setStep`. */
  function NextStep(prev: int): int {
    Min(prev + 1, |Steps|)
  }

  /** The updater `prevStep` passes to `setStep`. */
  function PrevStep(prev: int): int {
    Max(prev - 1, 1)
  }

  predicate InRange(step: int) {
    1 <= step <= |Steps|
  }

  /** Within range, Next advances by one except on the last step, Previous
      goes back by one except on the first, each undoes the other where it
      moves, and neither leaves the range. */
  lemma ClampSpec(step: int)
    requires InRange(step)
    ensures InRange(NextStep(step)) && InRange(PrevStep(step))
    ensures NextStep(step) == step <==> step == |Steps|
    ensures PrevStep(step) == step <==> step == 1
    ensures step < |Steps| ==> NextStep(step) == step + 1 && PrevStep(NextStep(step)) == step
    ensures step > 1 ==> PrevStep(step) == step - 1 && NextStep(PrevStep(step)) == step
  {
  }

  datatype Click = Next | Previous

  /** The step after a sequence of clicks, from `step`. */
  function Run(step: int, clicks: seq<Click>): int
    decreases clicks
  {
    if clicks == [] then step
    else Run(if clicks[0] == Next then NextStep(step) else PrevStep(step), clicks[1..])
  }

  /** No sequence of clicks takes the step out of [1, 3]. */
  lemma {:induction false} RunStaysInRange(step: int, clicks: seq<Click>)
    requires InRange(step)
    ensures InRange(Run(step, clicks))
    decreases clicks
  {
    if clicks != [] {
      ClampSpec(step);
      RunStaysInRange(if clicks[0] == Next then NextStep(step) else PrevStep(step), clicks[1..]);
    }
  }

  datatype PrimaryButton = NextButton | SubmitButton

  /** What the form renders: which stepper circles are active, which step
      panels are shown, whether "Previous" is shown, and the right-hand button. */
  datatype View = View(activeCircles: seq<bool>, panels: seq<bool>, previous: bool, primary: PrimaryButton)

  function Render(step: int): View {
    View(seq(|Steps|, index => step == index + 1),
         [step == 1, step == 2, step == 3],
         step > 1,
         if step < 3 then NextButton else SubmitButton)
  }

  /** For a step in range: exactly one circle is active and exactly one panel
      is shown, both at the step's position; "Previous" is shown exactly
      after the first step, "Next" exactly before the last and "SUBMIT
      REPORT" on the last; and a shown button's updater never needs its clamp. */
  lemma RenderSpec(step: int)
    requires InRange(step)
    ensures var v := Render(step);
      |v.activeCircles| == |v.panels| == |Steps| &&
      (forall i :: 0 <= i < |Steps| ==> (v.activeCircles[i] <==> i == step - 1)) &&
      (forall i :: 0 <= i < |Steps| ==> (v.panels[i] <==> i == step - 1)) &&
      (v.previous <==> step > 1) &&
      (v.primary == NextButton <==> step < |Steps|) &&
      (v.primary == SubmitButton <==> step == |Steps|) &&
      (v.previous ==> PrevStep(step) == step - 1) &&
      (v.primary == NextButton ==> NextStep(step) == step + 1)
  {
  }

  /** The component's state. */
  class Form {
    var step: int

    ghost predicate Valid()
      reads this
    {
      InRange(step)
    }

    /** `useState(1)`. */
    constructor ()
      ensures Valid() && step == 1
    {
      step := 1;
    }

    /** The Next button: `setStep(nextStep)`. */
    method OnNext()
      requires Valid()
      modifies this
      ensures Valid() && step == NextStep(old(step))
    {
      ClampSpec(step);
      step := NextStep(step);
    }

    /** The Previous button: `setStep(prevStep)`. */
    method OnPrevious()
      requires Valid()
      modifies this
      ensures Valid() && step == PrevStep(old(step))
    {
      ClampSpec(step);
      step := PrevStep(step);
    }
  }
}
