/**
 * The "Instructions for uploading Personal Photo" dialog: five pages of rules
 * about the applicant's photo, then a confirmation page whose checkbox enables
 * the final Continue, which hands over to the photo file picker.
 */
module PersonalPhotoInstructions {
  import opened Instructions

  /** The dialog's pages, rule texts and bold fragments as the dialog shows them. */
  const Steps: seq<Step> := [
    Step(1, "General", [
      Rule("The photo must be in color.", ["color"]),
      Rule("The photo must be in PNG, JPEG or JPG format.", ["PNG, JPEG or JPG"]),
      Rule("The size of the photo should not exceed 2 MBs", ["size", "2 MBs"]),
      Rule("The photo must be taken within the last 6 months.", ["last 6 months"])], false),
    Step(2, "Quality", [
      Rule("The photo must be clear and in focus.", ["clear", "in focus"]),
      Rule("No red-eye.", ["No red-eye"]),
      Rule("No shadows, glare or reflections on the face or background.", ["No shadows, glare or reflections"])], false),
    Step(3, "Pose", [
      Rule("Face forward and look straight at the camera.", ["Face forward"]),
      Rule("Shoulders must be straight/squared.", ["Shoulders"]),
      Rule("Expression should be neutral with both eyes open and mouth closed.", ["neutral", "eyes open", "mouth closed"])], false),
    Step(4, "Glasses", [
      Rule("Do not wear sunglasses or tinted/colored glasses.", ["not wear sunglasses", "tinted/colored"]),
      Rule("If you normally wear glasses, your eyes must be clearly visible in the photo.", ["eyes must be clearly visible"])], false),
    Step(5, "Headdress", [
      Rule("No head covering unless worn for religious reasons.", ["No head covering"]),
      Rule("Face must be fully visible from chin to forehead.", ["fully visible"])], false),
    Step(6, "Upload", [], true)]

  /** Pages 1 to 6, one record each, and only page 6 is the confirmation page. */
  lemma StepsWellFormed()
    ensures WellFormed(Steps)
  {
  }

  /** `renderText`: the rule's text with each bold fragment's first occurrence wrapped, fragment by fragment. */
  method RenderText(rule: Rule) returns (html: string)
    ensures html == Rendered(rule.text, rule.bold)
  {
    html := rule.text;
    var i := 0;
    while i < |rule.bold|
      invariant 0 <= i <= |rule.bold|
      invariant Rendered(html, rule.bold[i..]) == Rendered(rule.text, rule.bold)
    {
      var b := rule.bold[i];
      assert rule.bold[i..][0] == b && rule.bold[i..][1..] == rule.bold[i + 1..];
      html := ReplaceFirst(html, b, Strong(b));
      i := i + 1;
    }
  }

  class Modal {
    var currentStep: int
    var hasReviewed: bool

    function State(): ModalState
      reads this
    {
      ModalState(currentStep, hasReviewed)
    }

    ghost predicate Valid()
      reads this
    {
      InRange(State())
    }

    constructor ()
      ensures Valid() && State() == Reset
    {
      currentStep, hasReviewed := 1, false;
    }

    /** `steps.find(s => s.id === currentStep)!`: the page shown always exists, and it is page `currentStep`. */
    function Shown(): (s: Step)
      reads this
      requires Valid()
      ensures s == Steps[currentStep - 1] && s.id == currentStep
      ensures s.isConfirmation <==> currentStep == StepCount
    {
      StepsWellFormed();
      FindInWellFormed(Steps, currentStep);
      FindStep(Steps, currentStep).value
    }

    /** `handleNext`; `completed` says whether it called `onComplete`. */
    method HandleNext() returns (completed: bool)
      requires Valid()
      modifies this
      ensures Valid()
      ensures Transition(State(), completed) == Next(old(State()))
    {
      if currentStep < StepCount {
        currentStep := currentStep + 1;
        completed := false;
      } else if hasReviewed {
        completed := true;
        currentStep := 1;
        hasReviewed := false;
      } else {
        completed := false;
      }
    }

    /** `handleBack`. */
    method HandleBack()
      requires Valid()
      modifies this
      ensures Valid()
      ensures State() == Back(old(State()))
    {
      if currentStep > 1 {
        currentStep := currentStep - 1;
      }
    }

    /** `handleClose`: back to the first page with the box cleared. */
    method HandleClose()
      requires Valid()
      modifies this
      ensures Valid()
      ensures State() == Reset
    {
      currentStep := 1;
      hasReviewed := false;
    }

    /** The confirmation checkbox. */
    method SetReviewed(checked: bool)
      requires Valid()
      modifies this
      ensures Valid()
      ensures State() == old(State()).(hasReviewed := checked)
    {
      hasReviewed := checked;
    }
  }
}
