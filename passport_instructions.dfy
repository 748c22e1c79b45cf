/**
 * The "Instructions for uploading Passport" dialog: five pages of rules about
 * the passport scan, then a confirmation page whose checkbox enables the final
 * Continue, which hands over to the passport file picker.
 */
module PassportInstructions {
  import opened Instructions

  /** The dialog's pages, rule texts and bold fragments as the dialog shows them. */
  const Steps: seq<Step> := [
    Step(1, "General", [
      Rule("Only PNG, JPEG or JPG images must be used", ["PNG, JPEG or JPG"]),
      Rule("The size of the photo should not exceed 2 MBs", ["size", "2 MBs"]),
      Rule("If your last name is blank, please provide your father's name as the last name",
           ["last name is blank", "father's name"]),
      Rule("The MRZ code should be clearly visible otherwise the request will be rejected",
           ["MRZ code", "clearly visible"]),
      Rule("The MRZ is 2 or 3 lines of letters, symbols, and numbers, at the bottom of the personal details page on your passport",
           ["MRZ", "2 or 3 lines"])], false),
    Step(2, "Color", [
      Rule("Please make sure to upload the document in full color.", ["full color"])], false),
    Step(3, "Quality", [
      Rule("No glare or stain over the scan.", ["No glare"]),
      Rule("No shadows over the scan.", ["No shadows"])], false),
    Step(4, "Scan", [
      Rule("Double pages of scanned copies are not allowed.", []),
      Rule("Only a single page should be uploaded", ["single page"])], false),
    Step(5, "Cropping", [
      Rule("Crop the document so that no information is missed", ["no information is missed"])], false),
    Step(6, "Upload", [], true)]

  /** Pages 1 to 6, one record each, and only page 6 is the confirmation page. */
  lemma StepsWellFormed()
    ensures WellFormed(Steps)
  {
  }

  /** `renderText`: the rule's text with each bold fragment's first occurrence wrapped, fragment by fragment. */
  method RenderText(rule: Rule) returns (html: string)
    ensures html == Rendered(rule.text, rule.bold)
  {
    html := rule.text;
    var i := 0;
    while i < |rule.bold|
      invariant 0 <= i <= |rule.bold|
      invariant Rendered(html, rule.bold[i..]) == Rendered(rule.text, rule.bold)
    {
      var b := rule.bold[i];
      assert rule.bold[i..][0] == b && rule.bold[i..][1..] == rule.bold[i + 1..];
      html := ReplaceFirst(html, b, Strong(b));
      i := i + 1;
    }
  }

  class Modal {
    var currentStep: int
    var hasReviewed: bool

    function State(): ModalState
      reads this
    {
      ModalState(currentStep, hasReviewed)
    }

    ghost predicate Valid()
      reads this
    {
      InRange(State())
    }

    constructor ()
      ensures Valid() && State() == Reset
    {
      currentStep, hasReviewed := 1, false;
    }

    /** `steps.find(s => s.id === currentStep)!`: the page shown always exists, and it is page `currentStep`. */
    function Shown(): (s: Step)
      reads this
      requires Valid()
      ensures s == Steps[currentStep - 1] && s.id == currentStep
      ensures s.isConfirmation <==> currentStep == StepCount
    {
      StepsWellFormed();
      FindInWellFormed(Steps, currentStep);
      FindStep(Steps, currentStep).value
    }

    /** `handleNext`; `completed` says whether it called `onComplete`. */
    method HandleNext() returns (completed: bool)
      requires Valid()
      modifies this
      ensures Valid()
      ensures Transition(State(), completed) == Next(old(State()))
    {
      if currentStep < StepCount {
        currentStep := currentStep + 1;
        completed := false;
      } else if hasReviewed {
        completed := true;
        currentStep := 1;
        hasReviewed := false;
      } else {
        completed := false;
      }
    }

    /** `handleBack`. */
    method HandleBack()
      requires Valid()
      modifies this
      ensures Valid()
      ensures State() == Back(old(State()))
    {
      if currentStep > 1 {
        currentStep := currentStep - 1;
      }
    }

    /** `handleClose`: back to the first page with the box cleared. */
    method HandleClose()
      requires Valid()
      modifies this
      ensures Valid()
      ensures State() == Reset
    {
      currentStep := 1;
      hasReviewed := false;
    }

    /** The confirmation checkbox. */
    method SetReviewed(checked: bool)
      requires Valid()
      modifies this
      ensures Valid()
      ensures State() == old(State()).(hasReviewed := checked)
    {
      hasReviewed := checked;
    }
  }
}
