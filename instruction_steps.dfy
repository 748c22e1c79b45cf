/**
 * What the two photo-instruction dialogs of the sign-up page share: a table of
 * six steps (five pages of rules, then a confirmation page), the way they move
 * between steps, and the way a rule's text is rendered with its bold
 * fragments wrapped in `<strong>` tags.
 */
module Instructions {
  import opened Tables

  // ---------------------------------------------------------------- the step table

  /** A rule line and the fragments of it shown in bold, in the order they are applied. */
  datatype Rule = Rule(text: string, bold: seq<string>)

  /** One page of a dialog; `isConfirmation` is absent, so false, on every page but the last. */
  datatype Step = Step(id: int, title: string, rules: seq<Rule>, isConfirmation: bool)

  const StepCount: int := 6

  /** Ids 1 to 6 in order, and only the last page is the confirmation page, which has no rules. */
  predicate WellFormed(steps: seq<Step>) {
    && |steps| == StepCount
    && (forall i :: 0 <= i < |steps| ==> steps[i].id == i + 1)
    && (forall i :: 0 <= i < |steps| ==> (steps[i].isConfirmation <==> steps[i].id == StepCount))
    && (forall i :: 0 <= i < |steps| && steps[i].isConfirmation ==> steps[i].rules == [])
  }

  /** `steps.find(s => s.id === id)`. */
  function FindStep(steps: seq<Step>, id: int): (r: Option<Step>)
    ensures r.None? <==> forall i :: 0 <= i < |steps| ==> steps[i].id != id
    ensures r.Some? ==> r.value.id == id && r.value in steps
  {
    if |steps| == 0 then None
    else if steps[0].id == id then Some(steps[0])
    else
      assert forall i :: 1 <= i < |steps| ==> steps[i] == steps[1..][i - 1];
      FindStep(steps[1..], id)
  }

  /** In a well-formed table every id from 1 to 6 finds exactly its own page, and no other id finds one. */
  lemma FindInWellFormed(steps: seq<Step>, id: int)
    requires WellFormed(steps)
    ensures FindStep(steps, id).Some? <==> 1 <= id <= StepCount
    ensures 1 <= id <= StepCount ==> FindStep(steps, id) == Some(steps[id - 1])
  {
    if 1 <= id <= StepCount {
      var r := FindStep(steps, id);
      assert steps[id - 1].id == id;
      var k :| 0 <= k < |steps| && steps[k] == r.value;
      assert k == id - 1;
    }
  }

  // ---------------------------------------------------------------- moving between steps

  /** The state of a dialog: the page shown and the "I have reviewed" box. */
  datatype ModalState = ModalState(currentStep: int, hasReviewed: bool)

  /** Where a dialog starts, and where completing or closing it puts it back. */
  const Reset: ModalState := ModalState(1, false)

  /** The state after a handler, and whether it called `onComplete`. */
  datatype Transition = Transition(state: ModalState, completed: bool)

  /**
   * `handleNext`: before the last page it turns the page; on the last page it completes only
   * when the box is checked, and then resets; on the last page with the box unchecked it does nothing.
   */
  function Next(s: ModalState): (t: Transition)
    ensures t.completed <==> s.currentStep >= StepCount && s.hasReviewed
    ensures t.completed ==> t.state == Reset
    ensures s.currentStep < StepCount ==> t.state == s.(currentStep := s.currentStep + 1)
    ensures s.currentStep >= StepCount && !s.hasReviewed ==> t.state == s
  {
    if s.currentStep < StepCount then Transition(s.(currentStep := s.currentStep + 1), false)
    else if s.hasReviewed then Transition(Reset, true)
    else Transition(s, false)
  }

  /** `handleBack`: one page back, and nothing at all on the first page. */
  function Back(s: ModalState): (r: ModalState)
    ensures s.currentStep > 1 ==> r == s.(currentStep := s.currentStep - 1)
    ensures s.currentStep <= 1 ==> r == s
  {
    if s.currentStep > 1 then s.(currentStep := s.currentStep - 1) else s
  }

  /** The Continue button is disabled on the last page until the box is checked. */
  predicate ContinueDisabled(s: ModalState) {
    s.currentStep == StepCount && !s.hasReviewed
  }

  /** A disabled Continue guards nothing `handleNext` would do anyway: there it changes nothing and does not complete. */
  lemma DisabledContinueIsInert(s: ModalState)
    requires ContinueDisabled(s)
    ensures Next(s) == Transition(s, false)
  {
  }

  /** What the user can do with an open dialog. */
  datatype Event = NextClicked | BackClicked | CloseClicked | ReviewChecked(checked: bool)

  predicate InRange(s: ModalState) {
    1 <= s.currentStep <= StepCount
  }

  /** One event: the handlers, `handleClose` (always back to the reset state) and the checkbox. */
  function Apply(s: ModalState, e: Event): (t: Transition)
    ensures InRange(s) ==> InRange(t.state)
    ensures InRange(s) && t.completed ==> e == NextClicked && s.currentStep == StepCount && s.hasReviewed
  {
    match e
    case NextClicked => Next(s)
    case BackClicked => Transition(Back(s), false)
    case CloseClicked => Transition(Reset, false)
    case ReviewChecked(checked) => Transition(s.(hasReviewed := checked), false)
  }

  /** The state after a sequence of events. */
  function Run(s: ModalState, events: seq<Event>): ModalState
    decreases |events|
  {
    if |events| == 0 then s else Run(Apply(s, events[0]).state, events[1..])
  }

  /** How many times `onComplete` fires along a sequence of events. */
  function Completions(s: ModalState, events: seq<Event>): nat
    decreases |events|
  {
    if |events| == 0 then 0
    else (if Apply(s, events[0]).completed then 1 else 0) + Completions(Apply(s, events[0]).state, events[1..])
  }

  function CountNext(events: seq<Event>): nat {
    if |events| == 0 then 0 else (if events[0] == NextClicked then 1 else 0) + CountNext(events[1..])
  }

  /** Whatever the user does, the page shown stays one of the six. */
  lemma {:induction false} RunStaysInRange(s: ModalState, events: seq<Event>)
    requires InRange(s)
    ensures InRange(Run(s, events))
    decreases |events|
  {
    if |events| > 0 {
      RunStaysInRange(Apply(s, events[0]).state, events[1..]);
    }
  }

  /**
   * `onComplete` cannot fire before the user has pressed Continue once per page still ahead
   * and once more on the last page: from the reset state, at least six times.
   */
  lemma {:induction false} CompletionNeedsEveryPage(s: ModalState, events: seq<Event>)
    requires InRange(s) && Completions(s, events) > 0
    ensures CountNext(events) >= StepCount + 1 - s.currentStep
    decreases |events|
  {
    var t := Apply(s, events[0]);
    if !t.completed {
      CompletionNeedsEveryPage(t.state, events[1..]);
    }
  }

  /** From a fresh dialog, completion takes at least six presses of Continue. */
  lemma CompletionFromReset(events: seq<Event>)
    requires Completions(Reset, events) > 0
    ensures CountNext(events) >= StepCount
  {
    CompletionNeedsEveryPage(Reset, events);
  }

  // ---------------------------------------------------------------- rendering a rule

  /** `pat` occurs in `s` at index `k`. */
  predicate OccursAt(s: string, pat: string, k: nat) {
    k + |pat| <= |s| && s[k..k + |pat|] == pat
  }

  ghost predicate Occurs(s: string, pat: string) {
    exists k: nat :: OccursAt(s, pat, k)
  }

  function IndexFrom(s: string, pat: string, from: nat): (r: Option<nat>)
    ensures r.None? ==> forall k: nat :: from <= k ==> !OccursAt(s, pat, k)
    ensures r.Some? ==> from <= r.value && OccursAt(s, pat, r.value)
    ensures r.Some? ==> forall k: nat :: from <= k < r.value ==> !OccursAt(s, pat, k)
    decreases |s| - from
  {
    if from + |pat| > |s| then None
    else if s[from..from + |pat|] == pat then Some(from)
    else IndexFrom(s, pat, from + 1)
  }

  /** `s.indexOf(pat)`: the first index at which `pat` occurs. */
  function IndexOf(s: string, pat: string): (r: Option<nat>)
    ensures r.None? <==> !Occurs(s, pat)
    ensures r.Some? ==> OccursAt(s, pat, r.value) && forall k: nat :: k < r.value ==> !OccursAt(s, pat, k)
  {
    IndexFrom(s, pat, 0)
  }

  /** `s.replace(pat, rep)` with a string pattern: only the first occurrence is replaced. */
  function ReplaceFirst(s: string, pat: string, rep: string): (r: string)
    ensures !Occurs(s, pat) ==> r == s
    ensures Occurs(s, pat) ==>
      var k := IndexOf(s, pat).value;
      && |r| == |s| - |pat| + |rep|
      && r[..k] == s[..k]
      && OccursAt(r, rep, k) && r[k + |rep|..] == s[k + |pat|..]
  {
    match IndexOf(s, pat)
    case None => s
    case Some(k) =>
      var r := s[..k] + rep + s[k + |pat|..];
      assert r[k..k + |rep|] == rep;
      r
  }

  /** The markup a bold fragment becomes. */
  function Strong(b: string): string {
    "<strong>" + b + "</strong>"
  }

  /** The text `renderText` produces: each fragment in turn has its first occurrence wrapped. */
  function Rendered(text: string, bolds: seq<string>): string
    decreases |bolds|
  {
    if |bolds| == 0 then text else Rendered(ReplaceFirst(text, bolds[0], Strong(bolds[0])), bolds[1..])
  }

  /** Fragments are applied in list order: rendering with two lists is rendering with one, then the other. */
  lemma {:induction false} RenderedInOrder(text: string, first: seq<string>, second: seq<string>)
    ensures Rendered(text, first + second) == Rendered(Rendered(text, first), second)
    decreases |first|
  {
    if |first| == 0 {
      assert first + second == second;
    } else {
      assert (first + second)[0] == first[0];
      assert (first + second)[1..] == first[1..] + second;
      RenderedInOrder(ReplaceFirst(text, first[0], Strong(first[0])), first[1..], second);
    }
  }

  /** Fragments that do not occur, and in particular an empty list, leave the text as it was. */
  lemma {:induction false} AbsentFragmentsKeepText(text: string, bolds: seq<string>)
    requires forall i :: 0 <= i < |bolds| ==> !Occurs(text, bolds[i])
    ensures Rendered(text, bolds) == text
    decreases |bolds|
  {
    if |bolds| > 0 {
      AbsentFragmentsKeepText(text, bolds[1..]);
    }
  }

  /** A fragment that occurs has its first occurrence, and only that one, wrapped: the text around it is kept. */
  lemma WrapsFirstOccurrence(text: string, b: string)
    requires Occurs(text, b)
    ensures var k := IndexOf(text, b).value;
      && Rendered(text, [b]) == text[..k] + Strong(b) + text[k + |b|..]
      && forall j: nat :: j < k ==> !OccursAt(text, b, j)
  {
    var k := IndexOf(text, b).value;
    var r := ReplaceFirst(text, b, Strong(b));
    assert Rendered(text, [b]) == Rendered(r, []) == r;
    assert r == r[..k] + r[k..k + |Strong(b)|] + r[k + |Strong(b)|..];
  }
}
