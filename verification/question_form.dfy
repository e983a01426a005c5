/**
  The question editor: loading a question into the form, validating the form,
  building the submitted `Question`, and the choice-list edits that keep a blank
  slot at hand.
*/
module QuestionForm {
  import opened Wrappers
  import opened Text
  import opened Seqs
  import opened Types

  /** The editor's state. */
  datatype FormState = FormState(
    name: string,
    questionType: string,
    description: string,
    choices: seq<string>,
    isSingleChoice: bool,
    useRange: bool,
    range: Range)

  const DefaultRange: Range := Range(0, 100)

  /** The form's state after its `question` prop changes (the effect that loads or resets it). */
  function Load(question: Option<Question>): (f: FormState)
    ensures question.None? ==>
      && f.name == "" && f.questionType == "" && f.description == "" && f.choices == [""]
      && !f.isSingleChoice && !f.useRange && f.range == DefaultRange
    ensures question.Some? ==>
      var q := question.value;
      && f.name == q.name && f.questionType == q.questionType
      && f.description == (if q.description.Some? then q.description.value else "")
      && f.choices == (if q.choices.Some? then q.choices.value else [""])
      && f.isSingleChoice == (q.isSingleChoice == Some(true))
      && f.useRange == (q.useRange == Some(true))
      && f.range == (if q.range.Some? then q.range.value else DefaultRange)
  {
    match question
    case Some(q) =>
      FormState(q.name, q.questionType, q.description.GetOr(""), q.choices.GetOr([""]),
                q.isSingleChoice.GetOr(false), q.useRange.GetOr(false), q.range.GetOr(DefaultRange))
    case None => FormState("", "", "", [""], false, false, DefaultRange)
  }

  datatype NameError = NameRequired | NameNeedsLetter
  datatype TypeError = TypeRequired
  /** `ChoiceNeedsLetter(p)`: the p-th (1-based) non-blank choice has no letter. */
  datatype ChoiceError = TooFewChoices | ChoiceNeedsLetter(position: nat) | DuplicateChoices
  datatype RangeError = MinNotBelowMax

  /** The recorded validation errors; `None` is a field with no error. */
  datatype FormErrors = FormErrors(
    name: Option<NameError>,
    questionType: Option<TypeError>,
    choices: Option<ChoiceError>,
    range: Option<RangeError>)

  predicate NoErrors(e: FormErrors) {
    e.name.None? && e.questionType.None? && e.choices.None? && e.range.None?
  }

  /** `choices.filter((choice) => choice.trim() !== "")` */
  function NonBlank(cs: seq<string>): seq<string>
    decreases |cs|
  {
    if cs == [] then []
    else (if IsBlank(cs[0]) then [] else [cs[0]]) + NonBlank(cs[1..])
  }

  lemma {:induction false} NonBlankEntries(cs: seq<string>)
    ensures forall k | 0 <= k < |NonBlank(cs)| :: !AllWhitespace(NonBlank(cs)[k])
    decreases |cs|
  {
    if cs != [] {
      NonBlankEntries(cs[1..]);
      BlankIffAllWhitespace(cs[0]);
      var rest := NonBlank(cs[1..]);
      var r := NonBlank(cs);
      forall k | 0 <= k < |r| ensures !AllWhitespace(r[k]) {
        if !IsBlank(cs[0]) && k > 0 { assert r[k] == rest[k - 1]; }
      }
    }
  }

  lemma {:induction false} NonBlankMembers(cs: seq<string>, c: string)
    ensures c in NonBlank(cs) <==> c in cs && !AllWhitespace(c)
    decreases |cs|
  {
    if cs != [] {
      NonBlankMembers(cs[1..], c);
      BlankIffAllWhitespace(cs[0]);
      BlankIffAllWhitespace(c);
      assert cs == [cs[0]] + cs[1..];
    }
  }

  /** Filtering again changes nothing: the submitted choices survive a second filter. */
  lemma {:induction false} NonBlankIdempotent(cs: seq<string>)
    ensures NonBlank(NonBlank(cs)) == NonBlank(cs)
    decreases |cs|
  {
    if cs != [] {
      NonBlankIdempotent(cs[1..]);
      var rest := NonBlank(cs[1..]);
      if !IsBlank(cs[0]) {
        var r := [cs[0]] + rest;
        assert r[1..] == rest;
      } else {
        assert NonBlank(cs) == rest;
      }
    }
  }

  /** Has at least one distinct letter: `new Set(s.replace(/[^a-zA-Z]/g, "").toLowerCase()).size >= 1`. */
  predicate HasDistinctLetter(s: string) {
    |LetterSet(s)| >= 1
  }

  /** The index of the last choice without a letter: `forEach` lets later failures overwrite earlier ones. */
  function LastLetterless(cs: seq<string>): (r: Option<nat>)
    ensures r.None? <==> forall k | 0 <= k < |cs| :: HasAsciiLetter(cs[k])
    ensures r.Some? ==>
      && r.value < |cs| && !HasAsciiLetter(cs[r.value])
      && forall k | r.value < k < |cs| :: HasAsciiLetter(cs[k])
    decreases |cs|
  {
    if cs == [] then None
    else
      LetterSetNonEmptyIff(cs[|cs| - 1]);
      if !HasDistinctLetter(cs[|cs| - 1]) then Some(|cs| - 1)
      else
        var r := LastLetterless(cs[..|cs| - 1]);
        assert forall k | 0 <= k < |cs| - 1 :: cs[..|cs| - 1][k] == cs[k];
        r
  }

  function LowerAll(cs: seq<string>): (r: seq<string>)
    ensures |r| == |cs| && forall k | 0 <= k < |cs| :: r[k] == Lower(cs[k])
  {
    seq(|cs|, k requires 0 <= k < |cs| => Lower(cs[k]))
  }

  /** The non-blank choices a multichoice question accepts: two or more, each with a letter, distinct ignoring case. */
  predicate ChoicesAcceptable(cs: seq<string>) {
    && |cs| >= 2
    && (forall k | 0 <= k < |cs| :: HasAsciiLetter(cs[k]))
    && Distinct(LowerAll(cs))
  }

  /** The multichoice checks; the uniqueness error, recorded last, wins over a letter error. */
  function ChoicesError(choices: seq<string>): (e: Option<ChoiceError>)
    ensures e.None? <==> ChoicesAcceptable(NonBlank(choices))
    ensures |NonBlank(choices)| < 2 ==> e == Some(TooFewChoices)
    ensures |NonBlank(choices)| >= 2 && !Distinct(LowerAll(NonBlank(choices))) ==> e == Some(DuplicateChoices)
    ensures var cs := NonBlank(choices);
      |cs| >= 2 && Distinct(LowerAll(cs)) && (exists k | 0 <= k < |cs| :: !HasAsciiLetter(cs[k])) ==>
        e.Some? && e.value.ChoiceNeedsLetter?
    ensures e.Some? && e.value.ChoiceNeedsLetter? ==>
      var cs := NonBlank(choices);
      var p := e.value.position;
      && 1 <= p <= |cs| && !HasAsciiLetter(cs[p - 1])
      && (forall k | p <= k < |cs| :: HasAsciiLetter(cs[k]))
      && Distinct(LowerAll(cs))
  {
    var nonEmpty := NonBlank(choices);
    DistinctIffElementCount(LowerAll(nonEmpty));
    if |nonEmpty| < 2 then Some(TooFewChoices)
    else
      var letterError := match LastLetterless(nonEmpty)
        case Some(i) => Some(ChoiceNeedsLetter(i + 1))
        case None => None;
      if |Elements(LowerAll(nonEmpty))| != |nonEmpty| then Some(DuplicateChoices) else letterError
  }

  /** The name check: required, then at least one distinct letter. */
  function NameCheck(name: string): (e: Option<NameError>)
    ensures e.None? <==> !AllWhitespace(name) && HasAsciiLetter(name)
    ensures e == Some(NameRequired) <==> AllWhitespace(name)
  {
    BlankIffAllWhitespace(name);
    LetterSetNonEmptyIff(name);
    if IsBlank(name) then Some(NameRequired)
    else if !HasDistinctLetter(name) then Some(NameNeedsLetter)
    else None
  }

  /** The type check: a type must be chosen. */
  function TypeCheck(questionType: string): (e: Option<TypeError>)
    ensures e.None? <==> !AllWhitespace(questionType)
  {
    BlankIffAllWhitespace(questionType);
    if IsBlank(questionType) then Some(TypeRequired) else None
  }

  /** `validateForm()`: the errors it records; the form is valid when there are none. */
  function Validate(f: FormState): (e: FormErrors)
    ensures e.name.None? <==> !AllWhitespace(f.name) && HasAsciiLetter(f.name)
    ensures e.name == Some(NameRequired) <==> AllWhitespace(f.name)
    ensures e.questionType.None? <==> !AllWhitespace(f.questionType)
    ensures f.questionType != MultiChoice ==> e.choices.None?
    ensures f.questionType == MultiChoice ==>
      (e.choices.None? <==> ChoicesAcceptable(NonBlank(f.choices)))
    ensures f.questionType == MultiChoice && |NonBlank(f.choices)| < 2 ==> e.choices == Some(TooFewChoices)
    ensures f.questionType == MultiChoice && |NonBlank(f.choices)| >= 2 && !Distinct(LowerAll(NonBlank(f.choices))) ==>
      e.choices == Some(DuplicateChoices)
    ensures var cs := NonBlank(f.choices);
      f.questionType == MultiChoice && |cs| >= 2 && Distinct(LowerAll(cs))
      && (exists k | 0 <= k < |cs| :: !HasAsciiLetter(cs[k])) ==>
        e.choices.Some? && e.choices.value.ChoiceNeedsLetter?
    ensures e.choices.Some? && e.choices.value.ChoiceNeedsLetter? ==>
      var cs := NonBlank(f.choices);
      var p := e.choices.value.position;
      && 1 <= p <= |cs| && !HasAsciiLetter(cs[p - 1])
      && (forall k | p <= k < |cs| :: HasAsciiLetter(cs[k]))
      && Distinct(LowerAll(cs))
    ensures e.range.Some? <==> f.questionType == NumberType && f.useRange && f.range.min >= f.range.max
  {
    FormErrors(
      NameCheck(f.name),
      TypeCheck(f.questionType),
      if f.questionType == MultiChoice then ChoicesError(f.choices) else None,
      if f.questionType == NumberType && f.useRange && f.range.min >= f.range.max then Some(MinNotBelowMax)
      else None)
  }

  /** The `Question` a valid form submits. */
  function Build(f: FormState): Question {
    var multi := f.questionType == MultiChoice;
    var number := f.questionType == NumberType;
    Question(
      f.name,
      f.questionType,
      Some(f.description),
      if multi then Some(NonBlank(f.choices)) else None,
      if multi then Some(f.isSingleChoice) else None,
      if number && f.useRange then Some(f.range) else None,
      if number then Some(f.useRange) else None)
  }

  /** What `handleFormSubmit` does: the errors it records, and the question passed to `onSubmit`, if any. */
  datatype SubmitOutcome = SubmitOutcome(errors: FormErrors, submitted: Option<Question>)

  /** `handleFormSubmit()` */
  function Submit(f: FormState): (r: SubmitOutcome)
    ensures r.errors == Validate(f)
    ensures r.submitted.Some? <==> NoErrors(r.errors)
    ensures r.submitted.Some? ==>
      var q := r.submitted.value;
      && q.name == f.name && q.questionType == f.questionType && q.description == Some(f.description)
      && (q.choices.Some? <==> f.questionType == MultiChoice)
      && (q.isSingleChoice.Some? <==> f.questionType == MultiChoice)
      && (q.choices.Some? ==> q.choices.value == NonBlank(f.choices) && q.isSingleChoice == Some(f.isSingleChoice))
      && (q.range.Some? <==> f.questionType == NumberType && f.useRange)
      && (q.range.Some? ==> q.range.value == f.range)
      && (q.useRange.Some? <==> f.questionType == NumberType)
      && (q.useRange.Some? ==> q.useRange.value == f.useRange)
  {
    var e := Validate(f);
    SubmitOutcome(e, if NoErrors(e) then Some(Build(f)) else None)
  }

  /** The data-model invariant of a question: a usable name and type, valid choices, an ordered range. */
  predicate WellFormed(q: Question) {
    && !AllWhitespace(q.name) && HasAsciiLetter(q.name)
    && !AllWhitespace(q.questionType)
    && (q.questionType == MultiChoice ==>
          && q.choices.Some?
          && ChoicesAcceptable(q.choices.value)
          && forall k | 0 <= k < |q.choices.value| :: !AllWhitespace(q.choices.value[k]))
    && (q.range.Some? ==> q.range.value.min < q.range.value.max)
  }

  /** Every question the form submits satisfies the data-model invariant. */
  lemma SubmittedIsWellFormed(f: FormState)
    requires Submit(f).submitted.Some?
    ensures WellFormed(Submit(f).submitted.value)
  {
    NonBlankEntries(f.choices);
  }

  /** Opening a submitted question for editing and submitting unchanged gives back the same question. */
  lemma EditRoundTrip(f: FormState)
    requires Submit(f).submitted.Some?
    ensures var q := Submit(f).submitted.value;
      Submit(Load(Some(q))).submitted == Some(q)
  {
    NonBlankIdempotent(f.choices);
    var q := Submit(f).submitted.value;
    var g := Load(Some(q));
    assert Validate(g).choices == Validate(f).choices;
  }

  /** A reset form is not submittable: its name and type are both reported as required. */
  lemma ResetFormNeedsNameAndType()
    ensures var e := Validate(Load(None));
      e.name == Some(NameRequired) && e.questionType == Some(TypeRequired)
    ensures Submit(Load(None)).submitted.None?
  {
  }

  // ---- choice-list edits ----

  predicate HasBlank(cs: seq<string>) {
    exists k | 0 <= k < |cs| :: IsBlank(cs[k])
  }

  /**
    `handleChoiceChange(i, v)`: entry `i` becomes `v`, the others stay, and a
    blank slot is appended when none is left, so one is always there.
  */
  function ChoiceChange(cs: seq<string>, i: int, v: string): (r: seq<string>)
    requires 0 <= i < |cs|
    ensures |r| == |cs| || |r| == |cs| + 1
    ensures r[i] == v
    ensures forall k | 0 <= k < |cs| && k != i :: r[k] == cs[k]
    ensures |r| == |cs| + 1 ==> r[|cs|] == "" && !HasBlank(cs[i := v])
    ensures HasBlank(r)
  {
    var updated := cs[i := v];
    if !HasBlank(updated) then
      assert IsBlank((updated + [""])[|updated|]);
      updated + [""]
    else updated
  }

  /** `addChoice()`: one blank slot more at the end. */
  function AddChoice(cs: seq<string>): (r: seq<string>)
    ensures |r| == |cs| + 1 && r[..|cs|] == cs
    ensures HasBlank(r) && r[|cs|] == ""
  {
    assert IsBlank((cs + [""])[|cs|]);
    cs + [""]
  }

  /** `removeChoice(i)`: drop entry `i`; an emptied list becomes one blank slot, so the list is never empty. */
  function RemoveChoice(cs: seq<string>, i: int): (r: seq<string>)
    ensures |r| > 0
    ensures 0 <= i < |cs| && |cs| > 1 ==> r == cs[..i] + cs[i + 1..]
    ensures 0 <= i < |cs| && |cs| == 1 ==> r == [""]
    ensures !(0 <= i < |cs|) && cs != [] ==> r == cs
    ensures cs == [] ==> r == [""]
  {
    var updated := RemoveAt(cs, i);
    RemoveAtSpec(cs, i);
    if |updated| > 0 then updated else [""]
  }
}
