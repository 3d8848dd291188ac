/**
 * The self-registration wizard (Register): five steps, each with its own
 * validation, a current step that advances only when the step validates,
 * and a final submit that validates again. The form is a map from input
 * name to text. The birth date's year is supplied already parsed (`None`
 * where `new Date` gives an invalid date) and the current year is a
 * parameter, since the source reads the clock.
 */
module Register {
  import opened JsValues
  import Text

  type FormData = map<string, string>

  const TotalSteps: int := 5

  const Step1Missing: string := "Please fill in all required personal information fields."
  const Step1Email: string := "Please enter a valid email address."
  const Step2Missing: string := "Please fill in date of birth and nationality."
  const Step2Age: string := "You must be at least 18 years old to register."
  const Step3Missing: string := "Please fill in all required address fields."
  const Step4Missing: string := "Please select a hire date."
  const Step5Missing: string := "Please enter and confirm your password."
  const Step5Short: string := "Password must be at least 8 characters long."
  const Step5Mismatch: string := "Passwords do not match."

  /** The eighteen inputs of the form, all empty at first. */
  const FieldNames: seq<string> := [
    "firstName", "lastName", "email", "phone", "dateOfBirth", "gender", "nationality",
    "addressLine1", "addressLine2", "city", "state", "postalCode", "hireDate",
    "emergencyContactName", "emergencyContactPhone", "emergencyContactRelationship",
    "password", "confirmPassword"]

  /** Inputs no step looks at. */
  const OptionalFields: set<string> := {
    "gender", "addressLine2", "emergencyContactName", "emergencyContactPhone", "emergencyContactRelationship"}

  function InitialForm(): (f: FormData)
    ensures forall k :: k in f <==> k in FieldNames
    ensures forall k :: k in f ==> f[k] == ""
  {
    map k | k in FieldNames :: ""
  }

  /** The value of an input; one that was never set reads as empty. */
  function Field(form: FormData, name: string): string
  {
    if name in form then form[name] else ""
  }

  // ---------------------------------------------------------------------------
  // The email pattern \S+@\S+\.\S+, searched anywhere in the text
  // ---------------------------------------------------------------------------

  predicate NonSpace(c: char)
  {
    !Text.IsJsWhitespace(c)
  }

  /**
   * A match with its '@' at `at` and its '.' at `dot`: a non-space just
   * before the '@', at least one non-space between them, a non-space after
   * the '.'.
   */
  predicate EmailShapeAt(s: string, at: int, dot: int)
    requires 1 <= at && at + 1 < dot && dot + 1 < |s|
  {
    s[at] == '@' && s[dot] == '.' && NonSpace(s[at - 1]) && NonSpace(s[dot + 1]) &&
    forall k | at < k < dot :: NonSpace(s[k])
  }

  /** `/\S+@\S+\.\S+/.test(s)`: the pattern is not anchored. */
  predicate MatchesEmailPattern(s: string)
  {
    exists at, dot | 1 <= at && at + 1 < dot && dot + 1 < |s| :: EmailShapeAt(s, at, dot)
  }

  /** Any text around a match keeps the match: the pattern only looks for a matching stretch. */
  lemma EmailPatternUnanchored(prefix: string, s: string, suffix: string)
    requires MatchesEmailPattern(s)
    ensures MatchesEmailPattern(prefix + s + suffix)
  {
    var at, dot :| 1 <= at && at + 1 < dot && dot + 1 < |s| && EmailShapeAt(s, at, dot);
    var t := prefix + s + suffix;
    var n := |prefix|;
    assert forall k | 0 <= k < |s| :: t[n + k] == s[k];
    assert EmailShapeAt(t, n + at, n + dot) by {
      forall k | n + at < k < n + dot
        ensures NonSpace(t[k])
      {
        assert t[k] == s[k - n];
      }
    }
  }

  /** A matching text has at least five characters, an '@' and a '.'. */
  lemma EmailPatternNeeds(s: string)
    requires MatchesEmailPattern(s)
    ensures |s| >= 5 && '@' in s && '.' in s
  {
    var at, dot :| 1 <= at && at + 1 < dot && dot + 1 < |s| && EmailShapeAt(s, at, dot);
  }

  lemma EmailPatternExamples()
    ensures MatchesEmailPattern("john@example.com")
    ensures MatchesEmailPattern("not an email: a@b.c")
    ensures !MatchesEmailPattern("john@example")
    ensures !MatchesEmailPattern("a@.c")
  {
    assert EmailShapeAt("john@example.com", 4, 12);
    assert EmailShapeAt("not an email: a@b.c", 15, 17);
    var s := "john@example";
    assert forall j | 0 <= j < |s| :: s[j] != '.';
  }

  // ---------------------------------------------------------------------------
  // validateStep
  // ---------------------------------------------------------------------------

  /**
   * The message `validateStep(step)` sets, or `None` where it passes. Age is
   * the difference of the year numbers; an invalid birth date gives NaN,
   * which is not below 18. Steps outside 1..5 pass.
   */
  function StepError(step: int, form: FormData, birthYear: Option<int>, currentYear: int): (r: Option<string>)
    ensures step == 1 ==> (r.None? <==>
              Field(form, "firstName") != "" && Field(form, "lastName") != "" &&
              Field(form, "email") != "" && Field(form, "phone") != "" &&
              MatchesEmailPattern(Field(form, "email")))
    ensures step == 2 ==> (r.None? <==>
              Field(form, "dateOfBirth") != "" && Field(form, "nationality") != "" &&
              (birthYear.Some? ==> currentYear - birthYear.value >= 18))
    ensures step == 3 ==> (r.None? <==>
              Field(form, "addressLine1") != "" && Field(form, "city") != "" &&
              Field(form, "state") != "" && Field(form, "postalCode") != "")
    ensures step == 4 ==> (r.None? <==> Field(form, "hireDate") != "")
    ensures step == 5 ==> (r.None? <==>
              |Field(form, "password")| >= 8 && Field(form, "password") == Field(form, "confirmPassword"))
    ensures !(1 <= step <= TotalSteps) ==> r.None?
  {
    if step == 1 then
      if Field(form, "firstName") == "" || Field(form, "lastName") == "" ||
         Field(form, "email") == "" || Field(form, "phone") == "" then Some(Step1Missing)
      else if !MatchesEmailPattern(Field(form, "email")) then Some(Step1Email)
      else None
    else if step == 2 then
      if Field(form, "dateOfBirth") == "" || Field(form, "nationality") == "" then Some(Step2Missing)
      else if birthYear.Some? && currentYear - birthYear.value < 18 then Some(Step2Age)
      else None
    else if step == 3 then
      if Field(form, "addressLine1") == "" || Field(form, "city") == "" ||
         Field(form, "state") == "" || Field(form, "postalCode") == "" then Some(Step3Missing)
      else None
    else if step == 4 then
      if Field(form, "hireDate") == "" then Some(Step4Missing)
      else None
    else if step == 5 then
      if Field(form, "password") == "" || Field(form, "confirmPassword") == "" then Some(Step5Missing)
      else if |Field(form, "password")| < 8 then Some(Step5Short)
      else if Field(form, "password") != Field(form, "confirmPassword") then Some(Step5Mismatch)
      else None
    else None
  }

  /** The password checks come in order: missing, then too short, then different. */
  lemma PasswordMessages(form: FormData, birthYear: Option<int>, currentYear: int)
    ensures Field(form, "password") == "" ==> StepError(5, form, birthYear, currentYear) == Some(Step5Missing)
    ensures Field(form, "password") != "" && Field(form, "confirmPassword") != "" && |Field(form, "password")| < 8 ==>
              StepError(5, form, birthYear, currentYear) == Some(Step5Short)
    ensures Field(form, "confirmPassword") != "" && |Field(form, "password")| >= 8 &&
            Field(form, "password") != Field(form, "confirmPassword") ==>
              StepError(5, form, birthYear, currentYear) == Some(Step5Mismatch)
  {
  }

  /** Step 1 reports missing fields before a malformed email. */
  lemma PersonalMessages(form: FormData, birthYear: Option<int>, currentYear: int)
    ensures Field(form, "phone") == "" ==> StepError(1, form, birthYear, currentYear) == Some(Step1Missing)
    ensures Field(form, "firstName") != "" && Field(form, "lastName") != "" && Field(form, "phone") != "" &&
            Field(form, "email") == "john@example" ==>
              StepError(1, form, birthYear, currentYear) == Some(Step1Email)
  {
    EmailPatternExamples();
  }

  /** Only the year counts: someone turning 18 later this year already passes; 17 fails. */
  lemma AgeIsYearDifference(form: FormData, currentYear: int)
    requires Field(form, "dateOfBirth") != "" && Field(form, "nationality") != ""
    ensures StepError(2, form, Some(currentYear - 18), currentYear).None?
    ensures StepError(2, form, Some(currentYear - 17), currentYear) == Some(Step2Age)
    ensures StepError(2, form, None, currentYear).None?
  {
  }

  /** The optional inputs never change any step's verdict. */
  lemma OptionalFieldsDoNotMatter(step: int, form: FormData, name: string, value: string,
                                  birthYear: Option<int>, currentYear: int)
    requires name in OptionalFields
    ensures StepError(step, form[name := value], birthYear, currentYear) == StepError(step, form, birthYear, currentYear)
  {
    var f := form[name := value];
    forall k | k in RequiredFields
      ensures Field(f, k) == Field(form, k)
    {
      assert k !in OptionalFields;
    }
    RequiredFieldsDecide(step, f, form, birthYear, currentYear);
  }

  /** The fields some step checks. */
  const RequiredFields: set<string> :=
    {"firstName", "lastName", "email", "phone", "dateOfBirth", "nationality",
     "addressLine1", "city", "state", "postalCode", "hireDate", "password", "confirmPassword"}

  /** Only the checked fields decide a step: forms that agree on them get the same verdict. */
  lemma RequiredFieldsDecide(step: int, a: FormData, b: FormData, birthYear: Option<int>, currentYear: int)
    requires forall k :: k in RequiredFields ==> Field(a, k) == Field(b, k)
    ensures StepError(step, a, birthYear, currentYear) == StepError(step, b, birthYear, currentYear)
  {
    assert Field(a, "firstName") == Field(b, "firstName") && Field(a, "lastName") == Field(b, "lastName");
    assert Field(a, "email") == Field(b, "email") && Field(a, "phone") == Field(b, "phone");
    assert Field(a, "dateOfBirth") == Field(b, "dateOfBirth") && Field(a, "nationality") == Field(b, "nationality");
    assert Field(a, "addressLine1") == Field(b, "addressLine1") && Field(a, "city") == Field(b, "city");
    assert Field(a, "state") == Field(b, "state") && Field(a, "postalCode") == Field(b, "postalCode");
    assert Field(a, "hireDate") == Field(b, "hireDate") && Field(a, "password") == Field(b, "password");
    assert Field(a, "confirmPassword") == Field(b, "confirmPassword");
  }

  /** The empty form fails every step. */
  lemma EmptyFormFailsEveryStep(step: int, birthYear: Option<int>, currentYear: int)
    requires 1 <= step <= TotalSteps
    ensures StepError(step, InitialForm(), birthYear, currentYear).Some?
  {
    assert "firstName" in FieldNames && "dateOfBirth" in FieldNames && "addressLine1" in FieldNames;
    assert "hireDate" in FieldNames && "password" in FieldNames;
  }

  // ---------------------------------------------------------------------------
  // The wizard
  // ---------------------------------------------------------------------------

  class RegisterWizard {
    /** Year of `new Date(dateOfBirth)`, `None` for an invalid date. */
    const yearOf: string -> Option<int>

    var formData: FormData
    var error: string
    var currentStep: int
    var isLoading: bool

    /** The Back and Continue buttons keep the step within 1..5. */
    ghost predicate Valid()
      reads this
    {
      1 <= currentStep <= TotalSteps
    }

    function CurrentError(currentYear: int): Option<string>
      reads this
    {
      StepError(currentStep, formData, yearOf(Field(formData, "dateOfBirth")), currentYear)
    }

    constructor(yearOf: string -> Option<int>)
      ensures Valid()
      ensures this.yearOf == yearOf
      ensures formData == InitialForm() && error == "" && currentStep == 1 && !isLoading
    {
      this.yearOf := yearOf;
      formData := InitialForm();
      error := "";
      currentStep := 1;
      isLoading := false;
    }

    /** `handleInputChange`: set one input, keep the rest. */
    method HandleInputChange(name: string, value: string)
      modifies this
      ensures formData == old(formData)[name := value]
      ensures error == old(error) && currentStep == old(currentStep) && isLoading == old(isLoading)
    {
      formData := formData[name := value];
    }

    /** `handleGenderChange`. */
    method HandleGenderChange(value: string)
      modifies this
      ensures formData == old(formData)["gender" := value]
      ensures error == old(error) && currentStep == old(currentStep) && isLoading == old(isLoading)
    {
      formData := formData["gender" := value];
    }

    /** `validateStep(currentStep)`: sets or clears the error and reports the verdict. */
    method ValidateStep(currentYear: int) returns (ok: bool)
      modifies this
      ensures ok <==> old(CurrentError(currentYear)).None?
      ensures error == if ok then "" else old(CurrentError(currentYear)).value
      ensures formData == old(formData) && currentStep == old(currentStep) && isLoading == old(isLoading)
    {
      var message := StepError(currentStep, formData, yearOf(Field(formData, "dateOfBirth")), currentYear);
      if message.Some? {
        error := message.value;
        ok := false;
      } else {
        error := "";
        ok := true;
      }
    }

    /** `handleNext`, reachable through Continue, which shows only below step 5. */
    method HandleNext(currentYear: int)
      requires Valid() && currentStep < TotalSteps
      modifies this
      ensures Valid()
      ensures currentStep == old(currentStep) + (if old(CurrentError(currentYear)).None? then 1 else 0)
      ensures error == if old(CurrentError(currentYear)).None? then "" else old(CurrentError(currentYear)).value
      ensures formData == old(formData) && isLoading == old(isLoading)
    {
      var ok := ValidateStep(currentYear);
      if ok {
        currentStep := currentStep + 1;
      }
    }

    /** `handleBack`, reachable through Back, which shows only above step 1; it does not validate. */
    method HandleBack()
      requires Valid() && currentStep > 1
      modifies this
      ensures Valid()
      ensures currentStep == old(currentStep) - 1 && error == ""
      ensures formData == old(formData) && isLoading == old(isLoading)
    {
      error := "";
      currentStep := currentStep - 1;
    }

    /** `handleSubmit`: re-validate the current step, then go to the sign-in page; loading ends false. */
    method HandleSubmit(currentYear: int) returns (navigateTo: Option<string>)
      modifies this
      ensures navigateTo == (if old(CurrentError(currentYear)).None? then Some("/login") else None)
      ensures error == if old(CurrentError(currentYear)).None? then "" else old(CurrentError(currentYear)).value
      ensures !old(CurrentError(currentYear)).None? ==> isLoading == old(isLoading)
      ensures old(CurrentError(currentYear)).None? ==> !isLoading
      ensures formData == old(formData) && currentStep == old(currentStep)
    {
      var ok := ValidateStep(currentYear);
      if !ok {
        navigateTo := None;
        return;
      }
      isLoading := true;
      navigateTo := Some("/login");
      isLoading := false;
    }
  }
}
