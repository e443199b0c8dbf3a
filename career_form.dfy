/**
 * The career assessment form: a record of three required select fields, an
 * optional goal and two multi-select lists, the updaters the page applies to it,
 * the validity test that enables the submit button, and the submit handler that
 * latches `isSubmitting`, stores the record and schedules the move to the
 * loading screen.
 */
module CareerForm {
  import opened Selection
  import opened Browser

  /** The key the submit handler writes the record under. */
  const StorageKey := "careerFormData"

  datatype FormData = FormData(
    currentRole: string,
    experienceLevel: string,
    industry: string,
    selectedSkills: seq<string>,
    selectedInterests: seq<string>,
    careerGoals: string)

  /** The four single-value selects of the form. */
  datatype SelectField = CurrentRole | ExperienceLevel | Industry | CareerGoals

  function InitialFormData(): FormData
  {
    FormData("", "", "", [], [], "")
  }

  /** The value a select field currently shows. */
  function FieldValue(f: FormData, field: SelectField): string
  {
    match field
    case CurrentRole => f.currentRole
    case ExperienceLevel => f.experienceLevel
    case Industry => f.industry
    case CareerGoals => f.careerGoals
  }

  /** `isFormValid`: the three required selects hold a value and each list holds
      at least one item; the optional goal plays no part. */
  predicate IsFormValid(f: FormData)
  {
    f.currentRole != "" && f.experienceLevel != "" && f.industry != ""
    && |f.selectedSkills| > 0 && |f.selectedInterests| > 0
  }

  /** The record the form starts from: nothing chosen. */
  lemma InitialIsEmptyAndInvalid()
    ensures forall field :: FieldValue(InitialFormData(), field) == ""
    ensures InitialFormData().selectedSkills == [] && InitialFormData().selectedInterests == []
    ensures !IsFormValid(InitialFormData())
  {
  }

  /** Validity is exactly "all required values present": dropping any one of them
      makes the record invalid, and the optional goal never matters. */
  lemma IsFormValidCharacterised(f: FormData, goal: string)
    ensures IsFormValid(f) <==>
      (forall field :: field != CareerGoals ==> FieldValue(f, field) != "")
      && |f.selectedSkills| >= 1 && |f.selectedInterests| >= 1
    ensures IsFormValid(f.(careerGoals := goal)) == IsFormValid(f)
  {
    if !IsFormValid(f) {
      if f.currentRole == "" {
        assert FieldValue(f, CurrentRole) == "";
      } else if f.experienceLevel == "" {
        assert FieldValue(f, ExperienceLevel) == "";
      } else if f.industry == "" {
        assert FieldValue(f, Industry) == "";
      }
    }
  }

  /** The select handler `(prev) => ({ ...prev, <field>: value })`. */
  function SetField(f: FormData, field: SelectField, value: string): (g: FormData)
    ensures FieldValue(g, field) == value
    ensures forall other :: other != field ==> FieldValue(g, other) == FieldValue(f, other)
    ensures g.selectedSkills == f.selectedSkills && g.selectedInterests == f.selectedInterests
  {
    match field
    case CurrentRole => f.(currentRole := value)
    case ExperienceLevel => f.(experienceLevel := value)
    case Industry => f.(industry := value)
    case CareerGoals => f.(careerGoals := value)
  }

  /** `handleSkillToggle`: flips the membership of `skill` and of nothing else;
      every other field is as it was. */
  function ToggleSkill(f: FormData, skill: string): (g: FormData)
    ensures g == f.(selectedSkills := g.selectedSkills)
    ensures skill in g.selectedSkills <==> skill !in f.selectedSkills
    ensures forall s :: s != skill ==> (s in g.selectedSkills <==> s in f.selectedSkills)
  {
    f.(selectedSkills := Toggle(f.selectedSkills, skill))
  }

  /** `handleInterestToggle`: as ToggleSkill, on the interests. */
  function ToggleInterest(f: FormData, interest: string): (g: FormData)
    ensures g == f.(selectedInterests := g.selectedInterests)
    ensures interest in g.selectedInterests <==> interest !in f.selectedInterests
    ensures forall s :: s != interest ==> (s in g.selectedInterests <==> s in f.selectedInterests)
  {
    f.(selectedInterests := Toggle(f.selectedInterests, interest))
  }

  /** `removeSkill`: `skill` is gone, every other skill keeps its multiplicity,
      every other field is as it was. */
  function RemoveSkill(f: FormData, skill: string): (g: FormData)
    ensures g == f.(selectedSkills := g.selectedSkills)
    ensures skill !in g.selectedSkills
    ensures multiset(g.selectedSkills) == multiset(f.selectedSkills)[skill := 0]
  {
    f.(selectedSkills := Without(f.selectedSkills, skill))
  }

  /** `removeInterest`: as RemoveSkill, on the interests. */
  function RemoveInterest(f: FormData, interest: string): (g: FormData)
    ensures g == f.(selectedInterests := g.selectedInterests)
    ensures interest !in g.selectedInterests
    ensures multiset(g.selectedInterests) == multiset(f.selectedInterests)[interest := 0]
  {
    f.(selectedInterests := Without(f.selectedInterests, interest))
  }

  /** Removing the only selected skill makes a valid record invalid again. */
  lemma RemovingLastSkillInvalidates(f: FormData, skill: string)
    requires IsFormValid(f) && f.selectedSkills == [skill]
    ensures !IsFormValid(RemoveSkill(f, skill))
    ensures !IsFormValid(ToggleSkill(f, skill))
  {
    assert RemoveSkill(f, skill).selectedSkills == [];
    assert ToggleSkill(f, skill).selectedSkills == [];
  }

  /** The form screen's state. */
  class CareerFormPage {
    var formData: FormData
    var isSubmitting: bool
    /** The one-second timer set by the submit handler, after which the page
        navigates to the loading screen. */
    var redirectPending: bool

    /** Both lists are duplicate-free (every updater keeps them so), and the
        redirect is only ever scheduled by a submission. */
    ghost predicate Valid()
      reads this
    {
      NoDups(formData.selectedSkills) && NoDups(formData.selectedInterests)
      && (redirectPending ==> isSubmitting)
    }

    constructor ()
      ensures Valid()
      ensures formData == InitialFormData() && !isSubmitting && !redirectPending
    {
      formData := InitialFormData();
      isSubmitting := false;
      redirectPending := false;
    }

    /** `disabled={!isFormValid || isSubmitting}` on the submit button. */
    predicate SubmitDisabled()
      reads this
    {
      !IsFormValid(formData) || isSubmitting
    }

    method HandleSkillToggle(skill: string)
      requires Valid()
      modifies this
      ensures Valid()
      ensures formData == ToggleSkill(old(formData), skill)
      ensures isSubmitting == old(isSubmitting) && redirectPending == old(redirectPending)
    {
      ToggleKeepsNoDups(formData.selectedSkills, skill);
      formData := ToggleSkill(formData, skill);
    }

    method HandleInterestToggle(interest: string)
      requires Valid()
      modifies this
      ensures Valid()
      ensures formData == ToggleInterest(old(formData), interest)
      ensures isSubmitting == old(isSubmitting) && redirectPending == old(redirectPending)
    {
      ToggleKeepsNoDups(formData.selectedInterests, interest);
      formData := ToggleInterest(formData, interest);
    }

    method HandleRemoveSkill(skill: string)
      requires Valid()
      modifies this
      ensures Valid()
      ensures formData == RemoveSkill(old(formData), skill)
      ensures isSubmitting == old(isSubmitting) && redirectPending == old(redirectPending)
    {
      WithoutKeepsNoDups(formData.selectedSkills, skill);
      formData := RemoveSkill(formData, skill);
    }

    method HandleRemoveInterest(interest: string)
      requires Valid()
      modifies this
      ensures Valid()
      ensures formData == RemoveInterest(old(formData), interest)
      ensures isSubmitting == old(isSubmitting) && redirectPending == old(redirectPending)
    {
      WithoutKeepsNoDups(formData.selectedInterests, interest);
      formData := RemoveInterest(formData, interest);
    }

    /** `onValueChange` of one of the four selects. */
    method HandleSelect(field: SelectField, value: string)
      requires Valid()
      modifies this
      ensures Valid()
      ensures formData == SetField(old(formData), field, value)
      ensures isSubmitting == old(isSubmitting) && redirectPending == old(redirectPending)
    {
      formData := SetField(formData, field, value);
    }

    /** A submit event. The handler itself checks nothing: a disabled submit
        button is what keeps an invalid or repeated submission from reaching it,
        so a disabled form is left as it is. An enabled one latches
        `isSubmitting`, stores the current record and schedules the redirect. */
    method Submit(store: LocalStore<FormData>) returns (accepted: bool)
      requires Valid()
      modifies this, store
      ensures Valid()
      ensures accepted == !old(SubmitDisabled())
      ensures formData == old(formData)
      ensures accepted ==> isSubmitting && redirectPending
      ensures accepted ==> store.entries == old(store.entries)[StorageKey := formData]
      ensures accepted ==> IsFormValid(store.entries[StorageKey])
      ensures !accepted ==> isSubmitting == old(isSubmitting) && redirectPending == old(redirectPending)
      ensures !accepted ==> store.entries == old(store.entries)
    {
      if SubmitDisabled() {
        return false;
      }
      isSubmitting := true;
      store.SetItem(StorageKey, formData);
      redirectPending := true;
      accepted := true;
    }

    /** The submit handler's timer fires: the page navigates to the loading screen. */
    method RedirectTimerFires() returns (target: Option<Route>)
      requires Valid()
      modifies this
      ensures Valid()
      ensures target == if old(redirectPending) then Some(LoadingRoute) else None
      ensures !redirectPending
      ensures formData == old(formData) && isSubmitting == old(isSubmitting)
    {
      target := if redirectPending then Some(LoadingRoute) else None;
      redirectPending := false;
    }
  }

  /** Two submit events in a row: the second is always refused, either because
      the first latched `isSubmitting` or because the form was not submittable,
      and only the first can have written the store. */
  method SubmitTwice(form: CareerFormPage, store: LocalStore<FormData>) returns (first: bool, second: bool)
    requires form.Valid()
    modifies form, store
    ensures first == !old(form.SubmitDisabled())
    ensures !second
    ensures first ==> store.entries == old(store.entries)[StorageKey := old(form.formData)]
    ensures !first ==> store.entries == old(store.entries)
  {
    first := form.Submit(store);
    second := form.Submit(store);
  }

  /** On the page's reachable states a selected skill toggled off and on again
      comes back with the same multiset of skills (no skill lost or doubled),
      but as the last entry of the list. */
  method ToggleSelectedSkillTwice(form: CareerFormPage, skill: string)
    requires form.Valid() && skill in form.formData.selectedSkills
    modifies form
    ensures form.Valid()
    ensures multiset(form.formData.selectedSkills) == multiset(old(form.formData.selectedSkills))
    ensures form.formData.selectedSkills == Without(old(form.formData.selectedSkills), skill) + [skill]
    ensures form.formData == old(form.formData).(selectedSkills := form.formData.selectedSkills)
    ensures form.isSubmitting == old(form.isSubmitting) && form.redirectPending == old(form.redirectPending)
  {
    ToggleTwicePresent(form.formData.selectedSkills, skill);
    form.HandleSkillToggle(skill);
    form.HandleSkillToggle(skill);
  }
}
