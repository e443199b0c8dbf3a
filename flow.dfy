/**
 * The hand-off between the three screens: the form writes its record to the
 * store and moves to the progress screen, which moves on to the results, which
 * read the record back from the store.
 */
module Flow {
  import opened Browser
  import opened CareerForm
  import Loading
  import Results

  /** The form writes and the results screen reads under the same key. */
  lemma StorageKeysAgree()
    ensures CareerForm.StorageKey == Results.StorageKey
  {
  }

  /** A submitted form, followed by the progress screen and the results screen:
      the results screen shows the report for exactly the record the form held
      when it was submitted. The progress counters play no part: the progress
      screen is left at its first redirect, whatever they show. */
  method SubmitAndShowResults(form: CareerFormPage, store: LocalStore<FormData>)
    returns (results: Results.ResultsPage)
    requires form.Valid() && !form.SubmitDisabled()
    modifies form, store
    ensures fresh(results) && results.Valid()
    ensures results.formData == Some(old(form.formData))
    ensures results.View() == Results.ReportView(Results.Summarize(old(form.formData)),
                                                 |old(form.formData).selectedSkills|)
  {
    var accepted := form.Submit(store);
    var next := form.RedirectTimerFires();
    assert next == Some(LoadingRoute);

    var progress := new Loading.LoadingPage();
    progress.StepTick();
    progress.ProgressTick();
    next := progress.RedirectTimerFires();
    assert next == Some(ResultsRoute);
    progress.Cleanup();

    results := new Results.ResultsPage();
    StorageKeysAgree();
    results.TimerFires(store);
  }

  /** A first visit to the results screen with nothing stored ends in the
      fallback that links back to the form. */
  method VisitResultsWithoutData(store: LocalStore<FormData>) returns (results: Results.ResultsPage)
    requires Results.StorageKey !in store.entries
    ensures fresh(results)
    ensures results.View() == Results.NoDataView(CareerFormRoute)
  {
    results := new Results.ResultsPage();
    results.TimerFires(store);
  }

  /** A record left in the store by an earlier visit is shown like a fresh one. */
  method VisitResultsWithStaleData(store: LocalStore<FormData>) returns (results: Results.ResultsPage)
    requires Results.StorageKey in store.entries
    ensures fresh(results)
    ensures results.View() == Results.SelectView(false, Some(store.entries[Results.StorageKey]))
  {
    results := new Results.ResultsPage();
    results.TimerFires(store);
  }

  /** The example assessment entered through the form's handlers, one
      selection at a time. */
  method FillExampleForm() returns (form: CareerFormPage)
    ensures fresh(form) && form.Valid() && !form.SubmitDisabled()
    ensures form.formData == FormData("manager", "4-6", "technology", ["Python", "Leadership"],
                                      ["Data Science"], "promotion")
  {
    form := new CareerFormPage();
    form.HandleSelect(CurrentRole, "manager");
    form.HandleSelect(ExperienceLevel, "4-6");
    form.HandleSelect(Industry, "technology");
    assert form.formData == FormData("manager", "4-6", "technology", [], [], "");
    form.HandleSkillToggle("Python");
    assert form.formData.selectedSkills == [] + ["Python"];
    assert "Leadership" !in ["Python"];
    form.HandleSkillToggle("Leadership");
    assert form.formData.selectedSkills == ["Python"] + ["Leadership"];
    form.HandleInterestToggle("Data Science");
    assert form.formData.selectedInterests == [] + ["Data Science"];
    form.HandleSelect(CareerGoals, "promotion");
  }

  /** The example assessment, submitted into an empty store and read back by the
      results screen: the summary echoes the record. */
  method ExampleAssessment() returns (shown: Results.View)
    ensures shown.ReportView?
    ensures shown.summary.roleLabel == "manager"
    ensures shown.summary.experience == "4-6" + " years"
    ensures shown.summary.industry == "technology"
    ensures shown.summary.skillCount == 2
  {
    var form := FillExampleForm();
    var record := form.formData;
    var store := new LocalStore<FormData>(map[]);
    var results := SubmitAndShowResults(form, store);
    shown := results.View();
    assert shown.summary == Results.Summarize(record);
    Results.ManagerLabel();
  }
}
