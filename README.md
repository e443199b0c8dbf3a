# Career assessment flow: a Dafny model

This project models the state logic of a three-screen career-advisor web flow.

1. **Assessment form.** It holds a record of three required selects (current role, experience level, industry), an optional career goal, and two multi-select lists (skills and interests). Checkbox toggles and badge removals update the lists. A validity test enables the submit button. The submit handler latches `isSubmitting`, writes the record to `localStorage` under `"careerFormData"` and schedules the move to the progress screen.
2. **Progress screen.** Two independent interval timers drive two counters. The step index advances to the last of four steps and stays there. The percentage climbs by 2 and stops once it reaches 100. The display clamps it with `Math.min(progress, 100)`. A one-shot timer moves on to the results whatever the counters show. Cleanup clears all three timers.
3. **Results screen.** After a delay it reads the stored record. With no record it shows a fallback that links back to the form; otherwise it shows the report. The report's profile summary echoes the record, with the role label's first hyphen replaced by a space and the number of selected skills.

Files, one module each:

- `browser.dfy` (`Browser`): `Option`, the three routes, and the key-value store as a class `LocalStore` with `SetItem`/`GetItem`.
- `selection.dfy` (`Selection`): the list operations `Without` (the `filter`) and `Toggle` (the includes-filter-or-append), with lemmas about their effect on membership, duplicates, order and the result of applying them twice.
- `career_form.dfy` (`CareerForm`): the `FormData` record, the updaters as functions, `IsFormValid`, and the screen as a class `CareerFormPage` whose handlers are methods.
- `loading.dfy` (`Loading`): the counter updaters, their closed forms after k ticks, the step-row statuses, and the screen as a class `LoadingPage` with tick, redirect and cleanup methods.
- `results.dfy` (`Results`): the first-hyphen replacement, the summary, the view selection, and the screen as a class `ResultsPage`.
- `flow.dfy` (`Flow`): the hand-off from form to results through the store, and the example assessment.

Timers are modelled as events. Each tick, timeout or cleanup is a method call, and the tick of a cleared timer changes nothing. Navigation (`router.push`) is modelled as a returned `Route`. The store holds records rather than JSON text, so serialising a record and parsing it back gives the same record.

In two places the code behaves differently from what a set-based description of the form suggests, and the model follows the code:

- The selections are arrays, not sets. Toggling a present item off and on again restores the same set of items, but that item moves to the end of the list (`Selection.ToggleTwicePresent`, `Selection.ToggleTwiceReorders`).
- The submit handler itself has no guard. A second or an invalid submission is blocked only by the `disabled` attribute of the submit button. `CareerFormPage.Submit` therefore models a submit event that is refused while the button is disabled.

## Model

| member | source | states |
|---|---|---|
| `Selection.Without` | app/career-form/page.tsx:95-107 | filtering drops every occurrence of the item and keeps every other element with its multiplicity; the item is absent afterwards |
| `Selection.Toggle` | app/career-form/page.tsx:77-93 | membership of the toggled item flips and every other item keeps its membership; an absent item is appended after the unchanged old list; a present item loses all its occurrences and nothing else |
| `Selection.WithoutIsSubsequence` | app/career-form/page.tsx:98 | the filtered list keeps the surviving elements in their original order |
| `Selection.WithoutKeepsNoDups` | app/career-form/page.tsx:95-107 | removing an item from a duplicate-free list leaves it duplicate-free |
| `Selection.WithoutIdempotent` | app/career-form/page.tsx:95-107 | removing the same item twice is the same as removing it once |
| `Selection.WithoutNeverAdds` | app/career-form/page.tsx:95-107 | removal never lengthens the list, never adds an element, and keeps the order |
| `Selection.ToggleKeepsNoDups` | app/career-form/page.tsx:77-93 | toggling keeps a duplicate-free selection duplicate-free |
| `Selection.TogglePresentKeepsOrder` | app/career-form/page.tsx:80-81 | toggling a present item off keeps the remaining items in order |
| `Selection.ToggleTwiceAbsent` | app/career-form/page.tsx:80-82 | toggling an absent item twice restores the list exactly |
| `Selection.ToggleTwicePresent` | app/career-form/page.tsx:80-82 | toggling a present item twice gives the filtered list with the item appended: the same elements, and for a duplicate-free list the same multiset, but the item is now last |
| `Selection.ToggleTwiceReorders` | app/career-form/page.tsx:80-82 | on ["Python", "Leadership"], toggling "Python" twice gives ["Leadership", "Python"] |
| `CareerForm.InitialIsEmptyAndInvalid` | app/career-form/page.tsx:68-75 | the initial record (`InitialFormData`) has every select empty and both lists empty, and it is not valid |
| `CareerForm.IsFormValidCharacterised` | app/career-form/page.tsx:122-127 | `IsFormValid` holds of a record iff every required select is non-empty and both lists have at least one item; the career goal never affects validity |
| `CareerForm.SetField` | app/career-form/page.tsx:177-303 | a select update sets its own field to the chosen value and leaves the other three selects and both lists as they were |
| `CareerForm.ToggleSkill` | app/career-form/page.tsx:77-84 | only the skills list changes; the toggled skill's membership flips and every other skill keeps its membership |
| `CareerForm.ToggleInterest` | app/career-form/page.tsx:86-93 | only the interests list changes; the toggled interest's membership flips and every other interest keeps its membership |
| `CareerForm.RemoveSkill` | app/career-form/page.tsx:95-100 | only the skills list changes; the skill is gone and every other skill keeps its multiplicity |
| `CareerForm.RemoveInterest` | app/career-form/page.tsx:102-107 | only the interests list changes; the interest is gone and every other interest keeps its multiplicity |
| `CareerForm.RemovingLastSkillInvalidates` | app/career-form/page.tsx:122-127 | removing or toggling off the only selected skill makes a valid record invalid |
| `CareerForm.CareerFormPage.constructor` | app/career-form/page.tsx:67-75 | the form starts from the empty record, not submitting, with no redirect pending |
| `CareerForm.CareerFormPage.HandleSkillToggle` | app/career-form/page.tsx:77-84 | the record becomes ToggleSkill of the old one; the lists stay duplicate-free; the latch and the redirect are untouched |
| `CareerForm.CareerFormPage.HandleInterestToggle` | app/career-form/page.tsx:86-93 | the record becomes ToggleInterest of the old one; the lists stay duplicate-free; the latch and the redirect are untouched |
| `CareerForm.CareerFormPage.HandleRemoveSkill` | app/career-form/page.tsx:95-100 | the record becomes RemoveSkill of the old one; the lists stay duplicate-free |
| `CareerForm.CareerFormPage.HandleRemoveInterest` | app/career-form/page.tsx:102-107 | the record becomes RemoveInterest of the old one; the lists stay duplicate-free |
| `CareerForm.CareerFormPage.HandleSelect` | app/career-form/page.tsx:177-303 | the record becomes SetField of the old one; nothing else changes |
| `CareerForm.CareerFormPage.Submit` | app/career-form/page.tsx:109-119 | a submission is accepted iff the button is enabled (`SubmitDisabled`, line 324: valid and not submitting); if accepted, `isSubmitting` is latched, the redirect is scheduled and the store gains the current, valid record under "careerFormData" with all other entries kept; if refused, nothing changes |
| `CareerForm.CareerFormPage.RedirectTimerFires` | app/career-form/page.tsx:117-119 | the submit timer leads to the loading route exactly when a submission scheduled it |
| `CareerForm.SubmitTwice` | app/career-form/page.tsx:321-325 | of two submit events in a row the second is always refused, and only the first can write the store: if it is refused too, the store is unchanged |
| `CareerForm.ToggleSelectedSkillTwice` | app/career-form/page.tsx:77-84 | on the page's reachable (duplicate-free) states, toggling a selected skill twice keeps the multiset of skills, every other field, `isSubmitting` and the pending redirect, but the list becomes the others in their order followed by the skill |
| `Loading.NextStepBounded` | app/loading/page.tsx:21-28 | a step tick (`NextStep`, the updater at lines 22-27) from an in-range index never lowers it, never passes the last step, and leaves it unchanged exactly at the last step |
| `Loading.StepAfterTicks` | app/loading/page.tsx:17-28 | starting from 0, the step index after k ticks is min(k, 3) |
| `Loading.ProgressAfterTicks` | app/loading/page.tsx:30-37 | starting from 0, the progress after k applications of `NextProgress` (the updater at lines 31-36) is min(2k, 100), so it is even and at most 100 |
| `Loading.CountersMonotone` | app/loading/page.tsx:21-37 | neither counter ever decreases as ticks accumulate |
| `Loading.DisplayedProgress` | app/loading/page.tsx:67-69 | the shown value is in [0, 100], never above the counter, and equals the counter up to 100 |
| `Loading.ProgressOvershootsFromOdd` | app/loading/page.tsx:30-37 | from an odd value the updater can pass 100 (99 becomes 101), which the display clamps to 100 |
| `Loading.StatusOf` | app/loading/page.tsx:75-76 | a row is active iff its index is the current step, completed iff its index is below it, and pending otherwise, so active and completed never coincide |
| `Loading.StatusesAt` | app/loading/page.tsx:73-76 | there is one status per step row, and each row's status is computed from its own index and the current step alone |
| `Loading.ActiveCount` | app/loading/page.tsx:75 | among the first n rows exactly one is active when the current step is below n, and none otherwise |
| `Loading.CompletedCount` | app/loading/page.tsx:76 | among the first n rows exactly min(current, n) are completed |
| `Loading.ExactlyOneActive` | app/loading/page.tsx:73-76 | with the step in range, exactly one of the four rows is active and exactly `currentStep` are completed |
| `Loading.LoadingPage.constructor` | app/loading/page.tsx:17-41 | mounting starts both counters at 0 and sets both intervals and the redirect timeout |
| `Loading.LoadingPage.StepTick` | app/loading/page.tsx:21-28 | a live step tick applies the updater and a cleared one does nothing; the index never decreases and stays at most 3; the progress and the timers are untouched |
| `Loading.LoadingPage.ProgressTick` | app/loading/page.tsx:30-37 | a live progress tick applies the updater and a cleared one does nothing; the value never decreases and stays even and at most 100; the step and the timers are untouched |
| `Loading.LoadingPage.RedirectTimerFires` | app/loading/page.tsx:39-41 | the timeout leads to the results route whatever the counters show, and the counters are left unchanged |
| `Loading.LoadingPage.Cleanup` | app/loading/page.tsx:43-47 | cleanup clears both intervals and the timeout and leaves the counters unchanged |
| `Loading.LoadingPage.Shown` | app/loading/page.tsx:67-69 | on the screen's reachable states the displayed percentage equals the counter and is at most 100 |
| `Loading.LoadingPage.StepRows` | app/loading/page.tsx:73-76 | the screen draws four rows, exactly one active and exactly `currentStep` completed |
| `Results.ReplaceFirst` | app/results/page.tsx:243 | the result has the input's length, the first occurrence of the pattern character is replaced, and every other position is unchanged |
| `Results.RoleLabelAt` | app/results/page.tsx:243 | when the first hyphen is at index i, `RoleLabel` (`currentRole.replace("-", " ")`) is the role with that one hyphen turned into a space |
| `Results.RoleLabelReplacesFirstHyphen` | app/results/page.tsx:243 | a role without a hyphen is shown unchanged; otherwise the label has exactly one hyphen fewer and one space more |
| `Results.EntryLevelLabel` | app/results/page.tsx:243 | "entry-level" is shown as "entry level" |
| `Results.ManagerLabel` | app/results/page.tsx:243 | "manager", a role without a hyphen, is shown unchanged |
| `Results.TwoHyphensLabel` | app/results/page.tsx:243 | in "x-y-z" only the first hyphen is replaced, giving "x y-z" |
| `Results.SummaryShowsOnlyProfile` | app/results/page.tsx:240-261 | the summary card (`Summarize`) depends on the role, experience, industry and the number of skills only: changing which skills, the interests or the goal leaves it unchanged, while two records with the same card agree on experience, industry and skill count |
| `Results.SelectView` | app/results/page.tsx:54-88 | the spinner is shown iff loading; the fallback with its link to the form is shown iff loading has ended with no record; otherwise the report is shown, with the record's summary and the selected-skill count as the M of "N of M" |
| `Results.ResultsPage.constructor` | app/results/page.tsx:38-39 | the screen starts loading with no record and the delay timer set, and shows only the loading view |
| `Results.ResultsPage.TimerFires` | app/results/page.tsx:43-49 | when the delay ends, loading ends in every case; the record is taken from the store only when an entry exists under "careerFormData"; the report is shown iff there is one |
| `Results.ResultsPage.Cleanup` | app/results/page.tsx:51 | cleanup clears the delay timer and changes nothing else |
| `Browser.LocalStore.SetItem` | app/career-form/page.tsx:114 | writing overwrites the entry under the key and keeps all others: afterwards `GetItem` (`getItem`, app/results/page.tsx:44) reads back the written value under the key, and every other key reads as before |
| `Flow.StorageKeysAgree` | app/results/page.tsx:44 | the results screen reads under the key the form writes under (app/career-form/page.tsx:114) |
| `Flow.SubmitAndShowResults` | app/results/page.tsx:41-52 | after an enabled submission, the progress screen and the results delay, the results screen holds exactly the submitted record and shows its report |
| `Flow.VisitResultsWithoutData` | app/results/page.tsx:70-88 | with nothing stored, the results screen ends on the fallback linking to the form |
| `Flow.VisitResultsWithStaleData` | app/results/page.tsx:43-49 | an entry left in the store by an earlier visit is shown like a fresh submission |
| `Flow.FillExampleForm` | app/career-form/page.tsx:77-303 | entering manager / 4-6 / technology, the skills Python and Leadership, the interest Data Science and the goal promotion through the handlers yields exactly that record, and submit is enabled |
| `Flow.ExampleAssessment` | app/results/page.tsx:240-261 | that record, submitted and read back, is reported as role "manager", experience "4-6 years", industry "technology" and 2 skills |

## Left out

- JSON serialisation is not modelled: the store holds records, and `JSON.stringify` followed by `JSON.parse` is taken to give back the same record. A stored value that is not valid JSON is therefore not represented. As written, `JSON.parse` would throw inside the results timer before `setLoading(false)`, so such a value would not lead to the fallback view.
- The truthiness test on the stored string is modelled as "an entry exists". An empty string would count as no entry, but the form never stores one.
- Timer periods (1000, 1500, 120, 6000 and 2000 ms) and the interleaving of timer events are not modelled. Ticks are abstract events in any order, so the model does not state how far the counters have got when the 6000 ms redirect fires.
- The submit handler's timer is never cleared in the source, so it can fire after the form screen is gone. The model has no unmount for the form screen.
- React state batching and the render closure are not modelled. The submit handler is taken to store the record as it stands at the submit event.
- `e.preventDefault()`, the router object and the routes' page components are not modelled. A navigation is a returned `Route`.
- The vocabularies (the fifteen skills, fifteen interests, ten industries and the role, experience and goal options) are not modelled. The handlers accept any string, as the handler code itself does.
- The report's recommendation, skill-gap and roadmap constants are display data and are not modelled. So is the N of each "N of M" line, which is the length of a constant list.
- The CSS `capitalize` on the role and industry, all markup, icons and static copy, and the buttons without handlers (Export, Learn More and the others) are presentation only.
