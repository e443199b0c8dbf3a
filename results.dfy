/**
 * The results screen: after an artificial delay it reads the stored assessment
 * and shows either a fallback that sends the visitor back to the form or the
 * report, whose profile summary echoes the stored record.
 */
module Results {
  import opened Browser
  import CareerForm

  /** The screen declares its own record type with the same six fields as the
      form's state. */
  type FormData = CareerForm.FormData

  /** The key the screen reads the record from (its own literal, equal to the
      one the form writes under). */
  const StorageKey := "careerFormData"

  /** The first index of `c` in `s`, or `|s|` when `c` does not occur. */
  function FirstIndexOf(s: string, c: char): (i: nat)
    ensures i <= |s|
    ensures i < |s| ==> s[i] == c
    ensures forall j :: 0 <= j < i ==> s[j] != c
  {
    if s == [] then 0
    else if s[0] == c then 0
    else 1 + FirstIndexOf(s[1..], c)
  }

  /** `s.replace(from, to)` with a one-character string pattern: only the first
      occurrence is replaced. */
  function ReplaceFirst(s: string, from: char, to: char): (r: string)
    ensures |r| == |s|
    ensures forall j :: 0 <= j < |s| ==> r[j] == if j == FirstIndexOf(s, from) then to else s[j]
  {
    if s == [] then []
    else if s[0] == from then [to] + s[1..]
    else [s[0]] + ReplaceFirst(s[1..], from, to)
  }

  /** The role line of the summary: `currentRole.replace("-", " ")`. */
  function RoleLabel(role: string): string
  {
    ReplaceFirst(role, '-', ' ')
  }

  /** The label is the role with its first hyphen, at index `i`, turned into a
      space. */
  lemma RoleLabelAt(role: string, i: nat)
    requires i < |role| && role[i] == '-'
    requires forall j :: 0 <= j < i ==> role[j] != '-'
    ensures RoleLabel(role) == role[..i] + " " + role[i + 1..]
  {
    var r := RoleLabel(role);
    assert FirstIndexOf(role, '-') == i;
    assert r == role[..i] + " " + role[i + 1..];
  }

  /** A role without a hyphen is shown as it is; one with hyphens loses exactly
      its first one, which becomes a space. */
  lemma RoleLabelReplacesFirstHyphen(role: string)
    ensures '-' !in role ==> RoleLabel(role) == role
    ensures '-' in role ==> multiset(RoleLabel(role))['-'] == multiset(role)['-'] - 1
    ensures '-' in role ==> multiset(RoleLabel(role))[' '] == multiset(role)[' '] + 1
  {
    var i := FirstIndexOf(role, '-');
    var r := RoleLabel(role);
    if '-' !in role {
      assert i == |role|;
      assert r == role;
    } else {
      RoleLabelAt(role, i);
      assert role == role[..i] + [role[i]] + role[i + 1..];
    }
  }

  /** A role value the form offers: "entry-level" is shown as "entry level". */
  lemma EntryLevelLabel()
    ensures RoleLabel("entry-level") == "entry level"
  {
    var role := "entry-level";
    assert role[5] == '-';
    RoleLabelAt(role, 5);
    assert role[..5] == "entry" && role[6..] == "level";
  }

  /** A role value without a hyphen is shown as it is. */
  lemma ManagerLabel()
    ensures RoleLabel("manager") == "manager"
  {
    RoleLabelReplacesFirstHyphen("manager");
  }

  /** Only the first of two hyphens is replaced. */
  lemma TwoHyphensLabel()
    ensures RoleLabel("x-y-z") == "x y-z"
  {
    var role := "x-y-z";
    assert role[1] == '-';
    RoleLabelAt(role, 1);
    assert role[..1] == "x" && role[2..] == "y-z";
  }

  /** The profile summary card. */
  datatype ProfileSummary = ProfileSummary(
    roleLabel: string,
    experience: string,
    industry: string,
    skillCount: nat)

  /** What the screen renders. The report's static recommendation, skill-gap and
      roadmap panels are not modelled; `matchOf` is the M of each card's
      "N of M" matching-skills line. */
  datatype View =
    | LoadingView
    | NoDataView(retakeLink: Route)
    | ReportView(summary: ProfileSummary, matchOf: nat)

  function Summarize(f: FormData): ProfileSummary
  {
    ProfileSummary(RoleLabel(f.currentRole), f.experienceLevel + " years", f.industry, |f.selectedSkills|)
  }

  /** The summary card shows only the role, the experience, the industry and how
      many skills were chosen: which skills, the interests and the goal leave it
      unchanged, and two records with the same card agree on experience, industry
      and skill count. */
  lemma SummaryShowsOnlyProfile(f: FormData, skills: seq<string>, interests: seq<string>, goal: string)
    requires |skills| == |f.selectedSkills|
    ensures Summarize(f.(selectedSkills := skills, selectedInterests := interests, careerGoals := goal))
            == Summarize(f)
    ensures forall g: FormData :: Summarize(g) == Summarize(f) ==>
              g.industry == f.industry && |g.selectedSkills| == |f.selectedSkills|
              && g.experienceLevel == f.experienceLevel
  {
    forall g: FormData | Summarize(g) == Summarize(f)
      ensures g.experienceLevel == f.experienceLevel
    {
      var a, b := g.experienceLevel + " years", f.experienceLevel + " years";
      assert a == b;
      assert g.experienceLevel == a[..|a| - 6] && f.experienceLevel == b[..|b| - 6];
    }
  }

  /** The three render branches: the spinner while loading, the fallback when
      there is no record, the report otherwise. */
  function SelectView(loading: bool, data: Option<FormData>): (v: View)
    ensures v.LoadingView? <==> loading
    ensures v.NoDataView? <==> !loading && data.None?
    ensures v.ReportView? <==> !loading && data.Some?
    ensures v.NoDataView? ==> v.retakeLink == CareerFormRoute
    ensures v.ReportView? ==> v.summary == Summarize(data.value)
    ensures v.ReportView? ==> v.summary.skillCount == v.matchOf == |data.value.selectedSkills|
  {
    if loading then LoadingView
    else match data
      case None => NoDataView(CareerFormRoute)
      case Some(f) => ReportView(Summarize(f), |f.selectedSkills|)
  }

  /** The results screen's state. */
  class ResultsPage {
    var loading: bool
    var formData: Option<FormData>
    /** The delay timer the mount effect sets. */
    var timerActive: bool

    /** The record is only ever set when the delay ends, and that also ends the
        loading state; the timer is pending only while loading. */
    ghost predicate Valid()
      reads this
    {
      (loading ==> formData.None?) && (timerActive ==> loading)
    }

    /** Mounting: loading, no record, the delay timer set. */
    constructor ()
      ensures Valid()
      ensures loading && formData.None? && timerActive
      ensures View() == LoadingView
    {
      loading, formData, timerActive := true, None, true;
    }

    function View(): View
      reads this
    {
      SelectView(loading, formData)
    }

    /** The delay ends: the record is taken from the store when there is one,
        and loading ends in every case. */
    method TimerFires(store: LocalStore<FormData>)
      requires Valid()
      modifies this
      ensures Valid()
      ensures old(timerActive) ==> !loading && !timerActive
      ensures old(timerActive) ==> formData == if StorageKey in store.entries
                                                then Some(store.entries[StorageKey])
                                                else old(formData)
      ensures old(timerActive) ==> formData == store.GetItem(StorageKey)
      ensures old(timerActive) ==> (View().ReportView? <==> StorageKey in store.entries)
      ensures !old(timerActive) ==> loading == old(loading) && formData == old(formData) && !timerActive
    {
      if timerActive {
        var stored := store.GetItem(StorageKey);
        if stored.Some? {
          formData := stored;
        }
        loading := false;
        timerActive := false;
      }
    }

    /** The effect's cleanup on leaving the screen: the timer is cleared. */
    method Cleanup()
      requires Valid()
      modifies this
      ensures Valid()
      ensures !timerActive && loading == old(loading) && formData == old(formData)
    {
      timerActive := false;
    }
  }
}
