/** The applications page: the gender and age-group filters, the figures by
    AI recommendation, the gender and age-group distributions, and the change
    of an application's status from the detail view. */
module Applications {
  import opened Common
  import opened Grouping

  /** A participant record as the page reads it. */
  datatype Applicant = Applicant(
    id: string,
    gender: Option<string>,
    ageGroup: Option<string>,
    aiRecommendation: Option<string>,
    applicationStatus: Option<string>)

  // ---------------------------------------------------------------------------
  // Filters

  predicate GenderIs(a: Applicant, gender: string) {
    a.gender == Some(gender)
  }

  predicate AgeGroupIs(a: Applicant, ageGroup: string) {
    a.ageGroup == Some(ageGroup)
  }

  /** Whether an applicant passes the filters that are set. */
  predicate Passes(a: Applicant, gender: Option<string>, ageGroup: Option<string>) {
    (!Truthy(gender) || GenderIs(a, gender.value)) && (!Truthy(ageGroup) || AgeGroupIs(a, ageGroup.value))
  }

  /** `filterApplications`: the gender filter when one is chosen, then the
      age-group filter when one is chosen. */
  function FilterApplications(apps: seq<Applicant>, gender: Option<string>, ageGroup: Option<string>): (r: seq<Applicant>)
    ensures IsSubsequence(r, apps)
    ensures forall i :: 0 <= i < |r| ==> Passes(r[i], gender, ageGroup)
    ensures !Truthy(gender) && !Truthy(ageGroup) ==> r == apps
  {
    var byGender := if Truthy(gender) then Filter(apps, (a: Applicant) => GenderIs(a, Or(gender, ""))) else apps;
    var byAge := if Truthy(ageGroup) then Filter(byGender, (a: Applicant) => AgeGroupIs(a, Or(ageGroup, ""))) else byGender;
    FilterIsSubsequence(apps, (a: Applicant) => GenderIs(a, Or(gender, "")));
    FilterIsSubsequence(byGender, (a: Applicant) => AgeGroupIs(a, Or(ageGroup, "")));
    SubsequenceRefl(apps);
    SubsequenceRefl(byGender);
    SubsequenceTransitive(byAge, byGender, apps);
    forall i | 0 <= i < |byAge|
      ensures Passes(byAge[i], gender, ageGroup)
    {
      SubsequenceMembers(byAge, byGender, byAge[i]);
    }
    byAge
  }

  /** An applicant is listed exactly when it passes the filters that are set. */
  lemma FilterApplicationsMembers(apps: seq<Applicant>, gender: Option<string>, ageGroup: Option<string>, a: Applicant)
    ensures a in FilterApplications(apps, gender, ageGroup) <==> a in apps && Passes(a, gender, ageGroup)
  {
    var byGender := if Truthy(gender) then Filter(apps, (x: Applicant) => GenderIs(x, Or(gender, ""))) else apps;
    FilterMembers(apps, (x: Applicant) => GenderIs(x, Or(gender, "")), a);
    FilterMembers(byGender, (x: Applicant) => AgeGroupIs(x, Or(ageGroup, "")), a);
  }

  // ---------------------------------------------------------------------------
  // Figures

  datatype Figures = Figures(total: nat, accepted: nat, rejected: nat)

  /** The total and the counts of each AI recommendation; the two
      recommendations differ, so their counts add up to at most the total. */
  function FiguresOf(apps: seq<Applicant>): (f: Figures)
    ensures f.total == |apps|
    ensures f.accepted + f.rejected <= f.total
  {
    var accepted := (a: Applicant) => a.aiRecommendation == Some("Accepted");
    var rejected := (a: Applicant) => a.aiRecommendation == Some("Rejected");
    CountUnion(apps, accepted, rejected, (a: Applicant) => accepted(a) || rejected(a));
    Figures(|apps|, Count(apps, accepted), Count(apps, rejected))
  }

  // ---------------------------------------------------------------------------
  // Distributions

  /** The property a value is counted under: an absent one is `"undefined"`
      (a stored `null`, keyed `"null"` by the source, is not told apart). */
  function GenderKey(a: Applicant): string {
    ValueOr(a.gender, "undefined")
  }

  function AgeGroupKey(a: Applicant): string {
    ValueOr(a.ageGroup, "undefined")
  }

  /** `apps.reduce((acc, p) => { acc[key(p)] = (acc[key(p)] || 0) + 1 }, {})`. */
  function Tally(apps: seq<Applicant>, key: Applicant -> string): (t: map<string, nat>)
    ensures forall k :: k in t ==> 1 <= t[k] <= |apps|
    decreases |apps|
  {
    if apps == [] then map[]
    else
      var last := |apps| - 1;
      var t := Tally(apps[..last], key);
      var k := key(apps[last]);
      t[k := (if k in t then t[k] else 0) + 1]
  }

  predicate AnyApplicant(a: Applicant) {
    true
  }

  function Same(a: Applicant): Applicant {
    a
  }

  /** Each tallied value is the number of applicants with that key, and the
      keys are exactly the applicants' keys. */
  lemma {:induction false} TallyCounts(apps: seq<Applicant>, key: Applicant -> string, k: string)
    ensures k in Tally(apps, key) <==> k in KeysOf(apps, AnyApplicant, key)
    ensures k in Tally(apps, key) ==> Tally(apps, key)[k] == |GroupValues(apps, AnyApplicant, key, Same, k)|
    ensures k in Tally(apps, key) ==> Tally(apps, key)[k] == Count(apps, KeptWith(AnyApplicant, key, k))
    decreases |apps|
  {
    if apps != [] {
      var init, x := apps[..|apps| - 1], apps[|apps| - 1];
      TallyCounts(init, key, k);
      var t0 := Tally(init, key);
      assert Tally(apps, key) == t0[key(x) := (if key(x) in t0 then t0[key(x)] else 0) + 1];
      assert KeysOf(apps, AnyApplicant, key) == KeysOf(init, AnyApplicant, key) + [key(x)];
      assert GroupValues(apps, AnyApplicant, key, Same, k)
        == GroupValues(init, AnyApplicant, key, Same, k) + (if key(x) == k then [x] else []);
      if k !in t0 && k == key(x) {
        ValuesAbsent(init, AnyApplicant, key, Same, k);
      }
    }
    GroupValuesCount(apps, AnyApplicant, key, Same, k);
  }

  /** The sum of the tallied values of `keys`. */
  function SumCounts(t: map<string, nat>, keys: seq<string>): nat
    requires forall k :: k in keys ==> k in t
  {
    if keys == [] then 0 else t[keys[0]] + SumCounts(t, keys[1..])
  }

  lemma {:induction false} SumCountsSizes(apps: seq<Applicant>, key: Applicant -> string, keys: seq<string>)
    requires forall k :: k in keys ==> k in Tally(apps, key)
    ensures SumCounts(Tally(apps, key), keys) == SumSizes(apps, AnyApplicant, key, Same, keys)
  {
    if keys != [] {
      TallyCounts(apps, key, keys[0]);
      SumCountsSizes(apps, key, keys[1..]);
    }
  }

  /** Over its keys, listed once each, a distribution adds up to the number of
      applicants: each applicant is counted once. */
  lemma DistributionTotal(apps: seq<Applicant>, key: Applicant -> string, keys: seq<string>)
    requires forall i, j :: 0 <= i < j < |keys| ==> keys[i] != keys[j]
    requires forall k :: k in keys <==> k in Tally(apps, key)
    ensures SumCounts(Tally(apps, key), keys) == |apps|
  {
    forall k
      ensures k in keys <==> k in KeysOf(apps, AnyApplicant, key)
    {
      TallyCounts(apps, key, k);
    }
    SumCountsSizes(apps, key, keys);
    GroupSizes(apps, AnyApplicant, key, Same, keys);
    KeysOfCount(apps, AnyApplicant, key);
    CountAll(apps, AnyApplicant);
  }

  // ---------------------------------------------------------------------------
  // Status change

  /** `prev.map(app => app.id === id ? {...app, applicationStatus: value} : app)`. */
  function SetStatus(apps: seq<Applicant>, id: string, value: string): (r: seq<Applicant>)
    ensures |r| == |apps|
    ensures forall i :: 0 <= i < |apps| && apps[i].id != id ==> r[i] == apps[i]
    ensures forall i :: 0 <= i < |apps| && apps[i].id == id ==> r[i] == apps[i].(applicationStatus := Some(value))
  {
    if apps == [] then []
    else [if apps[0].id == id then apps[0].(applicationStatus := Some(value)) else apps[0]] + SetStatus(apps[1..], id, value)
  }

  /** The filters do not look at the status, so changing a status in the full
      list and then filtering gives the filtered list with the status
      changed: the two lists stay in step. */
  lemma SetStatusKeepsFilter(apps: seq<Applicant>, gender: Option<string>, ageGroup: Option<string>, id: string, value: string)
    ensures SetStatus(FilterApplications(apps, gender, ageGroup), id, value)
      == FilterApplications(SetStatus(apps, id, value), gender, ageGroup)
  {
    var g := (a: Applicant) => GenderIs(a, Or(gender, ""));
    var ag := (a: Applicant) => AgeGroupIs(a, Or(ageGroup, ""));
    var byGender := if Truthy(gender) then Filter(apps, g) else apps;
    SetStatusFilter(apps, g, id, value);
    SetStatusFilter(byGender, ag, id, value);
  }

  lemma {:induction false} SetStatusFilter(apps: seq<Applicant>, p: Applicant -> bool, id: string, value: string)
    requires forall a: Applicant, s :: p(a) == p(a.(applicationStatus := s))
    ensures SetStatus(Filter(apps, p), id, value) == Filter(SetStatus(apps, id, value), p)
  {
    if apps != [] {
      SetStatusFilter(apps[1..], p, id, value);
      assert SetStatus(apps, id, value)[1..] == SetStatus(apps[1..], id, value);
      var x := apps[0];
      assert p(x) == p(x.(applicationStatus := Some(value)));
      if p(x) {
        assert SetStatus([x] + Filter(apps[1..], p), id, value)[1..] == SetStatus(Filter(apps[1..], p), id, value);
      }
    }
  }

  /** The lists of the page and the applicant in the detail view. */
  datatype Page = Page(applications: seq<Applicant>, filtered: seq<Applicant>, selected: Option<Applicant>)

  /** Choosing a status in the detail view: after a successful write
      (`stored`), both lists and the selected applicant carry the new status;
      after a failed one nothing changes. */
  function ChangeStatus(page: Page, value: string, stored: bool): (r: Page)
    requires page.selected.Some?
    ensures !stored ==> r == page
    ensures stored ==> r.selected == Some(page.selected.value.(applicationStatus := Some(value)))
    ensures stored ==> r.applications == SetStatus(page.applications, page.selected.value.id, value)
    ensures stored ==> r.filtered == SetStatus(page.filtered, page.selected.value.id, value)
  {
    if !stored then page
    else
      var id := page.selected.value.id;
      Page(SetStatus(page.applications, id, value), SetStatus(page.filtered, id, value),
        Some(page.selected.value.(applicationStatus := Some(value))))
  }

  /** A page whose filtered list is the filter of the full list keeps that
      after a status change. */
  lemma ChangeStatusKeepsFilter(page: Page, value: string, stored: bool, gender: Option<string>, ageGroup: Option<string>)
    requires page.selected.Some?
    requires page.filtered == FilterApplications(page.applications, gender, ageGroup)
    ensures var r := ChangeStatus(page, value, stored);
      r.filtered == FilterApplications(r.applications, gender, ageGroup)
  {
    SetStatusKeepsFilter(page.applications, gender, ageGroup, page.selected.value.id, value);
  }

  /** `fetchApplications` when it settles, after the status change that did not
      await it: on success both lists become the fetched records, whatever
      filters are selected; on failure only a message is shown. */
  function Refetch(page: Page, fetchedApps: seq<Applicant>, fetched: bool): (r: Page)
    ensures fetched ==> r.applications == fetchedApps && r.filtered == fetchedApps && r.selected == page.selected
    ensures !fetched ==> r == page
  {
    if fetched then page.(applications := fetchedApps, filtered := fetchedApps) else page
  }

  /** The refetch as written drops the selected filters: with "Female"
      selected, a status change followed by the refetch lists a male
      applicant that the filter excludes. */
  lemma RefetchIgnoresFilters()
    ensures var m := Applicant("m", Some("Male"), None, None, None);
      var f := Applicant("f", Some("Female"), None, None, None);
      var page := Page([m, f], [f], Some(f));
      var after := ChangeStatus(page, "accepted", true);
      var r := Refetch(after, SetStatus([m, f], "f", "accepted"), true);
      && page.filtered == FilterApplications(page.applications, Some("Female"), None)
      && after.filtered == FilterApplications(after.applications, Some("Female"), None)
      && r.filtered != FilterApplications(r.applications, Some("Female"), None)
  {
    var m := Applicant("m", Some("Male"), None, None, None);
    var f := Applicant("f", Some("Female"), None, None, None);
    var page := Page([m, f], [f], Some(f));
    var female := (a: Applicant) => GenderIs(a, Or(Some("Female"), ""));
    assert [m, f][1..] == [f];
    assert Filter([f], female) == [f];
    assert FilterApplications([m, f], Some("Female"), None) == [f];
    ChangeStatusKeepsFilter(page, "accepted", true, Some("Female"), None);
    var r := Refetch(ChangeStatus(page, "accepted", true), SetStatus([m, f], "f", "accepted"), true);
    assert r.filtered[0] == m;
    FilterApplicationsMembers(r.applications, Some("Female"), None, m);
  }

  /** The refetch with the selected filters re-applied to the fetched
      records: the filtered list stays the filter of the full list. */
  function RefetchFiltered(page: Page, fetchedApps: seq<Applicant>, fetched: bool,
                           gender: Option<string>, ageGroup: Option<string>): (r: Page)
    ensures fetched ==> r.applications == fetchedApps && r.selected == page.selected
    ensures !fetched ==> r == page
    ensures page.filtered == FilterApplications(page.applications, gender, ageGroup) ==>
      r.filtered == FilterApplications(r.applications, gender, ageGroup)
  {
    if fetched then page.(applications := fetchedApps, filtered := FilterApplications(fetchedApps, gender, ageGroup))
    else page
  }

  /** With the corrected refetch, a status change and the refetch after it
      keep the filtered list the filter of the full list. */
  lemma StatusChangeSettledKeepsFilter(page: Page, value: string, stored: bool, fetchedApps: seq<Applicant>, fetched: bool,
                                       gender: Option<string>, ageGroup: Option<string>)
    requires page.selected.Some?
    requires page.filtered == FilterApplications(page.applications, gender, ageGroup)
    ensures var r := RefetchFiltered(ChangeStatus(page, value, stored), fetchedApps, fetched, gender, ageGroup);
      r.filtered == FilterApplications(r.applications, gender, ageGroup)
  {
    ChangeStatusKeepsFilter(page, value, stored, gender, ageGroup);
  }
}
