/**
 * The query builder of `doSearch`: the status checkboxes, the phase buttons,
 * the keyword/condition validation and the `URLSearchParams` of the list search.
 */
module SearchQuery {
  import opened Wrappers
  import opened Text

  datatype StatusOption = StatusOption(key: string, caption: string, checkedByDefault: bool)
  datatype PhaseOption = PhaseOption(key: string, caption: string)

  /** The status checkboxes, in the order the sidebar lists them. */
  const Statuses: seq<StatusOption> := [
    StatusOption("RECRUITING", "Recruiting", true),
    StatusOption("NOT_YET_RECRUITING", "Not Yet Recruiting", true),
    StatusOption("ACTIVE_NOT_RECRUITING", "Active, Not Recruiting", false),
    StatusOption("COMPLETED", "Completed", false),
    StatusOption("TERMINATED", "Terminated", false),
    StatusOption("WITHDRAWN", "Withdrawn", false),
    StatusOption("SUSPENDED", "Suspended", false)
  ]

  /** The phase buttons. */
  const Phases: seq<PhaseOption> := [
    PhaseOption("EARLY_PHASE1", "Early Ph 1"),
    PhaseOption("PHASE1", "Phase 1"),
    PhaseOption("PHASE2", "Phase 2"),
    PhaseOption("PHASE3", "Phase 3"),
    PhaseOption("PHASE4", "Phase 4"),
    PhaseOption("NA", "N/A")
  ]

  function StatusKeys(): (keys: seq<string>)
    ensures |keys| == |Statuses| && forall i :: 0 <= i < |keys| ==> keys[i] == Statuses[i].key
  {
    seq(|Statuses|, i requires 0 <= i < |Statuses| => Statuses[i].key)
  }

  /** The checkboxes ticked when the sidebar is built. */
  function DefaultChecked(): (checked: set<string>)
    ensures forall k :: k in checked <==> exists i :: 0 <= i < |Statuses| && Statuses[i].key == k && Statuses[i].checkedByDefault
  {
    set i | 0 <= i < |Statuses| && Statuses[i].checkedByDefault :: Statuses[i].key
  }

  ghost predicate Subsequence<T>(a: seq<T>, b: seq<T>)
    decreases |b|
  {
    if a == [] then true
    else if b == [] then false
    else if a[0] == b[0] then Subsequence(a[1..], b[1..])
    else Subsequence(a, b[1..])
  }

  /** The keys among `keys` that are ticked, in the order of `keys`. */
  function FilterChecked(keys: seq<string>, checked: set<string>): (r: seq<string>)
    ensures forall x :: x in r <==> x in keys && x in checked
    ensures Subsequence(r, keys)
  {
    if keys == [] then []
    else if keys[0] in checked then [keys[0]] + FilterChecked(keys[1..], checked)
    else FilterChecked(keys[1..], checked)
  }

  /** `getCheckedStatuses()`: the ticked statuses in checkbox order. */
  function CheckedStatuses(checked: set<string>): (r: seq<string>)
    ensures forall x :: x in r <==> x in StatusKeys() && x in checked
    ensures Subsequence(r, StatusKeys())
  {
    FilterChecked(StatusKeys(), checked)
  }

  lemma DefaultCheckedKeys()
    ensures DefaultChecked() == {"RECRUITING", "NOT_YET_RECRUITING"}
  {
    var d := DefaultChecked();
    assert "RECRUITING" in d by { assert Statuses[0].checkedByDefault; }
    assert "NOT_YET_RECRUITING" in d by { assert Statuses[1].checkedByDefault; }
    forall k | k in d
      ensures k == "RECRUITING" || k == "NOT_YET_RECRUITING"
    {
      var i :| 0 <= i < |Statuses| && Statuses[i].key == k && Statuses[i].checkedByDefault;
      assert i < 2;
    }
  }

  lemma StatusKeyList()
    ensures StatusKeys() == ["RECRUITING", "NOT_YET_RECRUITING", "ACTIVE_NOT_RECRUITING",
                             "COMPLETED", "TERMINATED", "WITHDRAWN", "SUSPENDED"]
  {
  }

  lemma FilterNoneChecked(keys: seq<string>, checked: set<string>)
    requires forall i :: 0 <= i < |keys| ==> keys[i] !in checked
    ensures FilterChecked(keys, checked) == []
  {
    if keys != [] {
      FilterNoneChecked(keys[1..], checked);
    }
  }

  lemma JoinPair(a: string, b: string, sep: string)
    ensures Join([a, b], sep) == a + sep + b
  {
    assert [a, b][1..] == [b];
  }

  lemma DefaultPairText()
    ensures "RECRUITING" + "," + "NOT_YET_RECRUITING" == "RECRUITING,NOT_YET_RECRUITING"
  {
  }

  /** With the default ticks, the status parameter is `RECRUITING,NOT_YET_RECRUITING`. */
  lemma DefaultStatusParam()
    ensures Join(CheckedStatuses(DefaultChecked()), ",") == "RECRUITING,NOT_YET_RECRUITING"
  {
    var r := CheckedStatuses(DefaultChecked());
    assert r == ["RECRUITING", "NOT_YET_RECRUITING"] by {
      DefaultStatuses();
    }
    JoinPair("RECRUITING", "NOT_YET_RECRUITING", ",");
    DefaultPairText();
  }

  /** With the default ticks, the statuses sent are Recruiting and Not Yet Recruiting. */
  lemma DefaultStatuses()
    ensures CheckedStatuses(DefaultChecked()) == ["RECRUITING", "NOT_YET_RECRUITING"]
  {
    var d := DefaultChecked();
    DefaultCheckedKeys();
    StatusKeyList();
    var keys := StatusKeys();
    FilterNoneChecked(keys[2..], d);
    assert keys[1..][1..] == keys[2..];
    assert FilterChecked(keys[1..], d) == ["NOT_YET_RECRUITING"];
  }

  const TermKey := "query.term"
  const CondKey := "query.cond"
  const StatusKey := "filter.overallStatus"
  const AdvancedKey := "filter.advanced"
  const GeoKey := "filter.geo"
  const PageTokenKey := "pageToken"
  const PageSizeKey := "pageSize"
  const CountTotalKey := "countTotal"
  const FormatKey := "format"
  const FieldsKey := "fields"

  /** A 1500-mile radius around the geographic centre of the contiguous United States. */
  const UsGeoFilter := "distance(39.5,-98.35,1500mi)"
  const PageSize := "20"

  /**
   * The field projection of the list request: `NCTId`, `BriefTitle`,
   * `OverallStatus`, `Phase`, `Condition`, the lead sponsor's name and class,
   * the central contact's name, phone and e-mail, the overall official's name
   * and affiliation, `EnrollmentCount`, `StartDate`, `PrimaryCompletionDate`,
   * `StudyType`, and the locations' city, state, country, facility and
   * contact name, phone and e-mail, joined with commas.
   */
  const ListFields: string :=
    "NCTId,BriefTitle,OverallStatus,Phase,Condition,LeadSponsorName,LeadSponsorClass,"
    + "CentralContactName,CentralContactPhone,CentralContactEMail,"
    + "OverallOfficialName,OverallOfficialAffiliation,"
    + "EnrollmentCount,StartDate,PrimaryCompletionDate,"
    + "StudyType,LocationCity,LocationState,LocationCountry,LocationFacility,"
    + "LocationContactName,LocationContactPhone,LocationContactEMail"

  const AllKeys: set<string> := {
    TermKey, CondKey, StatusKey, AdvancedKey, GeoKey, PageTokenKey,
    PageSizeKey, CountTotalKey, FormatKey, FieldsKey
  }

  /** The message of the alert a search without keyword and condition raises. */
  const EmptySearchMessage := "Please enter a keyword or condition."

  /** A JavaScript-truthy token: present and not the empty string. */
  predicate Truthy(token: Option<string>)
  {
    token.Some? && token.value != ""
  }

  /** The search is refused when, once trimmed, both keyword and condition are empty. */
  predicate Rejects(kwInput: string, condInput: string)
  {
    Trim(kwInput) == [] && Trim(condInput) == []
  }

  /** Refusal means both inputs are entirely white space. */
  lemma RejectsIffBlank(kwInput: string, condInput: string)
    ensures Rejects(kwInput, condInput) <==>
      (forall k :: 0 <= k < |kwInput| ==> IsJsSpace(kwInput[k]))
      && (forall k :: 0 <= k < |condInput| ==> IsJsSpace(condInput[k]))
  {
    TrimEmptyIffBlank(kwInput);
    TrimEmptyIffBlank(condInput);
  }

  /** One `AREA[Phase]…` term per selected phase, in selection order. */
  function PhaseTerms(phases: seq<string>): (terms: seq<string>)
    ensures |terms| == |phases|
    ensures forall i :: 0 <= i < |phases| ==> terms[i] == "AREA[Phase]" + phases[i]
  {
    seq(|phases|, i requires 0 <= i < |phases| => "AREA[Phase]" + phases[i])
  }

  /**
   * The rules the list request's parameters follow: each optional parameter is
   * present exactly when its selection is, with the value built from it, and
   * the fixed parameters are always there; no other key occurs.
   */
  ghost predicate ParamsFor(
    p: map<string, string>, kw: string, cond: string, statuses: seq<string>,
    phases: seq<string>, usOnly: bool, append: bool, token: Option<string>)
  {
    && p.Keys <= AllKeys
    && (TermKey in p <==> kw != "") && (TermKey in p ==> p[TermKey] == kw)
    && (CondKey in p <==> cond != "") && (CondKey in p ==> p[CondKey] == cond)
    && (StatusKey in p <==> |statuses| > 0) && (StatusKey in p ==> p[StatusKey] == Join(statuses, ","))
    && (AdvancedKey in p <==> |phases| > 0)
    && (AdvancedKey in p ==> p[AdvancedKey] == Join(PhaseTerms(phases), " OR "))
    && (GeoKey in p <==> usOnly) && (GeoKey in p ==> p[GeoKey] == UsGeoFilter)
    && (PageTokenKey in p <==> append && Truthy(token))
    && (PageTokenKey in p ==> token.Some? && p[PageTokenKey] == token.value)
    && PageSizeKey in p && p[PageSizeKey] == PageSize
    && CountTotalKey in p && p[CountTotalKey] == "true"
    && FormatKey in p && p[FormatKey] == "json"
    && FieldsKey in p && p[FieldsKey] == ListFields
  }

  /** The successive `params.set` calls of `doSearch`. */
  method BuildParams(
    kw: string, cond: string, statuses: seq<string>, phases: seq<string>,
    usOnly: bool, append: bool, token: Option<string>)
    returns (params: map<string, string>)
    ensures ParamsFor(params, kw, cond, statuses, phases, usOnly, append, token)
  {
    params := map[];
    if kw != "" { params := params[TermKey := kw]; }
    if cond != "" { params := params[CondKey := cond]; }
    if |statuses| > 0 { params := params[StatusKey := Join(statuses, ",")]; }
    if |phases| > 0 { params := params[AdvancedKey := Join(PhaseTerms(phases), " OR ")]; }
    if usOnly { params := params[GeoKey := UsGeoFilter]; }
    if Truthy(token) && append { params := params[PageTokenKey := token.value]; }
    params := params[PageSizeKey := PageSize];
    params := params[CountTotalKey := "true"];
    params := params[FormatKey := "json"];
    params := params[FieldsKey := ListFields];
  }

  /** The rules leave no freedom: each selection maps to exactly one parameter set. */
  lemma ParamsDetermined(
    p: map<string, string>, q: map<string, string>, kw: string, cond: string,
    statuses: seq<string>, phases: seq<string>, usOnly: bool, append: bool, token: Option<string>)
    requires ParamsFor(p, kw, cond, statuses, phases, usOnly, append, token)
    requires ParamsFor(q, kw, cond, statuses, phases, usOnly, append, token)
    ensures p == q
  {
    assert p.Keys == q.Keys;
    forall k | k in p
      ensures p[k] == q[k]
    {
      assert k in AllKeys;
    }
  }

  /** Selecting phase 2 and then phase 3 gives the OR expression in that order. */
  lemma TwoPhaseExpression()
    ensures Join(PhaseTerms(["PHASE2", "PHASE3"]), " OR ") == "AREA[Phase]PHASE2 OR AREA[Phase]PHASE3"
  {
    var t := PhaseTerms(["PHASE2", "PHASE3"]);
    assert t[0] == "AREA[Phase]PHASE2" && t[1] == "AREA[Phase]PHASE3";
    assert |t| == 2 && t[1..] == ["AREA[Phase]PHASE3"];
  }

  /** No status key contains the separator of the status list. */
  lemma StatusKeysHaveNoComma()
    ensures forall i :: 0 <= i < |StatusKeys()| ==> ',' !in StatusKeys()[i]
  {
    forall i | 0 <= i < |Statuses|
      ensures ',' !in Statuses[i].key
    {
      if i == 0 {
        KeyHasNoComma0();
      } else if i == 1 {
        KeyHasNoComma1();
      } else if i == 2 {
        KeyHasNoComma2();
      } else if i == 3 {
        KeyHasNoComma3();
      } else if i == 4 {
        KeyHasNoComma4();
      } else if i == 5 {
        KeyHasNoComma5();
      } else {
        KeyHasNoComma6();
      }
    }
  }

  // One lemma per key, for the same reason as the per-key chip lemmas of the
  // views: character checks on seven string literals are cheap one at a time.
  lemma KeyHasNoComma0() ensures ',' !in Statuses[0].key { NoComma(Statuses[0].key); }
  lemma KeyHasNoComma1() ensures ',' !in Statuses[1].key { NoComma(Statuses[1].key); }
  lemma KeyHasNoComma2() ensures ',' !in Statuses[2].key { NoComma(Statuses[2].key); }
  lemma KeyHasNoComma3() ensures ',' !in Statuses[3].key { NoComma(Statuses[3].key); }
  lemma KeyHasNoComma4() ensures ',' !in Statuses[4].key { NoComma(Statuses[4].key); }
  lemma KeyHasNoComma5() ensures ',' !in Statuses[5].key { NoComma(Statuses[5].key); }
  lemma KeyHasNoComma6() ensures ',' !in Statuses[6].key { NoComma(Statuses[6].key); }

  lemma {:induction false} NoComma(key: string)
    requires forall i :: 0 <= i < |key| ==> 'A' <= key[i] <= 'Z' || key[i] == '_'
    ensures ',' !in key
  {
  }

  /** The status list sent can be split back into the ticked statuses. */
  lemma StatusListRoundTrip(checked: set<string>)
    requires |CheckedStatuses(checked)| > 0
    ensures Split(Join(CheckedStatuses(checked), ","), ',') == CheckedStatuses(checked)
  {
    var r := CheckedStatuses(checked);
    var keys := StatusKeys();
    StatusKeysHaveNoComma();
    forall i | 0 <= i < |r|
      ensures ',' !in r[i]
    {
      assert r[i] in keys;
      var j :| 0 <= j < |keys| && keys[j] == r[i];
    }
    SplitJoin(r, ',');
  }
}
