/**
 * What `renderList`, `buildCard` and `renderDetail` decide and derive from the
 * records: the status and sponsor classification, the de-duplicated card
 * cities, the caps of the detail view, the empty state and the load-more
 * control. The HTML text around these values is not modelled.
 */
module Views {
  import opened Wrappers
  import opened Text
  import opened Escaping
  import opened Marking
  import opened Records
  import SearchQuery

  // ----- Status -----

  /** `st.overallStatus || 'UNKNOWN'`. */
  function StatusOf(s: Study): string
  {
    if s.overallStatus == "" then "UNKNOWN" else s.overallStatus
  }

  /** The object literal both views index with the status. */
  const StatusChipClasses: map<string, string> := map[
    "RECRUITING" := "chip-RECRUITING",
    "NOT_YET_RECRUITING" := "chip-NOT_YET_RECRUITING",
    "ACTIVE_NOT_RECRUITING" := "chip-ACTIVE_NOT_RECRUITING",
    "COMPLETED" := "chip-COMPLETED",
    "TERMINATED" := "chip-TERMINATED",
    "WITHDRAWN" := "chip-WITHDRAWN",
    "SUSPENDED" := "chip-SUSPENDED"
  ]

  /** `{…}[status] || 'chip-DEFAULT'`. */
  function StatusChip(status: string): string
  {
    if status in StatusChipClasses then StatusChipClasses[status] else "chip-DEFAULT"
  }

  /**
   * The status map is total and agrees with the sidebar: a status that has a
   * checkbox gets `chip-` followed by its key, any other status `chip-DEFAULT`.
   */
  lemma StatusChipCases(status: string)
    ensures status in SearchQuery.StatusKeys() ==> StatusChip(status) == "chip-" + status
    ensures status !in SearchQuery.StatusKeys() ==> StatusChip(status) == "chip-DEFAULT"
  {
    SearchQuery.StatusKeyList();
    assert StatusChipClasses.Keys == {"RECRUITING", "NOT_YET_RECRUITING", "ACTIVE_NOT_RECRUITING",
      "COMPLETED", "TERMINATED", "WITHDRAWN", "SUSPENDED"};
    if status in StatusChipClasses {
      ChipClassIsPrefixed(status);
    }
  }

  lemma ChipClassIsPrefixed(status: string)
    requires status in StatusChipClasses
    ensures StatusChipClasses[status] == "chip-" + status
  {
    if status == "RECRUITING" {
      assert StatusChipClasses[status] == "chip-RECRUITING"; ChipText1();
    } else if status == "NOT_YET_RECRUITING" {
      assert StatusChipClasses[status] == "chip-NOT_YET_RECRUITING"; ChipText2();
    } else if status == "ACTIVE_NOT_RECRUITING" {
      assert StatusChipClasses[status] == "chip-ACTIVE_NOT_RECRUITING"; ChipText3();
    } else if status == "COMPLETED" {
      assert StatusChipClasses[status] == "chip-COMPLETED"; ChipText4();
    } else if status == "TERMINATED" {
      assert StatusChipClasses[status] == "chip-TERMINATED"; ChipText5();
    } else if status == "WITHDRAWN" {
      assert StatusChipClasses[status] == "chip-WITHDRAWN"; ChipText6();
    } else {
      assert status == "SUSPENDED";
      assert StatusChipClasses[status] == "chip-SUSPENDED"; ChipText7();
    }
  }

  // One lemma per key: equalities between string literals are cheap for the
  // solver one at a time and expensive when all seven meet in one proof.
  lemma ChipText1() ensures "chip-" + "RECRUITING" == "chip-RECRUITING" { }
  lemma ChipText2() ensures "chip-" + "NOT_YET_RECRUITING" == "chip-NOT_YET_RECRUITING" { }
  lemma ChipText3() ensures "chip-" + "ACTIVE_NOT_RECRUITING" == "chip-ACTIVE_NOT_RECRUITING" { }
  lemma ChipText4() ensures "chip-" + "COMPLETED" == "chip-COMPLETED" { }
  lemma ChipText5() ensures "chip-" + "TERMINATED" == "chip-TERMINATED" { }
  lemma ChipText6() ensures "chip-" + "WITHDRAWN" == "chip-WITHDRAWN" { }
  lemma ChipText7() ensures "chip-" + "SUSPENDED" == "chip-SUSPENDED" { }

  /** `status.replace(/_/g, ' ')`. */
  function StatusLabel(status: string): string
  {
    ReplaceAll(status, "_", " ")
  }

  /** Every underscore of the status, and nothing else, becomes a space. */
  lemma StatusLabelSpaces(status: string)
    ensures |StatusLabel(status)| == |status|
    ensures '_' !in StatusLabel(status)
    ensures forall i :: 0 <= i < |status| ==>
      StatusLabel(status)[i] == if status[i] == '_' then ' ' else status[i]
  {
    ReplaceCharPointwise(status, '_', ' ');
  }

  // ----- Sponsor -----

  /** `(sp.leadSponsor || {}).class || 'OTHER'`. */
  function SponsorClassOf(s: Study): string
  {
    if s.sponsorClass == "" then "OTHER" else s.sponsorClass
  }

  function SponsorChip(cls: string): string
  {
    if cls == "INDUSTRY" then "chip-industry"
    else if cls == "NIH" || cls == "FED" || cls == "NETWORK" then "chip-academic"
    else "chip-other"
  }

  function SponsorLabel(cls: string): string
  {
    if cls == "INDUSTRY" then "Industry"
    else if cls == "NIH" || cls == "FED" then "NIH/Gov"
    else if cls == "NETWORK" then "Network"
    else "Academic/Other"
  }

  /** The two sponsor maps are total and classify every class into four groups. */
  lemma SponsorCases(cls: string)
    ensures cls == "INDUSTRY" ==> SponsorChip(cls) == "chip-industry" && SponsorLabel(cls) == "Industry"
    ensures cls == "NIH" || cls == "FED" ==> SponsorChip(cls) == "chip-academic" && SponsorLabel(cls) == "NIH/Gov"
    ensures cls == "NETWORK" ==> SponsorChip(cls) == "chip-academic" && SponsorLabel(cls) == "Network"
    ensures cls != "INDUSTRY" && cls != "NIH" && cls != "FED" && cls != "NETWORK" ==>
      SponsorChip(cls) == "chip-other" && SponsorLabel(cls) == "Academic/Other"
  {
  }

  /** The chip a label belongs to: the two maps never disagree. */
  function ChipOfLabel(caption: string): string
  {
    if caption == "Industry" then "chip-industry"
    else if caption == "NIH/Gov" || caption == "Network" then "chip-academic"
    else "chip-other"
  }

  lemma SponsorChipFollowsLabel(cls: string)
    ensures SponsorChip(cls) == ChipOfLabel(SponsorLabel(cls))
  {
  }

  // ----- Phases -----

  /** The card's phase chip: `ph.replace('_', ' ')` (first underscore only), joined, or no chip. */
  function CardPhases(phases: seq<string>): (r: Option<string>)
    ensures r.Some? ==> r.value != ""
  {
    var j := Join(seq(|phases|, i requires 0 <= i < |phases| => ReplaceFirst(phases[i], "_", " ")), ", ");
    if j == "" then None else Some(j)
  }

  /** The detail view's phase chip: `ph.replace(/_/g, ' ')`, joined, or `N/A`. */
  function DetailPhases(phases: seq<string>): string
  {
    var j := Join(seq(|phases|, i requires 0 <= i < |phases| => ReplaceAll(phases[i], "_", " ")), ", ");
    if j == "" then "N/A" else j
  }

  predicate AtMostOneUnderscore(s: string)
  {
    forall i, j :: 0 <= i < |s| && 0 <= j < |s| && s[i] == '_' && s[j] == '_' ==> i == j
  }

  /**
   * The card replaces only the first underscore and the detail view all of
   * them; for phase values with at most one underscore (every value on the
   * sidebar) the two chips read the same.
   */
  lemma CardPhasesMatchDetail(phases: seq<string>)
    requires forall i :: 0 <= i < |phases| ==> AtMostOneUnderscore(phases[i])
    ensures CardPhases(phases).Some? ==> CardPhases(phases).value == DetailPhases(phases)
    ensures CardPhases(phases).None? ==> DetailPhases(phases) == "N/A"
  {
    var a := seq(|phases|, i requires 0 <= i < |phases| => ReplaceFirst(phases[i], "_", " "));
    var b := seq(|phases|, i requires 0 <= i < |phases| => ReplaceAll(phases[i], "_", " "));
    forall i | 0 <= i < |phases|
      ensures a[i] == b[i]
    {
      ReplaceFirstIsAllWhenSingle(phases[i], '_', ' ');
    }
    assert a == b;
  }

  /** Every phase value the sidebar offers has at most one underscore. */
  lemma SidebarPhasesQualify()
    ensures forall i :: 0 <= i < |SearchQuery.Phases| ==> AtMostOneUnderscore(SearchQuery.Phases[i].key)
  {
    forall i | 0 <= i < |SearchQuery.Phases|
      ensures AtMostOneUnderscore(SearchQuery.Phases[i].key)
    {
      var k := SearchQuery.Phases[i].key;
      if i == 0 {
        assert k == "EARLY_PHASE1";
        assert forall j :: 0 <= j < |k| && k[j] == '_' ==> j == 5;
      } else {
        assert forall j :: 0 <= j < |k| ==> k[j] != '_';
      }
    }
  }

  // ----- Locations -----

  /** `[l.city, l.state || l.country].filter(Boolean).join(', ')`. */
  function LocationLabel(l: Location): string
  {
    var region := if l.state != "" then l.state else l.country;
    var parts := (if l.city != "" then [l.city] else []) + (if region != "" then [region] else []);
    Join(parts, ", ")
  }

  ghost predicate NoDuplicates<T>(xs: seq<T>)
  {
    forall i, j :: 0 <= i < j < |xs| ==> xs[i] != xs[j]
  }

  /** The items of `xs` not yet in `seen`, each kept at its first occurrence. */
  function DedupFrom<T(==)>(xs: seq<T>, seen: set<T>): seq<T>
  {
    if xs == [] then []
    else if xs[0] in seen then DedupFrom(xs[1..], seen)
    else [xs[0]] + DedupFrom(xs[1..], seen + {xs[0]})
  }

  /** `[...new Set(xs)]`: the distinct items in order of first insertion. */
  function Dedup<T(==)>(xs: seq<T>): seq<T>
  {
    DedupFrom(xs, {})
  }

  lemma {:induction false} DedupFromSpec<T>(xs: seq<T>, seen: set<T>)
    ensures forall y :: y in DedupFrom(xs, seen) <==> y in xs && y !in seen
    ensures NoDuplicates(DedupFrom(xs, seen))
  {
    if xs != [] {
      if xs[0] in seen {
        DedupFromSpec(xs[1..], seen);
      } else {
        DedupFromSpec(xs[1..], seen + {xs[0]});
      }
    }
  }

  lemma {:induction false} DedupFromSnoc<T>(xs: seq<T>, seen: set<T>, x: T)
    ensures DedupFrom(xs + [x], seen) == DedupFrom(xs, seen) + (if x in xs || x in seen then [] else [x])
  {
    if xs == [] {
      assert xs + [x] == [x] && [x][1..] == [];
    } else {
      assert (xs + [x])[0] == xs[0] && (xs + [x])[1..] == xs[1..] + [x];
      if xs[0] in seen {
        DedupFromSnoc(xs[1..], seen, x);
      } else {
        DedupFromSnoc(xs[1..], seen + {xs[0]}, x);
      }
    }
  }

  /**
   * De-duplication keeps every distinct item once, and adding an item at the
   * end adds it to the result exactly when it is new: first-occurrence order.
   */
  lemma DedupSpec<T>(xs: seq<T>, x: T)
    ensures forall y :: y in Dedup(xs) <==> y in xs
    ensures NoDuplicates(Dedup(xs))
    ensures Dedup(xs + [x]) == if x in xs then Dedup(xs) else Dedup(xs) + [x]
  {
    DedupFromSpec(xs, {});
    DedupFromSnoc(xs, {}, x);
  }

  function LocationLabels(locs: seq<Location>): (labels: seq<string>)
    ensures |labels| == |locs| && forall i :: 0 <= i < |locs| ==> labels[i] == LocationLabel(locs[i])
  {
    seq(|locs|, i requires 0 <= i < |locs| => LocationLabel(locs[i]))
  }

  /** The card's cities: the first three distinct location labels. */
  function CardCities(locs: seq<Location>): seq<string>
  {
    Take(Dedup(LocationLabels(locs)), 3)
  }

  /**
   * The card's cities are distinct, at most three, a prefix of the labels in
   * first-occurrence order, and miss a label only when three are shown; there
   * is at least one exactly when there is a location.
   */
  lemma CardCitiesSpec(locs: seq<Location>)
    ensures var cities, labels := CardCities(locs), LocationLabels(locs);
      && |cities| <= 3 && NoDuplicates(cities) && cities <= Dedup(labels)
      && (forall c :: c in cities ==> c in labels)
      && (|cities| < 3 ==> forall l :: l in labels ==> l in cities)
      && (cities == [] <==> locs == [])
  {
    var labels := LocationLabels(locs);
    DedupFromSpec(labels, {});
    var d := Dedup(labels);
    var cities := Take(d, 3);
    assert forall i :: 0 <= i < |cities| ==> cities[i] == d[i];
    if locs != [] {
      assert labels[0] in d;
    }
  }

  /** The card's location line: `—`, or the cities with `+N more` when N > 0. */
  datatype SiteLine = NoSites | Sites(cities: seq<string>, more: nat)

  function CardSites(locs: seq<Location>): (r: SiteLine)
    ensures r.NoSites? <==> locs == []
    ensures r.Sites? ==> r.cities == CardCities(locs)
    ensures r.Sites? ==> (r.more > 0 <==> |locs| > 3) && (r.more > 0 ==> r.more == |locs| - 3)
  {
    CardCitiesSpec(locs);
    var cities := CardCities(locs);
    if cities == [] then NoSites else Sites(cities, Overflow(|locs|, 3))
  }

  // ----- Contacts -----

  /** The card's contact line. */
  datatype ContactLine = CentralLine(name: string, email: string) | InvestigatorLine(name: string) | NoContact

  function CardContact(s: Study): (r: ContactLine)
    ensures r.CentralLine? <==> |s.centralContacts| > 0 && s.centralContacts[0].name != ""
    ensures r.InvestigatorLine? <==> !r.CentralLine? && |s.officials| > 0 && s.officials[0].name != ""
    ensures r.CentralLine? ==> r == CentralLine(s.centralContacts[0].name, s.centralContacts[0].email)
    ensures r.InvestigatorLine? ==> r.name == s.officials[0].name
  {
    var central := if |s.centralContacts| > 0 then s.centralContacts[0] else Contact("", "");
    var official := if |s.officials| > 0 then s.officials[0] else Official("");
    if central.name != "" then CentralLine(central.name, central.email)
    else if official.name != "" then InvestigatorLine(official.name)
    else NoContact
  }

  // ----- Cards and the list -----

  /** `id.nctId || '—'`. */
  function NctOf(s: Study): string
  {
    if s.nctId == "" then Marking.Dash else s.nctId
  }

  /** `id.briefTitle || 'Untitled'`. */
  function TitleOf(s: Study): string
  {
    if s.briefTitle == "" then "Untitled" else s.briefTitle
  }

  /** `(sp.leadSponsor || {}).name || '—'`. */
  function SponsorNameOf(s: Study): string
  {
    if s.sponsorName == "" then Marking.Dash else s.sponsorName
  }

  /**
   * The values one result card shows. `title` and `sponsor` are inserted
   * escaped; the contact line and the cities are inserted as they are.
   */
  datatype Card = Card(
    nct: string, title: string, statusChip: string, statusLabel: string,
    phases: Option<string>, sponsor: string, sponsorChip: string, sponsorLabel: string,
    contact: ContactLine, sites: SiteLine, active: bool)

  function BuildCard(s: Study, activeNct: Option<string>): (c: Card)
    ensures c.nct == NctOf(s) && c.phases == CardPhases(s.phases)
    ensures c.active <==> activeNct == Some(c.nct)
    ensures c.statusChip == StatusChip(StatusOf(s)) && c.statusLabel == StatusLabel(StatusOf(s))
    ensures c.sponsorChip == SponsorChip(SponsorClassOf(s)) && c.sponsorLabel == SponsorLabel(SponsorClassOf(s))
    ensures c.title == Esc(TitleOf(s)) && c.sponsor == Esc(SponsorNameOf(s))
    ensures c.sites == CardSites(s.locations) && c.contact == CardContact(s)
  {
    Card(
      NctOf(s), Esc(TitleOf(s)), StatusChip(StatusOf(s)), StatusLabel(StatusOf(s)),
      CardPhases(s.phases), Esc(SponsorNameOf(s)),
      SponsorChip(SponsorClassOf(s)), SponsorLabel(SponsorClassOf(s)),
      CardContact(s), CardSites(s.locations), activeNct == Some(NctOf(s)))
  }

  /** A card's escaped title and sponsor cannot open a tag or an attribute value. */
  lemma CardTextIsMarkupFree(s: Study, activeNct: Option<string>)
    ensures var c := BuildCard(s, activeNct);
      '<' !in c.title && '"' !in c.title && '<' !in c.sponsor && '"' !in c.sponsor
  {
    EscIsMarkupFree(TitleOf(s));
    EscIsMarkupFree(SponsorNameOf(s));
  }

  function Cards(results: seq<Study>, activeNct: Option<string>): (cards: seq<Card>)
    ensures |cards| == |results|
    ensures forall i :: 0 <= i < |results| ==> cards[i] == BuildCard(results[i], activeNct)
  {
    seq(|results|, i requires 0 <= i < |results| => BuildCard(results[i], activeNct))
  }

  /**
   * When the results' identifiers are distinct, at most one card is active,
   * and exactly one when the active identifier is among them.
   */
  lemma OneActiveCard(results: seq<Study>, activeNct: Option<string>)
    requires forall i, j :: 0 <= i < j < |results| ==> NctOf(results[i]) != NctOf(results[j])
    ensures var cards := Cards(results, activeNct);
      forall i, j :: 0 <= i < |cards| && 0 <= j < |cards| && cards[i].active && cards[j].active ==> i == j
    ensures activeNct.Some? && (exists i :: 0 <= i < |results| && NctOf(results[i]) == activeNct.value) ==>
      exists i :: 0 <= i < |results| && Cards(results, activeNct)[i].active
  {
    if activeNct.Some? && (exists i :: 0 <= i < |results| && NctOf(results[i]) == activeNct.value) {
      var i :| 0 <= i < |results| && NctOf(results[i]) == activeNct.value;
      assert Cards(results, activeNct)[i].active;
    }
  }

  /**
   * Identifiers may repeat: two studies without an NCT id both show `—`.
   * While `—` is the active id, every redraw of the list (such as the one
   * after Load more) marks both cards active; the click itself marks only
   * the clicked card, a DOM step this model leaves out.
   */
  lemma CardsWithoutIdShareActive(a: Study, b: Study)
    requires a.nctId == "" && b.nctId == ""
    ensures var cards := Cards([a, b], Some(Marking.Dash)); cards[0].active && cards[1].active
  {
  }

  /** What the results pane shows after a successful search. */
  datatype ListView =
    | EmptyState
    | Listing(total: int, showing: nat, cards: seq<Card>, loadMore: bool)

  /**
   * `renderList`: the empty state exactly when there are no results;
   * otherwise the header with the total count and the number shown, one card
   * per result in order, and the load-more control exactly when a token is held.
   */
  function ListViewOf(results: seq<Study>, token: Option<string>, total: int, activeNct: Option<string>): (v: ListView)
    ensures v.EmptyState? <==> results == []
    ensures v.Listing? ==> v.total == total && v.showing == |results| && |v.cards| == |results|
    ensures v.Listing? ==> forall i :: 0 <= i < |results| ==> v.cards[i] == BuildCard(results[i], activeNct)
    ensures v.Listing? ==> (v.loadMore <==> SearchQuery.Truthy(token))
  {
    if results == [] then EmptyState
    else Listing(total, |results|, Cards(results, activeNct), SearchQuery.Truthy(token))
  }

  // ----- The detail view -----

  datatype InterventionLine = InterventionLine(kind: string, name: string, description: Option<string>)

  /** What is shown of a description: its escaped first 200 characters, with `…` when cut. */
  function ShortDescription(d: string): (r: Option<string>)
    ensures r.None? <==> d == ""
    ensures r.Some? ==> r.value == Esc(Take(d, 200)) + (if |d| > 200 then "\U{2026}" else "")
  {
    if d == "" then None else Some(Esc(Take(d, 200)) + (if |d| > 200 then "\U{2026}" else ""))
  }

  function InterventionLineOf(iv: Intervention): InterventionLine
  {
    InterventionLine(Esc(iv.kind), Esc(iv.name), ShortDescription(iv.description))
  }

  /** The outcomes section: the primary measures and up to six secondary ones. */
  datatype OutcomesSection = OutcomesSection(show: bool, primary: seq<string>, secondary: seq<string>, more: nat)

  function OutcomesOf(s: Study, kw: string): (o: OutcomesSection)
    ensures o.show <==> |s.primaryOutcomes| > 0 || |s.secondaryOutcomes| > 0
    ensures o.primary == Measures(s.primaryOutcomes, kw)
    ensures |o.secondary| == if |s.secondaryOutcomes| < 6 then |s.secondaryOutcomes| else 6
    ensures forall i :: 0 <= i < |o.secondary| ==> o.secondary[i] == Highlight(s.secondaryOutcomes[i].measure, kw)
    ensures |o.secondary| + o.more == |s.secondaryOutcomes|
  {
    var secondary := Take(s.secondaryOutcomes, 6);
    assert forall i :: 0 <= i < |secondary| ==> secondary[i] == s.secondaryOutcomes[i];
    TakeOverflow(s.secondaryOutcomes, 6);
    OutcomesSection(|s.primaryOutcomes| > 0 || |secondary| > 0, Measures(s.primaryOutcomes, kw),
      Measures(secondary, kw), Overflow(|s.secondaryOutcomes|, 6))
  }

  /** Up to six interventions. */
  function InterventionsOf(s: Study): (r: seq<InterventionLine>)
    ensures |r| == if |s.interventions| < 6 then |s.interventions| else 6
    ensures forall i :: 0 <= i < |r| ==> r[i] == InterventionLineOf(s.interventions[i])
  {
    var ivs := Take(s.interventions, 6);
    seq(|ivs|, i requires 0 <= i < |ivs| => InterventionLineOf(ivs[i]))
  }

  /** The locations section: up to twelve locations and the count left out. */
  datatype LocationsSection = LocationsSection(show: bool, shown: seq<Location>, more: nat)

  function LocationsOf(s: Study): (l: LocationsSection)
    ensures l.show <==> |s.locations| > 0
    ensures l.shown <= s.locations && |l.shown| == if |s.locations| < 12 then |s.locations| else 12
    ensures l.more == if |s.locations| > 12 then |s.locations| - 12 else 0
  {
    LocationsSection(|s.locations| > 0, Take(s.locations, 12), Overflow(|s.locations|, 12))
  }

  /** The free texts: shown, highlighted, exactly when present. */
  function TextSection(text: string, kw: string): (r: Option<string>)
    ensures r.Some? <==> text != ""
    ensures r.Some? ==> r.value == Highlight(text, kw)
  {
    if text != "" then Some(Highlight(text, kw)) else None
  }

  /**
   * The values the detail view shows. The free texts (summary, eligibility
   * criteria, outcome measures) are highlighted with `highlight` as written.
   */
  datatype DetailView = DetailView(
    nct: string, title: string, statusChip: string, statusLabel: string, phases: string,
    sponsor: string, sponsorChip: string, sponsorLabel: string,
    siteCount: nat, noContacts: bool,
    summary: Option<string>, eligibility: Option<string>, keywordBadge: bool,
    interventions: seq<InterventionLine>, outcomes: OutcomesSection, locations: LocationsSection)

  function Measures(outs: seq<Outcome>, kw: string): (r: seq<string>)
    ensures |r| == |outs|
    ensures forall i :: 0 <= i < |outs| ==> r[i] == Highlight(outs[i].measure, kw)
  {
    seq(|outs|, i requires 0 <= i < |outs| => Highlight(outs[i].measure, kw))
  }

  /**
   * `renderDetail(data, kw)`: the header values as on the card (the phases
   * with every underscore replaced), the section flags, and the capped lists
   * of `OutcomesOf`, `InterventionsOf` and `LocationsOf`.
   */
  function DetailViewOf(s: Study, kw: string): (v: DetailView)
    ensures v.nct == NctOf(s) && v.title == Esc(TitleOf(s)) && v.sponsor == Esc(SponsorNameOf(s))
    ensures v.statusChip == StatusChip(StatusOf(s)) && v.statusLabel == StatusLabel(StatusOf(s))
    ensures v.sponsorChip == SponsorChip(SponsorClassOf(s)) && v.sponsorLabel == SponsorLabel(SponsorClassOf(s))
    ensures v.phases == DetailPhases(s.phases)
    ensures v.siteCount == |s.locations|
    ensures v.noContacts <==> s.centralContacts == [] && s.officials == []
    ensures v.summary == TextSection(s.briefSummary, kw)
    ensures v.eligibility == TextSection(s.eligibilityCriteria, kw)
    ensures v.keywordBadge <==> s.eligibilityCriteria != "" && kw != ""
    ensures v.interventions == InterventionsOf(s)
    ensures v.outcomes == OutcomesOf(s, kw) && v.locations == LocationsOf(s)
  {
    DetailView(
      NctOf(s), Esc(TitleOf(s)), StatusChip(StatusOf(s)), StatusLabel(StatusOf(s)), DetailPhases(s.phases),
      Esc(SponsorNameOf(s)), SponsorChip(SponsorClassOf(s)), SponsorLabel(SponsorClassOf(s)),
      |s.locations|, s.centralContacts == [] && s.officials == [],
      TextSection(s.briefSummary, kw), TextSection(s.eligibilityCriteria, kw),
      s.eligibilityCriteria != "" && kw != "",
      InterventionsOf(s), OutcomesOf(s, kw), LocationsOf(s))
  }

  /**
   * The detail view shows the highlighter's flaw: a summary `<` searched for
   * `lt` is written `&<mark>lt</mark>;`, which a browser shows as `&lt;`.
   */
  lemma DetailSummaryInsideEntity(s: Study)
    requires s.briefSummary == "<"
    ensures DetailViewOf(s, "lt").summary == Some("&" + Open + "lt" + Close + ";")
    ensures Displayed(DetailViewOf(s, "lt").summary.value, []) == "&lt;"
  {
    HighlightMarksInsideEntity();
  }
}
