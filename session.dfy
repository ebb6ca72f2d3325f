/**
 * The page's module-level state (`selectedPhases`, `usOnly`, `results`,
 * `nextPageToken`, `totalCount`, `activeNCT`, `lastQuery`) as one object,
 * and the handlers that change it: `togglePhase`, `toggleUS`, `doSearch`,
 * `quickKw`, `clearSearch` and `selectTrial`. What a handler reads from the
 * page (input values, checked boxes) and what a `fetch` call led to are
 * passed in as parameters.
 */
module SearchSession {
  import opened Wrappers
  import opened Text
  import opened Records
  import opened SearchQuery
  import Views

  /** `lastQuery`: `{}` before any search and after `clearSearch`. */
  datatype LastQuery = NoQuery | Query(kw: string, cond: string, statuses: seq<string>)

  /** `lastQuery.kw || ''`. */
  function QueryKeyword(q: LastQuery): string
  {
    if q.Query? then q.kw else ""
  }

  /** What `doSearch` ends in: the alert, the error box, or the rendered list. */
  datatype SearchOutcome =
    | Rejected(message: string)
    | RequestFailed(params: map<string, string>, error: FetchError)
    | Listed(params: map<string, string>, view: Views.ListView)

  /** What `selectTrial` ends in: the detail view or the error box. */
  datatype DetailOutcome = Detail(view: Views.DetailView) | DetailFailed(error: FetchError)

  // ----- The phase selection -----

  /** `Set.prototype.delete`: the other members keep their order. */
  function Remove(xs: seq<string>, key: string): (r: seq<string>)
  {
    if xs == [] then []
    else if xs[0] == key then Remove(xs[1..], key)
    else [xs[0]] + Remove(xs[1..], key)
  }

  lemma {:induction false} RemoveSpec(xs: seq<string>, key: string)
    ensures forall k :: k in Remove(xs, key) <==> k in xs && k != key
    ensures Views.NoDuplicates(xs) ==> Views.NoDuplicates(Remove(xs, key))
    ensures key !in xs ==> Remove(xs, key) == xs
  {
    if xs != [] {
      RemoveSpec(xs[1..], key);
      if Views.NoDuplicates(xs) {
        assert Views.NoDuplicates(xs[1..]) by {
          forall i, j | 0 <= i < j < |xs[1..]| ensures xs[1..][i] != xs[1..][j] {
            assert xs[1..][i] == xs[i + 1] && xs[1..][j] == xs[j + 1];
          }
        }
        assert xs[0] !in xs[1..];
      }
    }
  }

  lemma {:induction false} RemoveSnoc(xs: seq<string>, key: string)
    requires key !in xs
    ensures Remove(xs + [key], key) == xs
  {
    if xs == [] {
      assert [key][1..] == [];
    } else {
      assert (xs + [key])[0] == xs[0] && (xs + [key])[1..] == xs[1..] + [key];
      RemoveSnoc(xs[1..], key);
    }
  }

  /** `togglePhase(key)`: delete the key when selected, otherwise add it at the end. */
  function Toggle(phases: seq<string>, key: string): seq<string>
  {
    if key in phases then Remove(phases, key) else phases + [key]
  }

  /**
   * Toggling flips the key's membership and no other's, and keeps the
   * selection free of duplicates.
   */
  lemma ToggleFlips(phases: seq<string>, key: string)
    requires Views.NoDuplicates(phases)
    ensures Views.NoDuplicates(Toggle(phases, key))
    ensures key in Toggle(phases, key) <==> key !in phases
    ensures forall k :: k != key ==> (k in Toggle(phases, key) <==> k in phases)
  {
    RemoveSpec(phases, key);
  }

  /**
   * Toggling twice restores the selected set; a key that was not selected is
   * added at the end and removed again, restoring the order as well.
   */
  lemma ToggleTwice(phases: seq<string>, key: string)
    requires Views.NoDuplicates(phases)
    ensures forall k :: k in Toggle(Toggle(phases, key), key) <==> k in phases
    ensures key !in phases ==> Toggle(Toggle(phases, key), key) == phases
  {
    ToggleFlips(phases, key);
    ToggleFlips(Toggle(phases, key), key);
    if key !in phases {
      RemoveSnoc(phases, key);
    }
  }

  // ----- A search response -----

  /** `data.nextPageToken || null`. */
  function NormalizeToken(token: Option<string>): (r: Option<string>)
    ensures r.Some? ==> |r.value| > 0
    ensures Truthy(token) ==> r == token
    ensures !Truthy(token) ==> r == None
  {
    if Truthy(token) then token else None
  }

  /** `append ? [...results, ...(data.studies || [])] : (data.studies || [])`. */
  function Accumulate(prev: seq<Study>, data: SearchData, append: bool): (r: seq<Study>)
    ensures append ==> prev <= r && r[|prev|..] == data.studies.GetOr([])
    ensures |r| == (if append then |prev| else 0) + |data.studies.GetOr([])|
    ensures !append ==> r == data.studies.GetOr([])
  {
    if append then prev + data.studies.GetOr([]) else data.studies.GetOr([])
  }

  class Session {
    var selectedPhases: seq<string>
    var usOnly: bool
    var results: seq<Study>
    var nextPageToken: Option<string>
    var totalCount: int
    var activeNct: Option<string>
    var lastQuery: LastQuery

    /** A selection has no repeats, and a stored token is never the empty string. */
    ghost predicate Valid()
      reads this
    {
      Views.NoDuplicates(selectedPhases) && (nextPageToken.Some? ==> |nextPageToken.value| > 0)
    }

    /** The values the `let` declarations start with. */
    constructor()
      ensures Valid()
      ensures selectedPhases == [] && usOnly
      ensures results == [] && nextPageToken == None && totalCount == 0
      ensures activeNct == None && lastQuery == NoQuery
    {
      selectedPhases := [];
      usOnly := true;
      results := [];
      nextPageToken := None;
      totalCount := 0;
      activeNct := None;
      lastQuery := NoQuery;
    }

    /** The results pane as `renderList` would draw it from the current state. */
    function View(): Views.ListView
      reads this
    {
      Views.ListViewOf(results, nextPageToken, totalCount, activeNct)
    }

    method TogglePhase(key: string)
      requires Valid()
      modifies this
      ensures Valid()
      ensures selectedPhases == Toggle(old(selectedPhases), key)
      ensures usOnly == old(usOnly) && results == old(results) && nextPageToken == old(nextPageToken)
      ensures totalCount == old(totalCount) && activeNct == old(activeNct) && lastQuery == old(lastQuery)
    {
      ToggleFlips(selectedPhases, key);
      if key in selectedPhases {
        selectedPhases := Remove(selectedPhases, key);
      } else {
        selectedPhases := selectedPhases + [key];
      }
    }

    method ToggleUS()
      requires Valid()
      modifies this
      ensures Valid()
      ensures usOnly == !old(usOnly)
      ensures selectedPhases == old(selectedPhases) && results == old(results) && nextPageToken == old(nextPageToken)
      ensures totalCount == old(totalCount) && activeNct == old(activeNct) && lastQuery == old(lastQuery)
    {
      usOnly := !usOnly;
    }

    /**
     * `doSearch(append)` with the raw input values, the set of checked status
     * boxes and what the request led to.
     */
    method DoSearch(kwInput: string, condInput: string, checked: set<string>, append: bool, reply: Reply<SearchData>)
      returns (outcome: SearchOutcome)
      requires Valid()
      modifies this
      ensures Valid()
      ensures outcome.Rejected? <==> Rejects(kwInput, condInput)
      ensures outcome.Rejected? ==> outcome.message == EmptySearchMessage
      ensures outcome.Rejected? ==>
        && selectedPhases == old(selectedPhases) && usOnly == old(usOnly) && results == old(results)
        && nextPageToken == old(nextPageToken) && totalCount == old(totalCount)
        && activeNct == old(activeNct) && lastQuery == old(lastQuery)
      ensures !outcome.Rejected? ==>
        && lastQuery == Query(Trim(kwInput), Trim(condInput), CheckedStatuses(checked))
        && ParamsFor(outcome.params, Trim(kwInput), Trim(condInput), CheckedStatuses(checked),
             old(selectedPhases), old(usOnly), append, if append then old(nextPageToken) else None)
        && selectedPhases == old(selectedPhases) && usOnly == old(usOnly)
        && activeNct == (if append then old(activeNct) else None)
      ensures outcome.RequestFailed? ==>
        && reply == Failed(outcome.error)
        && results == (if append then old(results) else [])
        && nextPageToken == (if append then old(nextPageToken) else None)
        && totalCount == old(totalCount)
      ensures outcome.Listed? ==>
        && reply.Ok?
        && results == Accumulate(old(results), reply.data, append)
        && nextPageToken == NormalizeToken(reply.data.nextPageToken)
        && totalCount == reply.data.totalCount.GetOr(0)
        && outcome.view == View()
    {
      var kw := Trim(kwInput);
      var cond := Trim(condInput);
      if kw == [] && cond == [] {
        return Rejected(EmptySearchMessage);
      }
      var statuses := CheckedStatuses(checked);
      Reset(append);
      var params := BuildParams(kw, cond, statuses, selectedPhases, usOnly, append, nextPageToken);
      lastQuery := Query(kw, cond, statuses);
      match reply {
        case Failed(e) =>
          outcome := RequestFailed(params, e);
        case Ok(data) =>
          Receive(data, append);
          outcome := Listed(params, View());
      }
    }

    /** The reset a new (non-append) search makes before its request. */
    method Reset(append: bool)
      requires Valid()
      modifies this
      ensures Valid()
      ensures results == (if append then old(results) else [])
      ensures nextPageToken == (if append then old(nextPageToken) else None)
      ensures activeNct == (if append then old(activeNct) else None)
      ensures selectedPhases == old(selectedPhases) && usOnly == old(usOnly)
      ensures totalCount == old(totalCount) && lastQuery == old(lastQuery)
    {
      if !append {
        results := [];
        nextPageToken := None;
        activeNct := None;
      }
    }

    /** What a successful response does to the state. */
    method Receive(data: SearchData, append: bool)
      requires Valid()
      modifies this
      ensures Valid()
      ensures results == Accumulate(old(results), data, append)
      ensures nextPageToken == NormalizeToken(data.nextPageToken)
      ensures totalCount == data.totalCount.GetOr(0)
      ensures selectedPhases == old(selectedPhases) && usOnly == old(usOnly)
      ensures activeNct == old(activeNct) && lastQuery == old(lastQuery)
    {
      nextPageToken := NormalizeToken(data.nextPageToken);
      totalCount := data.totalCount.GetOr(0);
      results := Accumulate(results, data, append);
    }

    /**
     * `quickKw(kw)`: the keyword box set to `kw`, the condition box emptied,
     * and a new (non-append) search run with them.
     */
    method QuickKw(kw: string, checked: set<string>, reply: Reply<SearchData>) returns (outcome: SearchOutcome)
      requires Valid()
      modifies this
      ensures Valid()
      ensures outcome.Rejected? <==> Trim(kw) == []
      ensures outcome.Rejected? ==>
        && outcome.message == EmptySearchMessage
        && selectedPhases == old(selectedPhases) && usOnly == old(usOnly) && results == old(results)
        && nextPageToken == old(nextPageToken) && totalCount == old(totalCount)
        && activeNct == old(activeNct) && lastQuery == old(lastQuery)
      ensures !outcome.Rejected? ==>
        && lastQuery == Query(Trim(kw), "", CheckedStatuses(checked))
        && ParamsFor(outcome.params, Trim(kw), "", CheckedStatuses(checked),
             old(selectedPhases), old(usOnly), false, None)
        && selectedPhases == old(selectedPhases) && usOnly == old(usOnly) && activeNct == None
      ensures outcome.RequestFailed? ==>
        && reply == Failed(outcome.error)
        && results == [] && nextPageToken == None && totalCount == old(totalCount)
      ensures outcome.Listed? ==>
        && reply.Ok?
        && results == reply.data.studies.GetOr([])
        && nextPageToken == NormalizeToken(reply.data.nextPageToken)
        && totalCount == reply.data.totalCount.GetOr(0)
        && outcome.view == View()
    {
      assert Trim("") == [];
      outcome := DoSearch(kw, "", checked, false, reply);
    }

    /** `clearSearch()`: the search state goes back to its initial value; the filters stay. */
    method ClearSearch()
      requires Valid()
      modifies this
      ensures Valid()
      ensures results == [] && nextPageToken == None && totalCount == 0 && activeNct == None && lastQuery == NoQuery
      ensures selectedPhases == old(selectedPhases) && usOnly == old(usOnly)
      ensures View() == Views.EmptyState
    {
      results := [];
      nextPageToken := None;
      totalCount := 0;
      activeNct := None;
      lastQuery := NoQuery;
    }

    /**
     * `selectTrial(nct)`: the trial becomes the active one before its record
     * is requested; the record is drawn highlighted with the last search's keyword.
     */
    method SelectTrial(nct: string, reply: Reply<Study>) returns (outcome: DetailOutcome)
      requires Valid()
      modifies this
      ensures Valid()
      ensures activeNct == Some(nct)
      ensures selectedPhases == old(selectedPhases) && usOnly == old(usOnly) && results == old(results)
      ensures nextPageToken == old(nextPageToken) && totalCount == old(totalCount) && lastQuery == old(lastQuery)
      ensures reply.Ok? ==> outcome == Detail(Views.DetailViewOf(reply.data, QueryKeyword(lastQuery)))
      ensures reply.Failed? ==> outcome == DetailFailed(reply.error)
    {
      activeNct := Some(nct);
      match reply {
        case Ok(data) =>
          outcome := Detail(Views.DetailViewOf(data, QueryKeyword(lastQuery)));
        case Failed(e) =>
          outcome := DetailFailed(e);
      }
    }
  }
}
