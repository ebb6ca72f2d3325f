/**
 * The parts of the registry's study record and search response that the
 * modelled logic reads; fields the detail view only prints are not carried.
 * Every string field stands for the JavaScript value after the page's
 * `|| {}` guards: an absent field and an empty string are both `""`, because
 * every use of them goes through the same falsy test. Absent lists are `[]`.
 */
module Records {
  import opened Wrappers

  datatype Contact = Contact(name: string, email: string)

  datatype Official = Official(name: string)

  datatype Location = Location(city: string, state: string, country: string)

  datatype Intervention = Intervention(kind: string, name: string, description: string)

  datatype Outcome = Outcome(measure: string)

  /** One study: the `protocolSection` modules the card and the detail view use. */
  datatype Study = Study(
    nctId: string,
    briefTitle: string,
    overallStatus: string,
    phases: seq<string>,
    sponsorName: string,
    sponsorClass: string,
    centralContacts: seq<Contact>,
    officials: seq<Official>,
    locations: seq<Location>,
    briefSummary: string,
    eligibilityCriteria: string,
    interventions: seq<Intervention>,
    primaryOutcomes: seq<Outcome>,
    secondaryOutcomes: seq<Outcome>)

  /** The decoded body of a search response; each member may be missing. */
  datatype SearchData = SearchData(
    studies: Option<seq<Study>>, nextPageToken: Option<string>, totalCount: Option<int>)

  /** Why a request was abandoned: a non-success status, or a thrown error (network, JSON). */
  datatype FetchError = HttpStatus(code: int) | Thrown(message: string)

  /** What a `fetch` call led to, passed in as a plain value. */
  datatype Reply<T> = Ok(data: T) | Failed(error: FetchError)
}
