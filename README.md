# trialfinder core, modelled in Dafny

trialfinder is a single-page browser for ClinicalTrials.gov. The user types a
keyword or a condition, ticks statuses, picks phases and a US-only switch, and
gets a list of trial cards. Clicking a card fetches that trial's full record
and shows it with the keyword highlighted. All of it lives in `app.js`. This
project models the logic inside that file: the HTML escaper, the keyword
highlighter, the validation and query parameters of a search, the page
state and the handlers that change it, and the values the list, the cards and
the detail view derive from the records.

Modules:

- `Wrappers` (`wrappers.dfy`): `Option`.
- `Text` (`text.dfy`): JavaScript string operations the code relies on.
  - `replace` with a global pattern (`ReplaceAll`) and with a string pattern (`ReplaceFirst`).
  - `join`, `slice` (`Take`) and `trim`.
  - A `Split` that the page never calls. It is there only to state that the status list can be read back (`SearchQuery.StatusListRoundTrip`).
- `Escaping` (`escaping.dfy`): `esc`, and the decoder a browser applies to its output.
- `Marking` (`marking.dfy`): `highlight`.
  - A literal, ASCII case-insensitive, leftmost, non-overlapping scan (`Scan`).
  - The markup it produces.
  - `Displayed`: the text a browser shows for that markup, decoding only the four entity references `esc` writes.
- `Records` (`records.dfy`): the parts of a study record and of a search response that the modelled logic reads.
- `SearchQuery` (`search_query.dfy`): the sidebar tables, `getCheckedStatuses`, the refusal of blank searches, and the parameters of the list request.
- `Views` (`views.dfy`): what `renderList`, `buildCard` and `renderDetail` decide.
  - Status and sponsor classification, phase chips, de-duplicated cities, contact lines.
  - The capped sections of the detail view, the empty state and the load-more control.
- `SearchSession` (`session.dfy`): class `Session`, whose fields are the page's module-level `let` variables. Its methods are `togglePhase`, `toggleUS`, `doSearch`, `quickKw`, `clearSearch` and `selectTrial`.

How the source's values are represented:

- A missing string field and an empty one fall to the same `||` default, so both are `""`.
- `selectedPhases` is a JavaScript `Set`. A `Set` iterates in insertion order, so it is a sequence without repeats.
- The request parameters are a `map<string, string>`, filled by successive updates as `params.set` does.
- What a handler reads from the page is a parameter of its method: input values and the set of checked status boxes.
- What a `fetch` led to is also a parameter: `Reply.Ok(data)`, or `Reply.Failed(error)` for a non-success status or a thrown error.

## Model

| member | source | states |
|---|---|---|
| Text.TrimEmptyIffBlank | app.js:68-70 | a trimmed input is empty exactly when every character is ECMAScript white space or a line terminator |
| Escaping.EscIsEncoding | app.js:466-469 | the four chained replaces, `&` first, equal one left-to-right pass replacing each of `& < > "` by its entity; the empty string gives `''` |
| Escaping.EscIsMarkupFree | app.js:466-469 | the output of `esc` contains no `<`, `>` or `"` |
| Escaping.UnescapeEsc | app.js:466-469 | decoding `&quot;`, `&gt;`, `&lt;` and then `&amp;` gives back the input of `esc` |
| Escaping.EscConcat | app.js:466-469 | `esc` of a concatenation is the concatenation of the escaped parts |
| Marking.ScanIsGreedyParse | app.js:302-304 | the scan splits the text into plain characters and keyword matches whose concatenation is the text; each match equals the keyword up to ASCII case; each plain character is one where no match starts |
| Marking.ScanUnique | app.js:302-304 | at most one split meets these rules, so the leftmost non-overlapping matches are uniquely determined |
| Marking.HighlightCases | app.js:299-305 | empty text gives `—`; an empty keyword gives exactly `esc(text)`; otherwise deleting the `<mark>` and `</mark>` tags gives back `esc(text)` |
| Marking.HighlightMarksKeyword | app.js:299-305 | the marked spans are the keyword up to case, found leftmost and non-overlapping over the escaped text |
| Marking.HighlightMarksInsideEntity | app.js:299-305 | as written, text `<` with keyword `lt` gives `&<mark>lt</mark>;`, which a browser shows as `&lt;` |
| Marking.HighlightIntendedCases | app.js:299-305 | the corrected highlighter keeps the same promises (`—`, `esc(text)`, tags deleted give `esc(text)`), with matches taken over the original text |
| Marking.HighlightIntendedDisplaysText | app.js:299-305 | with the corrected highlighter, the text a browser shows for a non-empty text is always that text |
| SearchQuery.CheckedStatuses | app.js:62-64 | the checked statuses, exactly those that are status keys, in checkbox order |
| SearchQuery.DefaultStatuses | app.js:2-10 | with the boxes checked by default, the statuses are `RECRUITING` then `NOT_YET_RECRUITING` |
| SearchQuery.DefaultStatusParam | app.js:87 | with the default boxes, `filter.overallStatus` is `RECRUITING,NOT_YET_RECRUITING` |
| SearchQuery.RejectsIffBlank | app.js:68-70 | a search is refused exactly when both the keyword and the condition input are entirely white space |
| SearchQuery.BuildParams | app.js:84-106 | see the bullet list below the table |
| SearchQuery.ParamsDetermined | app.js:84-106 | the parameter rules determine the parameter map uniquely |
| SearchQuery.TwoPhaseExpression | app.js:88-90 | selecting `PHASE2` and then `PHASE3` gives `AREA[Phase]PHASE2 OR AREA[Phase]PHASE3` |
| SearchQuery.StatusListRoundTrip | app.js:87 | splitting the status parameter at commas gives back the checked statuses |
| Views.StatusChipCases | app.js:191-195 | the status chip map is total: a status with a checkbox gets `chip-` plus its key, every other status `chip-DEFAULT` |
| Views.StatusLabelSpaces | app.js:196 | the status label is the status with every `_`, and nothing else, replaced by a space |
| Views.SponsorCases | app.js:174-180 | INDUSTRY gives Industry/chip-industry; NIH and FED give NIH/Gov/chip-academic; NETWORK gives Network/chip-academic; anything else gives Academic/Other/chip-other |
| Views.SponsorChipFollowsLabel | app.js:174-180 | the sponsor chip is a function of the sponsor label, so the two maps never disagree |
| Views.CardPhasesMatchDetail | app.js:170 | the card replaces only the first `_` of a phase and the detail view (app.js:274) every one; for phases with at most one `_` the card's chip matches the detail view's, and where the card shows no chip the detail view shows `N/A` |
| Views.SidebarPhasesQualify | app.js:11-18 | every phase the sidebar offers has at most one `_` |
| Views.DedupSpec | app.js:188 | `[...new Set(xs)]` keeps each distinct item once; adding an item at the end adds it to the result exactly when it is new (first-occurrence order) |
| Views.CardCitiesSpec | app.js:188 | the card's cities are distinct and at most 3; they are a prefix of the distinct location labels in first-occurrence order; a label is missing only when 3 are shown; there are none exactly when there are no locations |
| Views.CardSites | app.js:206-208 | `—` exactly when there are no locations; otherwise the cities, with `+N more` exactly when there are more than 3 sites, N being the number of sites minus 3 |
| Views.CardContact | app.js:200-204 | the named first central contact (with email) if there is one, else the named first official as PI, else no contact |
| Views.BuildCard | app.js:159-234 | the card's id is the NCT id or `—`, and the card is active exactly when the active identifier is that id; it shows the escaped title and sponsor, the phase chip of `CardPhases`, the status and sponsor classification, the sites and the contact |
| Views.CardTextIsMarkupFree | app.js:215 | a card's title and sponsor contain no `<` and no `"` |
| Views.OneActiveCard | app.js:211 | when NCT ids are distinct, at most one card is active, and one is when the active id is among the results |
| Views.CardsWithoutIdShareActive | app.js:167 | ids need not be distinct: two studies without an NCT id both show `—`; while `—` is the active id, every redraw of the list (such as `renderList` after Load more) marks both cards active. `selectTrial` itself marks only the clicked card, a DOM step that is not modelled |
| Views.ListViewOf | app.js:137-154 | the empty state exactly when there are no results; otherwise the total, the number shown, one card per result in order, and load-more exactly when a non-empty token is held |
| Views.ShortDescription | app.js:409 | an empty description shows nothing; otherwise its first 200 characters are escaped and shown, with `…` exactly when it is longer |
| Views.OutcomesOf | app.js:308-310 | all primary and at most 6 secondary outcomes, each measure passed through `highlight` as written (`Marking.Highlight`, app.js:420 and 426); the shown secondaries plus the `+N more` count add up to all of them; the section shows when either list is non-empty |
| Views.InterventionsOf | app.js:312 | at most 6 interventions, the first ones in order |
| Views.LocationsOf | app.js:315-316 | at most 12 locations, a prefix of the record's, and `locMore = max(0, n - 12)`; the section shows exactly when there is a location |
| Views.TextSection | app.js:388-399 | the summary and the eligibility criteria are shown exactly when present, passed through `highlight` as written (`Marking.Highlight`) |
| Views.DetailViewOf | app.js:258-462 | the detail view shows the NCT id, escaped title and sponsor, the status and sponsor classification, and the phases with every `_` replaced; it flags the no-contacts note and the keyword badge, and contains the sections above |
| Views.DetailSummaryInsideEntity | app.js:388-391 | the highlighter's flaw reaches the detail view: a summary `<` searched for `lt` is written `&<mark>lt</mark>;` and shown as `&lt;` |
| SearchSession.RemoveSpec | app.js:47 | `Set.delete` removes exactly the key, keeps the rest, and keeps them free of repeats |
| SearchSession.ToggleFlips | app.js:46-49 | `togglePhase` flips the key's membership and leaves every other key's membership alone |
| SearchSession.ToggleTwice | app.js:46-49 | toggling twice restores the selected set, and also the order when the key was not selected |
| SearchSession.NormalizeToken | app.js:115 | the stored token is the response's token when that is non-empty, otherwise null |
| SearchSession.Accumulate | app.js:117 | append keeps the old results as a prefix and adds exactly the response's studies; replace gives exactly the studies; missing studies count as none |
| SearchSession.Session.constructor | app.js:20-26 | the initial values of the page state |
| SearchSession.Session.TogglePhase | app.js:46-49 | the selection becomes the toggled one; nothing else changes; the selection stays free of repeats |
| SearchSession.Session.ToggleUS | app.js:51-54 | flips the US-only switch and nothing else |
| SearchSession.Session.DoSearch | app.js:67-125 | see the bullet list below the table |
| SearchSession.Session.Reset | app.js:74-77 | a non-append search clears the results, the token and the active trial before its request; an append search keeps them |
| SearchSession.Session.Receive | app.js:115-117 | a response sets the token (or null), the total (or 0) and the accumulated results |
| SearchSession.Session.QuickKw | app.js:56-60 | a quick keyword runs a new, non-append search with that keyword and no condition. It is refused, changing nothing, only for a blank keyword. Otherwise the parameters follow the rules with no condition and no page token, and the filters are kept. On success the results are exactly the response's studies, with the token and total set; on failure the results and token are cleared and the total is kept |
| SearchSession.Session.ClearSearch | app.js:471-480 | results, token, total, active trial and last query return to their initial values, so `renderList` would draw the empty state; the phase selection and the US-only switch are kept |
| SearchSession.Session.SelectTrial | app.js:238-256 | the trial becomes the active one; a fetched record is drawn as `DetailViewOf`, with `highlight` as written and the last search's keyword (or none); a failure shows the error |

`SearchQuery.BuildParams` meets these parameter rules:

- `query.term` is present exactly when the keyword is non-empty, and its value is the keyword.
- `query.cond` is present exactly when the condition is non-empty, and its value is the condition.
- `filter.overallStatus` is present exactly when a status is checked. Its value is the statuses joined with `,`.
- `filter.advanced` is present exactly when a phase is selected. Its value is the `AREA[Phase]p` terms joined with ` OR `, in selection order.
- `filter.geo` is present exactly when US-only is on. Its value is `distance(39.5,-98.35,1500mi)`.
- `pageToken` is present exactly when appending with a non-empty token.
- `pageSize=20`, `countTotal=true`, `format=json` and the field list are always present.
- No other key occurs.

`SearchSession.Session.DoSearch` promises:

- A search is refused, with the alert message, exactly when both trimmed inputs are empty. A refused search changes no state and sends no request.
- Otherwise `lastQuery` holds the trimmed inputs and the statuses. The parameters follow the rules above. A non-append search clears the active trial.
- On failure, the results and the token keep their post-reset values, and the total is unchanged.
- On success, the results are accumulated, the token and the total are set, and the list view is drawn from the new state.

## Left out

- `fetch`, `res.ok` and `res.json`.
  - What a request led to is an input value instead.
  - The error text (`HTTP n`, or an exception's message) is kept as data. The error box is not modelled.
- The interleaving of `async` steps. Each handler is modelled as one atomic step, from its first statement to its last. The code does nothing about the races this hides:
  - overlapping searches, where a stale response can overwrite a newer one;
  - two detail fetches finishing out of order, so the panel shows the trial clicked first;
  - `selectTrial` reading `lastQuery.kw` after its `await`, so a search started meanwhile changes the keyword highlighted;
  - a search's `renderList` using whatever `activeNCT` holds when its response lands, including a trial selected while the search ran.
- DOM access and the HTML templates: `innerHTML`, `classList`, `alert`, `setSearching`, `buildSidebar`, the spinner and the placeholder panels. Only the decisions and the values inserted are modelled.
- `toLocaleString`, the card's animation delay and the icons. They are presentation only.
- Marking.Highlight: matching folds case by `Lower`, which covers ASCII letters only. `RegExp` with the `i` flag also folds other letters. The keyword's metacharacters are escaped, so matching is literal, as modelled.
- String lengths and `substring(0, 200)` count code points here. JavaScript counts UTF-16 code units. These differ outside the Basic Multilingual Plane.
- `esc` and the record fields are modelled on strings only. `String(s)` of a number or an object is not modelled.
- Falsy values other than a missing field or `""` are not modelled: `0`, `NaN` or `false` stored in a string field.
- Keys of `Object.prototype` (such as `constructor`) looked up in the status chip map are not modelled. The map is modelled as containing only its seven keys.
- The detail view's enrollment, study type, dates, conditions, collaborators, outcome time frames and the per-contact and per-location lines. They are printed field by field with no logic beyond `esc` and a default. The record model does not carry these fields.
- Fields inserted without `esc`. The model records this: only the title and sponsor (and, in the detail view, the highlighted and intervention texts) are escaped. No property is claimed about the other fields.
  - The card: the NCT id, the phase chip, the status label, the contact's name and email, and the city labels.
  - The detail view: the NCT id, the status label, the phases and each location's city line.
- Marking.Displayed: it decodes only `&quot;`, `&gt;`, `&lt;` and `&amp;`. A browser also decodes other references, such as the legacy `&lt` without `;`.
  - Example: keyword `&lt` over text `<` gives `<mark>&lt</mark>;`. A browser shows `<;` there, which the model does not capture.
  - `Marking.HighlightIntendedDisplaysText` is not affected: every `&` in the corrected output starts a whole entity `esc` wrote.

## Findings

| source | as written | input that shows it | evidently intended | confidence | as-written member | corrected member |
|---|---|---|---|---|---|---|
| app.js:299-305 | `highlight` escapes the text first and then searches the escaped text, so a keyword can match inside an entity reference `esc` inserted | text `<` and keyword `lt`: the output is `&<mark>lt</mark>;`, and a browser shows `&lt;` where the record says `<` | search the original text and escape each piece, so the display always shows the record's text | not executed | Marking.HighlightMarksInsideEntity | Marking.HighlightIntendedDisplaysText |
