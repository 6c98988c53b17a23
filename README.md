# Wedding invitation RSVP — a verified model

The site has two pages and one hosted function. The landing page collects an
RSVP in a form record, lets the guest tick dietary tags, posts the record and
counts down to the wedding. The admin page logs in with a key, lists the stored
answers and shows three totals: attending, declining and guests. The hosted
RSVP function answers the browser's preflight, stores a validated answer in the
`rsvp_responses` table and lists the table to a caller with the admin key.

This project models that logic in Dafny and proves what each part promises.

- `wrappers.dfy` (`Wrappers`): `Option` for JavaScript's `null`/`undefined` and Python's missing keys.
- `index_page.dfy` (`IndexPage`): the form record and its initial value, the dietary toggle, the submit outcome, the countdown split, and the page's state as the class `Page`.
- `admin_page.dfy` (`AdminPage`): the aggregates, the dietary label renderer, and the login session as the class `Session`, with the persisted key as the field `storedKey`.
- `rsvp_handler.dfy` (`RsvpHandler`): the request and reply shapes and Python's `str.strip`. It also holds the POST normalisation and validation, the handler as two functions of the request and the table (`Respond`, `Stored`), and the class `RsvpFunction`, which owns the table and implements `Handle` against those functions.
- `wiring.dfy` (`Wiring`): the form record as the function decodes it, and a whole submission end to end.

One fact runs across files. The form record has no `email` field, but the
function requires a non-blank `email`. `Wiring.EveryFormSubmissionRejected`
proves that every record the form can hold is refused: 400 with a database
configured, 500 without one. Nothing is stored and the page never shows its
thanks. `Wiring.SubmitForm` runs the two sides one after the other and proves
the same of the page's state.

Some of this behaviour is not what a reader of the pages would expect; the
model follows the code:

- The form does not validate anything itself. `handleSubmit` posts whatever the record holds. Only the browser's `required` attributes stand in the way, and those are not modelled.
- The function requires `name`, `email` and `attendance`, not `phone`.
- Toggling a tag twice restores the list whenever the tag started unchecked. A checked tag ends up once, at the end, so the list changes unless the tag already occurred once, last (`IndexPage.ToggleTwiceMovesToEnd`, `IndexPage.ToggleTwiceReorders`). As sets of tags the two lists are equal.
- The viewer does not check attendance: a response whose attendance is neither "yes" nor "no" is counted in neither tile (`AdminPage.CountsCoverResponses`). It reads a guest count of 0 as 1, the same as a missing one. An empty `responses` list still counts as a successful login.
- The viewer's label table has `vegan`, `gluten-free` and `lactose-free`, but no `meat` or `fish`. The form's `meat` and `fish` tags are shown verbatim.

## Model

| member | source | states |
|---|---|---|
| `IndexPage.InitialForm` | src/pages/Index.tsx:14-22 | the form record's initial value: empty strings, guestsCount "1" and no tags; the page starts with it (`Page.constructor`) and returns to it after a confirmed submission (`Page.HandleSubmit`) |
| `IndexPage.Confirmed` | src/pages/Index.tsx:38 | `response.ok && data.success`: the one reply `Page.HandleSubmit` treats as success |
| `IndexPage.Without` | src/pages/Index.tsx:72 | the filtered list never holds the value and holds exactly the other elements of the input, and is no longer than the input |
| `IndexPage.WithoutAppend` | src/pages/Index.tsx:72 | filtering distributes over concatenation, so survivors keep their relative order |
| `IndexPage.WithoutAbsent` | src/pages/Index.tsx:72 | filtering out a value that does not occur returns the list unchanged |
| `IndexPage.Toggled` | src/pages/Index.tsx:68-75 | membership of the toggled tag flips; membership of every other tag is unchanged |
| `IndexPage.ToggleAbsentAppends` | src/pages/Index.tsx:71-73 | an absent tag is appended at the end and the existing elements keep their order |
| `IndexPage.ToggleRemovesEveryOccurrence` | src/pages/Index.tsx:71-72 | a present tag is removed everywhere; what remains is the filtered part before it followed by the filtered part after it |
| `IndexPage.ToggleTwiceRestores` | src/pages/Index.tsx:71-73 | toggling an absent tag twice returns exactly the original list |
| `IndexPage.ToggleTwiceMovesToEnd` | src/pages/Index.tsx:71-73 | toggling a present tag twice gives the other tags in order, then the tag once at the end |
| `IndexPage.ToggleTwiceReorders` | src/pages/Index.tsx:71-73 | concretely, ["vegetarian","fish"] toggled twice on "vegetarian" becomes ["fish","vegetarian"] |
| `IndexPage.Countdown` | src/pages/Index.tsx:91-102 | a negative distance gives all zeros; otherwise hours < 24, minutes < 60, seconds < 60, and the recomposed milliseconds r satisfy r <= d < r + 1000 |
| `IndexPage.CountdownSplits` | src/pages/Index.tsx:97-102 | the four floor/modulo expressions are normal and recompose to within a second below the distance |
| `IndexPage.CountdownInverts` | src/pages/Index.tsx:97-102 | any normal countdown value plus fewer than 1000 ms splits back into itself, so the split is unique |
| `IndexPage.Page.constructor` | src/pages/Index.tsx:14-22 | the page starts with the initial form record (empty strings, guestsCount "1", no tags), a zero countdown and the timer running |
| `IndexPage.Page.ToggleDietary` | src/pages/Index.tsx:68-75 | only the dietary list of the form changes, to its toggled value |
| `IndexPage.Page.HandleSubmit` | src/pages/Index.tsx:36-65 | an OK reply with a truthy success resets the form to the initial record with the thanks notice; a non-OK status or missing success keeps the form with the failure notice; an exception keeps the form with the connection notice |
| `IndexPage.Page.Tick` | src/pages/Index.tsx:87-103 | each tick stores the countdown split of the distance; a negative distance stores zeros and stops the timer |
| `IndexPage.Page.StopTimer` | src/pages/Index.tsx:105 | unmounting stops the timer |
| `AdminPage.WithAnswer` | src/pages/Admin.tsx:119-121 | the filter keeps exactly the responses with the given attendance and is no longer than the list |
| `AdminPage.YesCount` | src/pages/Admin.tsx:119 | the number of responses whose attendance is exactly "yes"; bounded and related to NoCount by `CountsCoverResponses` |
| `AdminPage.NoCount` | src/pages/Admin.tsx:120 | the number of responses whose attendance is exactly "no"; see `CountsCoverResponses` |
| `AdminPage.GuestsOf` | src/pages/Admin.tsx:121 | `guests_count` or 1: a missing or zero count reads as one guest, any other count as itself |
| `AdminPage.TotalGuests` | src/pages/Admin.tsx:121 | the filter of attending responses reduced with GuestsOf from 0; characterised by `TotalGuestsSnoc`, `TotalGuestsIgnoresOthers` and `TotalGuestsAtLeastYesCount` |
| `AdminPage.CountsCoverResponses` | src/pages/Admin.tsx:119-120 | yesCount + noCount <= number of responses, with equality if and only if every attendance is "yes" or "no" |
| `AdminPage.TotalGuestsSnoc` | src/pages/Admin.tsx:121 | one more response adds guests_count (1 when 0 or absent) to the total exactly when it is attending, and nothing otherwise |
| `AdminPage.TotalGuestsIgnoresOthers` | src/pages/Admin.tsx:121 | replacing a non-attending response by another non-attending one, whatever its guest count, leaves the total unchanged |
| `AdminPage.TotalGuestsAtLeastYesCount` | src/pages/Admin.tsx:121 | with non-negative counts, totalGuests >= yesCount |
| `AdminPage.AggregatesExample` | src/pages/Admin.tsx:119-121 | [yes with 2, no with 5, yes with 1] gives 2 attending, 1 declining and 3 guests |
| `AdminPage.Label` | src/pages/Admin.tsx:107-115 | the label of `r`, or `r` itself when the table has none; its behaviour is stated by `LabelFallback` |
| `AdminPage.Join` | src/pages/Admin.tsx:115 | `.join(', ')`; its behaviour on one more element is stated by `DietaryTextSnoc` |
| `AdminPage.DietaryText` | src/pages/Admin.tsx:104-117 | `getDietaryText`; stated by `DietaryTextEmpty`, `DietaryTextSingle`, `DietaryTextSnoc` and `DietaryTextSuffix` |
| `AdminPage.MapLabels` | src/pages/Admin.tsx:115 | the mapped list has one label per tag, in input order |
| `AdminPage.LabelFallback` | src/pages/Admin.tsx:107-115 | a known tag maps to its fixed label; any other tag, "meat" and "fish" included, passes through verbatim |
| `AdminPage.DietaryTextEmpty` | src/pages/Admin.tsx:105 | a missing or empty tag list gives "Нет ограничений" whatever the free text holds |
| `AdminPage.DietaryTextSingle` | src/pages/Admin.tsx:104-116 | one tag gives its label, followed by the free text in parentheses when the free text is non-empty |
| `AdminPage.DietaryTextSnoc` | src/pages/Admin.tsx:115-116 | one more tag appends ", " and its label to the joined labels, in input order |
| `AdminPage.DietaryTextSuffix` | src/pages/Admin.tsx:116 | with tags, non-empty free text gives items + " (" + other + ")" and empty free text gives items unchanged |
| `AdminPage.Granted` | src/pages/Admin.tsx:43-45 | `response.ok && data.responses`: an OK reply carrying a list, even an empty one; the only reply on which `Session.HandleLogin` and `Session.LoadResponses` open the viewer |
| `AdminPage.HasSavedKey` | src/pages/Admin.tsx:70-71 | the negation of `!savedKey`: a stored key that is present and non-empty; without one `Session.LoadResponses` sends nothing |
| `AdminPage.Session.constructor` | src/pages/Admin.tsx:24-27 | the viewer starts logged out with an empty key and no responses, not loading, and the key persisted earlier still stored |
| `AdminPage.Session.TypeKey` | src/pages/Admin.tsx:139 | typing sets the key field |
| `AdminPage.Session.HandleLogin` | src/pages/Admin.tsx:29-67 | success sets isAuthenticated, the responses and the persisted key, with the welcome notice; the denial branch and the exception branch keep those three and show their own notices; loading is false afterwards in every case |
| `AdminPage.Session.LoadResponses` | src/pages/Admin.tsx:69-91 | with no non-empty saved key nothing is sent and nothing changes; otherwise the saved key is sent, and success sets the responses, isAuthenticated and adminKey to the saved key while failure changes nothing; no notification either way |
| `AdminPage.Session.HandleLogout` | src/pages/Admin.tsx:97-102 | whatever the prior state: logged out, empty key, no responses, nothing persisted |
| `RsvpHandler.MethodOf` | backend/rsvp/index.py:8 | the event's httpMethod, GET when absent |
| `RsvpHandler.HasDatabase` | backend/rsvp/index.py:21-22 | DATABASE_URL is set and non-empty; without it every non-OPTIONS request is a 500 (`MissingDatabase`) |
| `RsvpHandler.ExpectedKey` | backend/rsvp/index.py:78 | ADMIN_KEY, or "changeme" when unset (`GetChecksKey`) |
| `RsvpHandler.PresentedKey` | backend/rsvp/index.py:77 | the X-Admin-Key header, "" when absent |
| `RsvpHandler.Strip` | backend/rsvp/index.py:36-43 | the stripped text neither starts nor ends with whitespace and is no longer than the input |
| `RsvpHandler.StripInfix` | backend/rsvp/index.py:36-43 | the stripped text is an infix of the input, and everything cut from either side is whitespace |
| `RsvpHandler.StripEmpty` | backend/rsvp/index.py:45 | a value strips to "" exactly when it is all whitespace |
| `RsvpHandler.StripKeeps` | backend/rsvp/index.py:36-43 | a value without leading or trailing whitespace is returned unchanged |
| `RsvpHandler.StripIdempotent` | backend/rsvp/index.py:36-43 | stripping twice is stripping once |
| `RsvpHandler.TextField` | backend/rsvp/index.py:36-43 | `body.get(key, '').strip()`: "" for a missing key, the stripped text for a string, and a raise for any other value |
| `RsvpHandler.FieldOr` | backend/rsvp/index.py:40-41 | `body.get(key, default)` for the two fields passed through unstripped |
| `RsvpHandler.BodyObject` | backend/rsvp/index.py:34 | `json.loads(event.get('body', '{}'))` when it decodes to an object; a missing body is the empty object, anything else raises |
| `RsvpHandler.CheckPost` | backend/rsvp/index.py:36-57 | every field read and stripped, then the required-field check, then the attendance check; stated by `PostRequiresFields`, `PostChecksAttendance`, `AcceptedDefaults` and `NoEmailRejected` |
| `RsvpHandler.PostCheckOf` | backend/rsvp/index.py:34-57 | the decoded body checked by CheckPost, or a raise when it is not an object |
| `RsvpHandler.Respond` | backend/rsvp/index.py:6-115 | the handler's reply; stated case by case by `OptionsFirst`, `MissingDatabase`, `PostOutcome`, `GetChecksKey` and `OtherMethodsRefused` |
| `RsvpHandler.Inserts` | backend/rsvp/index.py:59-68 | a POST with a database, an accepted body and an INSERT the database takes: the only event that stores a row |
| `RsvpHandler.Stored` | backend/rsvp/index.py:59-68 | the table after an event: one new row exactly when Inserts holds (`PostOutcome`), the old table otherwise |
| `RsvpHandler.OptionsFirst` | backend/rsvp/index.py:8-19 | OPTIONS is answered 200, whatever the configuration, and stores nothing |
| `RsvpHandler.MissingDatabase` | backend/rsvp/index.py:21-27 | without a non-empty DATABASE_URL every other request is a 500 and the table is unchanged |
| `RsvpHandler.PostRequiresFields` | backend/rsvp/index.py:36-50 | when every text field present is a string, a POST whose stripped name, email or attendance is empty is refused with the missing-fields error (and, by `PostOutcome`, stores nothing) |
| `RsvpHandler.PostChecksAttendance` | backend/rsvp/index.py:45-57 | once the required fields are present, the POST is accepted if and only if attendance is "yes" or "no", and otherwise refused with the attendance error |
| `RsvpHandler.PostOutcome` | backend/rsvp/index.py:59-74 | with a database configured, a refused POST is a 400 and an unaccepted one stores nothing; an accepted one the database takes answers 200 with the next id and appends exactly one row, the new row built from the normalised entry with that id; one the database refuses raises and stores nothing |
| `RsvpHandler.AcceptedDefaults` | backend/rsvp/index.py:36-43 | an accepted entry holds the stripped name and email and a "yes"/"no" attendance; a missing guestsCount defaults to 1 and missing dietaryRestrictions to [] |
| `RsvpHandler.NoEmailRejected` | backend/rsvp/index.py:37-50 | a body without an email key is never accepted, and is refused with the missing-fields error unless a field raises first |
| `RsvpHandler.GetChecksKey` | backend/rsvp/index.py:76-105 | with a database configured, a GET whose X-Admin-Key differs from the expected key is a 401 with no rows; with the key it lists the table; the expected key is "changeme" when ADMIN_KEY is unset; nothing is stored |
| `RsvpHandler.OtherMethodsRefused` | backend/rsvp/index.py:107-112 | with a database configured, any method other than OPTIONS, POST and GET is a 405 and leaves the table unchanged |
| `RsvpHandler.RenderRow` | backend/rsvp/index.py:98-99 | a row whose created_at is a timestamp gets its isoformat text; other rows are kept |
| `RsvpHandler.Rendered` | backend/rsvp/index.py:97-99 | RenderRow over the fetched rows, of the same length; see `RenderedKeepsRows` |
| `RsvpHandler.RenderedKeepsRows` | backend/rsvp/index.py:97-99 | the listing has the table's rows one for one: only created_at changes, rows without a timestamp stay as they are, and a second pass changes nothing |
| `RsvpHandler.RenderTimestamps` | backend/rsvp/index.py:97-99 | the in-place loop leaves the array equal to the rendered listing of its old contents |
| `RsvpHandler.RsvpFunction.constructor` | backend/rsvp/index.py:59-68 | the table starts empty, with every id below the next one to hand out |
| `RsvpHandler.RsvpFunction.Handle` | backend/rsvp/index.py:6-115 | the reply and the new table are those of the dispatch functions, given whether the database takes an INSERT; the table's ids stay strictly increasing and below the next id, which advances by one exactly when a row is inserted |
| `Wiring.Serialise` | src/pages/Index.tsx:33 | the form record as the function decodes it: seven keys with string values and a string array for the tags, and no email key |
| `Wiring.SubmitEvent` | src/pages/Index.tsx:28-34 | the POST with a JSON content type and the serialised record as body |
| `Wiring.ToSubmitReply` | src/pages/Index.tsx:36-38 | `response.ok` is a 2xx status and `data.success` holds only for a saved answer; an empty body or a raise reads as a throw |
| `Wiring.Tags` | src/pages/Index.tsx:33 | the serialised tag array has one JSON string per tag, in order |
| `Wiring.FormBodyRejected` | backend/rsvp/index.py:36-50 | the decoded form body, which has no email key, reaches the required-field check and is refused there |
| `Wiring.EveryFormSubmissionRejected` | backend/rsvp/index.py:21-50 | every form record posted is answered 400 (500 without a database), stores nothing and is never read by the page as a confirmation |
| `Wiring.SubmitForm` | src/pages/Index.tsx:24-65 | a full submission through the function changes only the form record (which it leaves as it was) and the function's state, whose table and next id it leaves unchanged, and shows the failure notice |

## Left out

- HTTP, `fetch`, `response.json()`, `localStorage` and `psycopg2` are not modelled as effects. Their outcomes are inputs (`SubmitReply`, `FetchReply`, the `Reply` the handler returns), and the persisted key and the table are fields.
- A failed `psycopg2.connect` and `conn.close()` are not modelled; the model assumes the connection succeeds.
- Which values psycopg2 can adapt and which the columns accept is not modelled. Whether the database takes an INSERT is the input `insertOk`; when it refuses, the handler raises and nothing is stored. A stored row keeps `guestsCount` and `dietaryRestrictions` as the request carried them.
- `ORDER BY created_at DESC` is not modelled: the listing comes in table order. `isoformat()` is the parameter `iso`, and the database's clock for `created_at` is the parameter `now`.
- Row ids advance by one per insert. A real serial column may skip values; that is not modelled.
- What the hosting platform answers when the handler raises (`Raised`) is not modelled. The page reads it as a throw.
- Rendering, CSS, icons, toast copy and CORS header contents are not modelled. The notifications are return values (`SubmitNotice`, `LoginNotice`).
- The `console.error` log of a failed `loadResponses` request is not modelled; the method returns no notice in any case.
- The per-field `onChange` setters of the RSVP form are not modelled. Each replaces one field of the record.
- `setInterval`/`clearInterval` timing and the parsing of the wedding date are not modelled. `Tick` takes the distance in milliseconds as an integer.
- `IndexPage.Countdown`: `Math.floor(distance / x)` on doubles is modelled as exact integer division. The division only runs for non-negative integer distances.
- `AdminPage.Label`: a tag that names an inherited `Object.prototype` member, such as `toString`, would make `labels[r]` return that member. That is not modelled; such tags are shown verbatim in the model.
- `loading` being true while the login request is pending is not observable in this sequential model. Only its final value is stated.
- JSON numbers are integers in the model. A `null` `headers` or `httpMethod` entry is not modelled; an absent one is.
- Double submission and concurrent requests are not modelled.
- The two upload scripts for the eucalyptus images are not modelled. They only download and upload files.
