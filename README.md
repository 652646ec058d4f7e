# Zoom participant fetcher — a Dafny model

`fetch_participants.py` fetches the attendance records of one Zoom meeting
or webinar from the metrics API. It follows the continuation token from page
to page, storing each raw page. It then reads the pages back and keeps one
entry per email: the first entry that has both an email and a name. Finally
it writes each kept participant as a TSV line and a console line, with the
email partly hidden.

This project models the deterministic core of that script:

- `records.dfy` (module `Records`): optional fields, `Result`, the
  participant record, and a page of the API's response. `Truthy` is Python's
  truth value of an optional string.
- `usage.dfy` (module `Usage`): the command-line check.
- `endpoint.dfy` (module `Endpoint`): the request path of one page.
- `pagination.dfy` (module `Pagination`): the fetch loop. The API is
  abstract: the i-th request is answered by `pages[i]`.
- `extraction.dfy` (module `Extraction`): the deduplicating dictionary,
  written as a class `ParticipantMap` that the nested extraction loop
  updates in place. `Extracted` is the functional specification of that
  loop, and lemmas characterise it against the entries alone.
- `report.dfy` (module `Report`): the hidden-email signature, the TSV and
  console lines, and the loop that writes them.
- `pipeline.dfy` (module `Pipeline`): the whole script as one method. It
  returns the requests, the raw pages, the TSV lines and the console lines,
  or the usage error.

Three points of the script's behaviour are easy to misread:

- The duplicate-email check comes before the missing-name check (lines
  93-97). Their order does not change the result: each check only skips
  the entry, so in either order an entry is recorded exactly when its email
  is non-empty and not yet a key and its name is non-empty. `Step` states
  this per entry, and `StepOrderIrrelevant` and `CheckOrderIrrelevant`
  prove the two orders agree.
- The fetch loop stops at the FIRST page whose token is absent or empty
  (lines 81-83), not necessarily at the last page the API could return.
  `FetchAll` states that.
- "The path contains `&include_fields=registrant_id` iff the type is
  webinar" does not hold for raw substrings. A meeting id or a token may
  itself contain that text. `EndpointFlagIff` states it for the text right
  after the fixed template, where it does hold.

## Model

| member | source | states |
|---|---|---|
| Usage.ParseArgs | fetch_participants.py:29-34 | the command line is accepted iff it has exactly three items and the meeting type is "meeting" or "webinar"; the result is the usage error otherwise |
| Usage.ParseArgsRoundTrip | fetch_participants.py:29-34 | the command line built from an invocation parses back to that invocation exactly when its type is valid |
| Usage.ParseArgsOnlyCommandLines | fetch_participants.py:29-34 | every accepted argument list is the command line of the invocation it parsed to, with a valid type |
| Usage.ParseArgsRejects | fetch_participants.py:29-31 | an unknown type ("webcast"), a missing id and an extra argument are usage errors |
| Endpoint.EndpointPath | fetch_participants.py:59-63 | the path is the template followed by exactly what the two conditions add, the webinar flag and then the continuation parameter |
| Endpoint.BuildEndpoint | fetch_participants.py:59-63 | the path grown by appending equals the template, then the webinar flag, then the continuation parameter |
| Endpoint.EndpointStartsWithBase | fetch_participants.py:59 | every path begins with `/v2/metrics/{type}s/{id}/participants?page_size=10&type=past` |
| Endpoint.EndpointFlagIff | fetch_participants.py:60-61 | the text after the template starts with `&include_fields=registrant_id` iff the type is "webinar" |
| Endpoint.EndpointTokenIff | fetch_participants.py:62-63 | with a token v, the path ends with `&next_page_token=v` iff v is non-empty |
| Endpoint.EndpointTokenRoundTrip | fetch_participants.py:59-63 | the token read back from a path is the token it was built with when non-empty, and none for an absent or empty token |
| Pagination.FinalPage | fetch_participants.py:81-83 | the stopping page is the first page whose token is absent or empty; all earlier pages carry a non-empty token |
| Pagination.FetchAll | fetch_participants.py:76-84 | the driver fetches exactly pages 0..k for that first final page k, records them in order, and sends request i with no token for i = 0 and with page i-1's token otherwise |
| Pagination.RequestsCarryPreviousToken | fetch_participants.py:76-83 | every request after the first carries a non-empty token, the previous page's, and it can be read back from the path |
| Pagination.StopsAtFirstFinalPage | fetch_participants.py:81-83 | an empty-string token stops the loop as an absent one does, before later pages |
| Extraction.Step | fetch_participants.py:92-98 | one entry is recorded, its email appended to the keys with its name, exactly when its email is non-empty and not yet a key and its name is non-empty; otherwise the dictionary is unchanged |
| Extraction.StepOrderIrrelevant | fetch_participants.py:93-97 | for one entry, checking the name first gives the same dictionary as the script's order |
| Extraction.Extracted | fetch_participants.py:87-98 | the dictionary's keys are distinct and are exactly its map keys; no empty email or empty name is ever recorded |
| Extraction.FirstMatch | fetch_participants.py:92-97 | the index of the first entry with this email and a non-empty name, or the length when there is none |
| Extraction.ExtractedKeys | fetch_participants.py:92-98 | an email is a key iff some entry has that email and a non-empty name |
| Extraction.ExtractedNames | fetch_participants.py:93-98 | the name kept for an email is that of its first entry with a non-empty name |
| Extraction.ExtractedOrder | fetch_participants.py:89-98 | keys are ordered by the position of their first qualifying entry across the pages |
| Extraction.ExtractedKeySet | fetch_participants.py:92-98 | the key set is exactly the set of emails that have a qualifying entry |
| Extraction.ExtractedFirstWins | fetch_participants.py:93-98 | the first qualifying entry for an email is recorded with its name |
| Extraction.ExtractedExtends | fetch_participants.py:93-94 | later entries never change a recorded name and never reorder existing keys |
| Extraction.CheckOrderIrrelevant | fetch_participants.py:93-97 | checking the name before the duplicate test yields the same dictionary |
| Extraction.NamelessThenNamed | fetch_participants.py:93-98 | an entry without a name inserts nothing, and a later named entry for that email is kept |
| Extraction.TwoPageScenario | fetch_participants.py:89-98 | with Alice on page 1, and Alice2 (same email) then Bob on page 2, the dictionary is Alice then Bob |
| Extraction.ParticipantMap.constructor | fetch_participants.py:87 | the dictionary starts empty |
| Extraction.ParticipantMap.Put | fetch_participants.py:98 | assignment sets the name; a new key goes last, an existing key keeps its place; keys stay distinct |
| Extraction.ExtractParticipants | fetch_participants.py:87-98 | the nested loop leaves exactly the dictionary `Extracted` gives for all entries of the pages in order |
| Report.LocalPart | fetch_participants.py:104 | the text before the first `@` is the longest prefix of the email without `@` |
| Report.LocalPartIsFirstField | fetch_participants.py:104 | the local part is the first field of splitting the email at `@` |
| Report.Signature | fetch_participants.py:104 | the signature ends in `*`, has length 1 to 5, and shows a prefix of the email without `@`: all of the local part when it is under four characters, else four |
| Report.SignatureShortLocalPart | fetch_participants.py:104 | "a@b.com" gives "a*" |
| Report.SignatureLongLocalPart | fetch_participants.py:104 | "alice@x" gives "alic*" |
| Report.ConsoleLine | fetch_participants.py:106 | the console line `name (signature)` is three characters longer than the name and the signature together, ends in `)`, and holds no tab when the name and the email hold none |
| Report.ConsoleLineLayout | fetch_participants.py:106 | the console line reads: the name, then ` (`, then the signature, then `)` |
| Report.TsvLine | fetch_participants.py:105 | the TSV line ends in a newline and, when the name and the email hold no tab, splits at tabs into exactly the name, the email and the console line: the layout `name<TAB>email<TAB>name (signature)` |
| Report.WriteReport | fetch_participants.py:102-106 | one TSV line and one console line per key, in key order, for that key's name and email |
| Report.ReportLinesExample | fetch_participants.py:104-106 | Alice with a@x.com gives the TSV line `Alice<TAB>a@x.com<TAB>Alice (a*)` and the console line `Alice (a*)` |
| Pipeline.Run | fetch_participants.py:29-106 | a bad command line gives the usage error and nothing else; otherwise the run fetches pages 0..k, and its report lines are those of the dictionary extracted from exactly those pages |

## Left out

- Signing the JWT credential and reading the clock (lines 46-51): a foreign library and the wall clock.
- The HTTPS connection, request and response decoding (lines 53-57, 65-68): network I/O. Each response is an already-decoded `Page`, and a failed request is not modelled.
- `json.dumps` and `json.loads` of the raw file (lines 80, 90): the file is modelled as the sequence of pages it holds, so reading it back gives the pages written.
- A page without a `participants` key, which makes the script fail with a `KeyError` (line 91): every `Page` carries a participant list.
- JSON values of `email`, `user_name` or `next_page_token` that are not strings: the fields are optional strings only. A non-string token would stop the loop when Python finds it false (`0`, `false`, `[]`) and otherwise be written into the next path (`&next_page_token=5`); the model does not capture that.
- Opening and writing files and `print` (lines 75, 88, 102, 105-106): the model returns the lines produced. Console lines are given without the newline `print` adds.
- `time.sleep(0.5)` between requests (line 84): timing only.
- The API key and secret constants (lines 41-42): configuration only.
- Pagination.FetchAll: requires that some page has an absent or empty token. The script has no cap on requests, so it does not stop without one.
