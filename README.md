# DAAD course summarizer: the summarize request handler

This project models the server side of a small web application. A signed-in
user submits a link to a course page of the DAAD international-programmes
catalogue. The `POST` handler of the summarize route checks the link,
authenticates the user, enforces a per-day quota, forwards the link to an
external summarization pipeline (Vectorshift) and returns the markdown it
produces. It bumps the user's usage counter for the day only after the
pipeline call succeeded.

The model has six modules:

- `Wrappers` (`wrappers.dfy`): the `Option` datatype.
- `JsString` (`js_string.dfy`): the ECMAScript WhiteSpace and LineTerminator
  classes, and `String.prototype.trim` as `Trim`.
- `DaadLink` (`daad_link.dfy`): the link pattern `DAAD_REGEX`. `IsDaadLink`
  compares the literal part of the pattern as a whole and runs a hand-written
  automaton (`Step`, `Run`) over the rest, `(\d+)\/?(#.*)?$`. `Compose` builds
  every link the pattern describes from its parts. The lemmas prove that the
  recognizer accepts exactly those links, and that `Decompose` inverts `Compose`.
- `Usage` (`usage.dfy`): the `usage` table as a class `UsageTable`. It holds a
  map from (user, day) to a count; `Find`, `Insert` and `Update` are its
  methods. The daily limits are 5, or 50 with premium.
- `SummarizeRoute` (`summarize_route.dfy`): the handler. `Handle` specifies one
  request, split into its stages (`Authenticate`, `CheckQuota`, `Forward`).
  It gives the response, the list of interactions with the collaborators
  (`Effect`), and the new usage map. `Post` (with `Serve`) is the step-by-step
  handler over a `UsageTable`, and it is proved equal to `Handle`.
- `RouteProperties` (`route_properties.dfy`): what the handler promises.
  Each rejection happens at its own gate and leaves the table unchanged. A
  success bumps exactly one record by one. Over any sequence of requests,
  each record grows by the number of successes charged to it.

The collaborators are parameters. The authentication provider is a function
from token to `AuthReply` (an error flag and an optional user id). The
pipeline is a function from URL to `Upstream` (a 2xx reply with its optional
`outputs.output_0`, or a failure with its body). The current day and the
premium flag are passed in too (`Env`).

Points of the code's behaviour worth noting:

- The URL is validated first: an invalid link is answered 400 even when the
  user's quota is exhausted (route.ts:12-17 precede 62-74).
- A header of exactly `"Bearer "` gives the empty token, which the code treats
  as missing (`!accessToken`). That request is answered 401 "Not authenticated".
- Premium is hard-coded `false` in the code (route.ts:62), so the code's limit
  is always 5. The model takes the flag as an input.

## Model

| member | source | states |
|---|---|---|
| JsString.TrimStartSpec | app/api/summarize/route.ts:10 | removing leading characters leaves a suffix of the input; what was dropped is all WhiteSpace/LineTerminator; the result does not start with either |
| JsString.TrimEndSpec | app/api/summarize/route.ts:10 | removing trailing characters leaves a prefix of the input; what was dropped is all trimmable; the result does not end with a trimmable character |
| JsString.TrimSpec | app/api/summarize/route.ts:10 | `trim()` leaves an infix whose surroundings on both sides are all trimmable and whose first and last characters are not |
| JsString.TrimIgnoresPadding | app/api/summarize/route.ts:10 | trimmable padding on either side of a string does not change its trimmed form |
| JsString.TrimIdempotent | app/api/summarize/route.ts:10 | trimming a trimmed string changes nothing |
| DaadLink.ComposeAccepted | app/api/summarize/route.ts:4-5 | every link made of the fixed prefix, at least one ASCII digit, an optional `/` and an optional `#` fragment without line terminators is accepted |
| DaadLink.Decompose | app/api/summarize/route.ts:4-5 | every accepted string is such a link: its parts are well formed and compose back to it |
| DaadLink.IsDaadLinkIff | app/api/summarize/route.ts:4-5 | the recognizer accepts a string if and only if some well-formed parts compose to it |
| DaadLink.DecomposeCompose | app/api/summarize/route.ts:4-5 | splitting a composed link gives back exactly the parts it was built from |
| DaadLink.ComposeInjective | app/api/summarize/route.ts:4-5 | two well-formed part lists that compose to the same link are equal (the greedy `\d+` and the optional `/` leave no ambiguity) |
| DaadLink.TailRuns | app/api/summarize/route.ts:5 | the automaton accepts one or more digits followed by an optional `/` and an optional `#` fragment without line terminators |
| DaadLink.SplitId | app/api/summarize/route.ts:5 | what follows the first digit splits into more digits, an optional slash and a fragment free of line terminators, which rebuild the input |
| DaadLink.SplitIdOf | app/api/summarize/route.ts:5 | splitting the text of given digits, slash and fragment gives back exactly those parts |
| DaadLink.FragmentSound | app/api/summarize/route.ts:5 | the fragment state accepts only text without line terminators (`.` without the `s` flag) |
| DaadLink.CourseLinkWithFragmentAccepted | app/api/summarize/route.ts:4-5 | the detail link for course 8357 with a trailing slash and `#tab_overview` is accepted |
| DaadLink.OverviewLinkRejected | app/api/summarize/route.ts:4-5 | an `/en/overview/8357` link, which lacks the `/detail/` segment, is rejected |
| DaadLink.MissingIdRejected | app/api/summarize/route.ts:5 | the prefix followed by nothing or by a non-digit is rejected (`\d+` needs a digit) |
| DaadLink.LineBreakInFragmentRejected | app/api/summarize/route.ts:5 | a line break inside the fragment is rejected, because `$` matches only at the end of the input |
| Usage.UsageTable.Find | app/api/summarize/route.ts:55-64 | the lookup returns the record for (user, day) exactly when one exists, and its count defaults to 0 |
| Usage.UsageTable.Insert | app/api/summarize/route.ts:111-116 | a new record for (user, day) is added and nothing else changes |
| Usage.UsageTable.Update | app/api/summarize/route.ts:117-122 | the existing record gets the new count and the set of records stays the same |
| SummarizeRoute.BearerToken | app/api/summarize/route.ts:20-23 | there is a token exactly when the header starts with "Bearer ", and the header is "Bearer " followed by the token |
| SummarizeRoute.Post | app/api/summarize/route.ts:7-124 | the step-by-step handler's response, interactions and new table are those `Handle` specifies for the old table |
| SummarizeRoute.Serve | app/api/summarize/route.ts:19-124 | the steps after URL validation do what `Authenticate` specifies |
| RouteProperties.InvalidLinkRejected | app/api/summarize/route.ts:10-17 | a URL failing the pattern yields 400 "Invalid DAAD link." with no interaction and the table unchanged |
| RouteProperties.MissingUrlRejected | app/api/summarize/route.ts:10-17 | a missing URL becomes "" and is rejected with 400 |
| RouteProperties.PaddingIgnored | app/api/summarize/route.ts:10-12 | whitespace or line terminators around the submitted URL do not change the outcome |
| RouteProperties.TrimmedUrlSameOutcome | app/api/summarize/route.ts:10-12 | submitting the trimmed URL gives the same outcome as submitting the URL |
| RouteProperties.BearerTokenRoundTrip | app/api/summarize/route.ts:20-23 | "Bearer " followed by t yields the token t; a header without the prefix, or no header, yields no token |
| RouteProperties.MissingTokenRejected | app/api/summarize/route.ts:25-30 | a valid link with no token or an empty token yields 401 "Not authenticated" with no interaction and the table unchanged |
| RouteProperties.InvalidSessionRejected | app/api/summarize/route.ts:37-43 | a token the provider rejects, or for which it returns no user, yields 401 "Invalid session" after exactly one verification, with the table unchanged |
| RouteProperties.ChargedKeyIsAuthenticatedUser | app/api/summarize/route.ts:45-60 | a request reads usage exactly when it gets past authentication; its first interaction is the verification of the bearer token, and the record it reads is today's record of the user the provider returned for that token |
| RouteProperties.QuotaReachedRejected | app/api/summarize/route.ts:62-74 | a used count at or over the limit yields 429 with the quota message; the pipeline is not called and the table is unchanged |
| RouteProperties.UpstreamFailureNotCharged | app/api/summarize/route.ts:99-105 | a failed pipeline call yields 502 "Vectorshift error: " followed by the upstream body, with no usage write and the table unchanged |
| RouteProperties.SuccessChargesOnce | app/api/summarize/route.ts:107-124 | a successful call returns `output_0` (or "" when missing); today's record becomes old+1, or 1 if absent; no other record changes; the new count is within the limit; there is exactly one write, the last interaction after the pipeline call: an update to old+1 when the record existed, an insert with count 1 otherwise |
| RouteProperties.MutationIffSuccess | app/api/summarize/route.ts:111-124 | the table changes if and only if the response is a summary, and the number of usage writes is 1 on success and 0 otherwise |
| RouteProperties.OtherDaysUntouched | app/api/summarize/route.ts:53-60 | records of any day other than today are never changed |
| RouteProperties.QuotaPreserved | app/api/summarize/route.ts:62-74 | if every count is within the limit before a request, every count is within it afterwards |
| RouteProperties.StepCount | app/api/summarize/route.ts:111-122 | one request adds one to the record it is charged to when it succeeds, and nothing otherwise |
| RouteProperties.UsageCountsSuccesses | app/api/summarize/route.ts:111-122 | after any sequence of requests, each record's count is its starting count plus the number of successful requests charged to it |
| RouteProperties.ReplayWithinLimit | app/api/summarize/route.ts:62-74 | requests that all share one limit keep every count within that limit |
| RouteProperties.FirstSecondAndNextDay | app/api/summarize/route.ts:111-122 | a user's first success of the day inserts count 1, the second updates it to 2, and another day still has no record |

## Left out

- The authentication client (route.ts:32-39) is not modelled. The model receives only its verdict on the token, as a function from token to `AuthReply`.
- The data store client is not modelled. The `usage` table is a map keyed by (user, day), so it never holds two records for one user and day. `maybeSingle` returns no row when there are several; that case cannot arise in the model.
- A stored count of `null` is not modelled: counts are natural numbers. In the code, such a row reads as 0 and is updated to 1.
- The Vectorshift HTTP request and JSON decoding (route.ts:79-98, 107) are not modelled. The pipeline's answer is given as an `Upstream` value, a function of the forwarded URL.
- Logging (route.ts:76, 95-97) has no effect on behaviour and is left out.
- The clock is not modelled (route.ts:53). The current day comes in as `Env.today`.
- The catch-all 500 reply (route.ts:125-130) is not modelled. It covers foreign failures: a body that is not JSON, a `url` that is truthy but not a string (so `trim` throws), a failing collaborator call. `Request.url` is therefore an optional string.
- An error from the usage read is not modelled. The code keeps only `data` from the select (route.ts:55-60), so a failed read gives no row and a used count of 0 (line 64): the request passes the quota gate and, on success, a new record with count 1 is inserted (line 112). In the model the read always succeeds, so `RouteProperties.QuotaPreserved`, `RouteProperties.ReplayWithinLimit` and `RouteProperties.QuotaReachedRejected` do not cover that path, on which the real handler bypasses the daily limit.
- The code does not look at the result of the usage insert or update (route.ts:111-122): a failed write still returns the markdown. In the model every write succeeds.
- Concurrency is not modelled. Requests are handled one at a time. Two requests from one user can both read the same count and both write count+1, losing one increment; the model has no such race.
- Strings are sequences of Unicode scalar values, while JavaScript strings are UTF-16 code units. Strings holding unpaired surrogates (which `req.json()` can produce from an escape such as `\ud800`, and which `.` matches inside the fragment) cannot be written as Dafny strings and are outside the model.
- The UI, the login and OAuth callback routes, the layouts and the logout action are not part of this model. So is the copy of the link pattern in the client-side homepage component.
