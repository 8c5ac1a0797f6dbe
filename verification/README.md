# finanzly-f front end: the decision procedures, in Dafny

This project models the pure logic inside the finance front end. That covers the
password-reset meter and its validation chain, the session-expiry badge, the two
authenticated-request retry policies (`fetchWithAuth` and the axios interceptors),
route and render gating (middleware, conditional layout, `withAuth`, dashboard
layout), and the state updates of the transaction form and the two history lists.
Network calls, the session store and the clock are inputs. In `FetchWithAuth` and
`ApiService`, which read the session and call the server more than once,
`getSession()` results and server answers are oracle functions indexed by call
number. The handlers of `Registrar`, `ResetPassword`, `RefreshHistory` and
`HistorialRegistros` await one request each and take its reply (or failure) as a
single parameter. Redirects, alerts and timers are returned values. Timestamps are
integer milliseconds.

Modules, one per source file, plus two shared ones:

- `Common`: optional values, JavaScript truthiness of strings, the `a || b || c`
  message fallback, the axios error shape, the next-auth session status, render outcomes.
- `Text`: `startsWith`, `split`/`join` with a literal separator, and integer to
  decimal string with its round trip.
- `ResetPassword`, `SessionExpiry`, `FetchWithAuth`, `ApiService`, `Middleware`,
  `ConditionalLayout`, `WithAuth`, `DashboardLayout`, `Registrar`, `RefreshHistory`,
  `HistorialRegistros`.

Exact integer ceiling division stands in for `Math.ceil(ms / unit)`. The two agree
whenever |expiry − now| ≤ 2^53 ms (about 285,000 years). In that range the
difference of two integral `Date` values is an exact double. The correctly rounded
quotient is then off by at most half an ulp: below 2^-27 for day counts under 2^27,
and below 2^-22 for hour counts under 2^32. That is less than 1/unit, the least
distance from a non-integral quotient to an integer, so the ceiling does not change.

## Model

| member | source | states |
|---|---|---|
| `Text.Split` | src/components/withAuth.tsx:12-13 | `split` yields at least one segment, and a string shorter than the separator is one segment; the first segment is a prefix of the string, and no segment contains the separator |
| `Text.JoinSplit` | src/components/withAuth.tsx:12-13 | joining the segments of a cookie string with `"; "` gives back the cookie string |
| `Text.NatToStringRoundTrip` | src/app/registrar/page.tsx:394 | reading back the decimal digits of a number gives the number |
| `Text.IntToStringInjective` | src/app/registrar/page.tsx:394 | distinct category ids have distinct `toString()` forms |
| `ResetPassword.PasswordStrength` | src/app/reset-password/page.tsx:28-46 | the strength effect; `ResetPassword.StrengthLevels` gives each level as a condition on the password, and `ResetPassword.StrengthGrowsWithExtension` shows it is monotone |
| `ResetPassword.ShortPasswordIsWeak` | src/app/reset-password/page.tsx:31-33 | below 8 characters the meter says weak, whatever the content |
| `ResetPassword.StrengthLevels` | src/app/reset-password/page.tsx:33-43 | strong iff length ≥ 8 and (special character or upper-case and digit); medium iff length ≥ 8, no special character, and exactly one of upper-case and digit; weak otherwise |
| `ResetPassword.StrengthGrowsWithExtension` | src/app/reset-password/page.tsx:28-46 | typing more characters never lowers the meter |
| `ResetPassword.Validate` | src/app/reset-password/page.tsx:62-91 | passes iff no rule is violated; otherwise reports a violated rule that no earlier rule precedes (empty field, length, upper-case, digit, mismatch) |
| `ResetPassword.AcceptedPasswordIsStrong` | src/app/reset-password/page.tsx:33-85 | every password that passes submit validation is rated strong |
| `ResetPassword.StrongIsNotAccepted` | src/app/reset-password/page.tsx:36-79 | the converse fails: "abcdefg!" is strong on the meter yet rejected for lacking an upper-case letter |
| `ResetPassword.InitialPage` | src/app/reset-password/page.tsx:13-26 | the page starts with empty fields, not loading, and shows the invalid-token error iff the token is missing or empty |
| `ResetPassword.InputChange` | src/app/reset-password/page.tsx:48-55 | typing changes only the named field and clears the error |
| `ResetPassword.Submit` | src/app/reset-password/page.tsx:57-98 | the reset request is sent iff length ≥ 8, upper-case, digit and equal confirmation; it carries the token as given; otherwise loading ends with the first failing rule's message |
| `ResetPassword.SubmitIgnoresToken` | src/app/reset-password/page.tsx:57-98 | whether submit sends a request does not depend on the token |
| `ResetPassword.SubmitDisabled` | src/app/reset-password/page.tsx:238-244 | the button's `disabled` expression; `ResetPassword.EnabledSubmitPassesPresenceAndMatch` states what an enabled button guarantees |
| `ResetPassword.EnabledSubmitPassesPresenceAndMatch` | src/app/reset-password/page.tsx:238-244 | an enabled button implies not loading, a token, and that neither the empty-field nor the mismatch rule can fail |
| `ResetPassword.FinishSubmit` | src/app/reset-password/page.tsx:93-112 | success marks the page done and schedules login after 2000 ms; failure shows server message, else error message, else the fixed text; loading ends on both paths |
| `SessionExpiry.CeilDiv` | src/components/HistoryRefresh.tsx:54 | the result q is the least integer with a ≤ q·b |
| `SessionExpiry.Remaining` | src/components/HistoryRefresh.tsx:49-72 | remaining units are the ceiling of (expiry − now)/unit; an expiry at or before now gives ≤ 0; an unreadable expiry gives null, as the `catch` branches intend |
| `SessionExpiry.DaysRemaining` | src/components/HistoryRefresh.tsx:49-59 | the corrected day count: null iff the expiry is unreadable, otherwise the least n with expiry − now ≤ n days |
| `SessionExpiry.HoursRemaining` | src/components/HistoryRefresh.tsx:62-72 | the corrected hour count: null iff the expiry is unreadable, otherwise the least n with expiry − now ≤ n hours |
| `SessionExpiry.DaysRemainingAsWritten` | src/components/HistoryRefresh.tsx:49-59 | as written, never null: an unreadable expiry gives NaN |
| `SessionExpiry.HoursRemainingAsWritten` | src/components/HistoryRefresh.tsx:62-72 | as written, never null: an unreadable expiry gives NaN |
| `SessionExpiry.StatusColor` | src/components/HistoryRefresh.tsx:75-81 | `getStatusColor`; `SessionExpiry.ColorBands` gives each colour as a condition on the days, and `SessionExpiry.UnparseableExpiryAsWritten` shows NaN falls through to green |
| `SessionExpiry.ColorBands` | src/components/HistoryRefresh.tsx:75-81 | null is gray, ≤ 0 red, 1–2 orange, 3–5 yellow, > 5 green, each as an iff |
| `SessionExpiry.ColorMonotone` | src/components/HistoryRefresh.tsx:75-81 | more days never gives a more urgent colour |
| `SessionExpiry.RedIffExpired` | src/components/HistoryRefresh.tsx:75-89 | with the badge as written and one clock reading, the colour is red iff the label is "Expirado", unreadable expiries included |
| `SessionExpiry.StatusLabel` | src/components/HistoryRefresh.tsx:84-93 | `getStatusLabel` given its two readings; `SessionExpiry.StatusLabelCases` states each branch as a condition on them |
| `SessionExpiry.StatusLabelCases` | src/components/HistoryRefresh.tsx:84-93 | "Verificando..." iff days is null; "Expirado" iff days ≤ 0; hours label iff days is 1 and hours is truthy and ≤ 24; "1 día restante" iff days is 1 otherwise; a day count iff days is NaN or above 1 |
| `SessionExpiry.EntryLabel` | src/components/HistoryRefresh.tsx:84-93 | the label as the badge computes it, from the as-written day and hour readings on two clock reads; its lemmas are `PastExpiryIsExpired`, `OneDayLabelUnreachable`, `ManyDaysLabel` and `UnparseableExpiryAsWritten` |
| `SessionExpiry.CorrectedEntryLabel` | src/components/HistoryRefresh.tsx:84-93 | the label from the corrected readings, where an unreadable expiry is null |
| `SessionExpiry.LabelsAgreeOnReadableExpiry` | src/components/HistoryRefresh.tsx:49-93 | the as-written and corrected labels agree on every readable expiry; on an unreadable one they give "NaN días restantes" and "Verificando..." |
| `SessionExpiry.PastExpiryIsExpired` | src/components/HistoryRefresh.tsx:84-89 | an expiry at or before now is labelled "Expirado" |
| `SessionExpiry.OneDayLabelUnreachable` | src/components/HistoryRefresh.tsx:62-92 | with one day left, hours lie in 1..24, the hours label is chosen, and "1 día restante" never appears when both clock reads agree |
| `SessionExpiry.OneDayLabelReachableAcrossClockReads` | src/components/HistoryRefresh.tsx:49-91 | if the hours read is 1 ms later and the token expires in between, "1 día restante" is shown |
| `SessionExpiry.ManyDaysLabel` | src/components/HistoryRefresh.tsx:92 | beyond one day the label is "{days} días restantes" |
| `SessionExpiry.UnparseableExpiryAsWritten` | src/components/HistoryRefresh.tsx:49-92 | as written, an unreadable expiry is green and "NaN días restantes" |
| `SessionExpiry.UnparseableExpiryIsVerifying` | src/components/HistoryRefresh.tsx:75-88 | with the corrected null reading, an unreadable expiry is gray and "Verificando..." |
| `SessionExpiry.SessionNumbers` | src/components/HistoryRefresh.tsx:218-248 | card numbers run strictly down from the history length to 1, so they are distinct |
| `FetchWithAuth.AuthHeaders` | src/lib/api-client.ts:10-14 | caller headers are kept, except that `Authorization: Bearer <token>` and `Content-Type: application/json` always override them |
| `FetchWithAuth.Fetch` | src/lib/api-client.ts:3-39 | throws before any request iff the first session has no token; at most two requests, all to the same URL, the second with the re-read token |
| `FetchWithAuth.FirstRequestFailurePropagates` | src/lib/api-client.ts:16-19 | a rejected first `fetch` throws its message after exactly one request and one session read, with no retry |
| `FetchWithAuth.FirstAnswerKept` | src/lib/api-client.ts:16-38 | a first answer other than 401 is returned unchanged after one request |
| `FetchWithAuth.UnauthorizedRetriedOnce` | src/lib/api-client.ts:22-35 | on 401 with a re-read token, exactly one retry with that token, whose answer is returned as it is |
| `FetchWithAuth.UnauthorizedWithoutFreshToken` | src/lib/api-client.ts:22-38 | on 401 with no re-read token the original 401 is returned |
| `ApiService.WithBearer` | src/services/apiService.ts:17-27 | a truthy token sets only `Authorization: Bearer <token>`; no token leaves the config untouched |
| `ApiService.Step` | src/services/apiService.ts:34-50 | a settled call stays settled; each pass sends one request and reads the session once or twice |
| `ApiService.Run` | src/services/apiService.ts:34-50 | the number of requests sent never exceeds the number of passes |
| `ApiService.RequestInterceptorAttachesBearer` | src/services/apiService.ts:20-26 | the bearer header is attached iff the session has a token; otherwise the headers are unchanged |
| `ApiService.SuccessPassesThrough` | src/services/apiService.ts:35 | a successful response resolves the call unchanged after one request |
| `ApiService.OtherErrorsRejected` | src/services/apiService.ts:36-49 | an error other than 401 rejects the call with the original error |
| `ApiService.UnauthorizedWithoutTokenRejected` | src/services/apiService.ts:38-49 | a 401 whose re-read session has no token rejects with the original error |
| `ApiService.UnauthorizedWithTokenRetried` | src/services/apiService.ts:38-46 | a 401 with a re-read token re-issues the same URL with the new bearer header |
| `ApiService.UnauthorizedStepRequeues` | src/services/apiService.ts:38-45 | against an always-401 server and a session that always has a token, one pass re-queues the call with the re-read bearer token, one more request and two more session reads |
| `ApiService.RetriesWithoutBound` | src/services/apiService.ts:34-50 | with endless 401s and a token always present, every pass sends another request and the call never settles |
| `ApiService.BoundedVersusUnboundedRetry` | src/services/apiService.ts:42-45 | against always-401 and always-token oracles, `fetchWithAuth` stops at two requests while the axios chain is still pending after any number of passes |
| `Middleware.IsProtected` | middleware.ts:9-11 | some protected prefix starts the path; `Middleware.Decide` redirects exactly on these paths when the token is falsy |
| `Middleware.Decide` | middleware.ts:4-20 | redirects to "/login" iff the path starts with "/dashboard" or "/registrar" and the token is missing or empty; every other path proceeds |
| `Middleware.MatcherAdmits` | middleware.ts:23-25 | the path is a protected prefix or lies below one; `Middleware.MatchedPathsAreProtected` and `Middleware.UnmatchedPrefixProceeds` relate it to `IsProtected` |
| `Middleware.Route` | middleware.ts:23-25 | with the matcher, a request is redirected iff its path is a protected section or below one, and it has no truthy token |
| `Middleware.MatchedPathsAreProtected` | middleware.ts:9-25 | every path the matcher admits passes the prefix test |
| `Middleware.PrefixExamples` | middleware.ts:9-12 | plain prefix matching gates "/registrarX" but not "/history"; an empty token value is treated as no token |
| `Middleware.UnmatchedPrefixProceeds` | middleware.ts:23-25 | the matcher never routes "/registrarX" to the middleware, so it proceeds without a token |
| `ConditionalLayout.ShowHeader` | src/components/ConditionalLayout.tsx:14-18 | no hidden prefix starts the path; `ConditionalLayout.Layout` shows header and footer exactly then |
| `ConditionalLayout.Layout` | src/components/ConditionalLayout.tsx:14-27 | the content is always rendered; header and footer appear together, exactly when no hidden prefix starts the path |
| `ConditionalLayout.LayoutExamples` | src/components/ConditionalLayout.tsx:14-18 | "/" shows the header, "/historyX" hides it |
| `ConditionalLayout.ProtectedPathsHideHeader` | src/components/ConditionalLayout.tsx:14-18 | every path the middleware protects is rendered without the public header and footer |
| `WithAuth.Segments` | src/components/withAuth.tsx:12-13 | the cookie is cut at every `"; "`: no segment contains `"; "`, there is at least one segment, and the segments rejoin to the cookie string |
| `WithAuth.TokenCookie` | src/components/withAuth.tsx:12-14 | the `token=` segment of the cookie; `WithAuth.FindToken` and `WithAuth.FoundSegmentIsTruthy` state what it finds |
| `WithAuth.FindToken` | src/components/withAuth.tsx:12-14 | a token is found iff some segment starts with "token="; the result is the first such segment |
| `WithAuth.FoundSegmentIsTruthy` | src/components/withAuth.tsx:12-18 | a found segment is never empty, so a bare "token=" counts as present |
| `WithAuth.CheckCookie` | src/components/withAuth.tsx:11-21 | no token: redirect to "/login" and state unchanged; a token: authenticated and no redirect |
| `WithAuth.View` | src/components/withAuth.tsx:23-31 | the wrapped component is rendered, with identical props, iff authenticated; otherwise the placeholder |
| `WithAuth.GuardLifecycle` | src/components/withAuth.tsx:9-31 | the guard starts on the placeholder; after the effect it shows the page only if a token segment exists, else it stays on the placeholder and redirects |
| `WithAuth.EmptyTokenDisagreement` | src/components/withAuth.tsx:12-19 | the cookie "token=" satisfies this guard, while the middleware redirects on the same empty value |
| `DashboardLayout.RedirectEffect` | src/app/dashboard/layout.tsx:15-19 | a redirect to "/login" happens iff the status is unauthenticated |
| `DashboardLayout.View` | src/app/dashboard/layout.tsx:21-33 | children are rendered iff the status is authenticated and session data exists; otherwise nothing, never a placeholder |
| `DashboardLayout.StatusOutcomes` | src/app/dashboard/layout.tsx:15-24 | loading: nothing, no redirect; unauthenticated: nothing and a redirect; authenticated without session: nothing |
| `DashboardLayout.ContentExcludesRedirect` | src/app/dashboard/layout.tsx:15-33 | children are never rendered together with a redirect |
| `Registrar.Initial` | src/app/registrar/page.tsx:16-22 | the initial form has four empty fields and today's date |
| `Registrar.InputChange` | src/app/registrar/page.tsx:44-53 | the named field takes the value; changing the type also clears the category; no other field changes |
| `Registrar.TipoSelect` | src/app/registrar/page.tsx:55-61 | sets the type, clears the category, and keeps description, amount and date |
| `Registrar.TipoSelectIsTipoInput` | src/app/registrar/page.tsx:44-61 | picking a type card equals typing that type |
| `Registrar.Reset` | src/app/registrar/page.tsx:114-122 | reset restores the initial form |
| `Registrar.IsFormValid` | src/app/registrar/page.tsx:124-129 | `isFormValid`; `Registrar.ValidIffAllFieldsFilled` states it field by field |
| `Registrar.ValidIffAllFieldsFilled` | src/app/registrar/page.tsx:124-129 | the form is valid iff every one of the five fields is non-empty |
| `Registrar.ResetFormIsInvalid` | src/app/registrar/page.tsx:114-129 | a reset form cannot be submitted |
| `Registrar.TipoChangeInvalidates` | src/app/registrar/page.tsx:55-61 | choosing a type leaves the form invalid until a category is chosen |
| `Registrar.SubmitDisabled` | src/app/registrar/page.tsx:326 | the submit button is disabled while the form is invalid or saving |
| `Registrar.CategoryDisabled` | src/app/registrar/page.tsx:234 | the category select is disabled until a type is chosen and while categories load |
| `Registrar.EnabledSubmitHasType` | src/app/registrar/page.tsx:234-326 | when submit is enabled, the category select is disabled only while categories load |
| `Registrar.SubmitErrorMessage` | src/app/registrar/page.tsx:101-108 | 401 gives the session-expired text; otherwise server message, else error message, else "Error al guardar" |
| `Registrar.BeginSubmit` | src/app/registrar/page.tsx:63-65 | before the save, submitting is on and the error cleared, form and success notice kept, and the submit button is disabled |
| `Registrar.Submit` | src/app/registrar/page.tsx:63-112 | success restores the initial form, shows success and notifies other views; failure keeps the form and shows the mapped message, scheduling sign-in iff 401; an error is shown iff the save failed; submitting ends on both paths |
| `Registrar.FindCategory` | src/app/registrar/page.tsx:392-395 | finds a category iff some id string equals the key, and the one found is the first match |
| `Registrar.FirstMatchUnique` | src/app/registrar/page.tsx:392-395 | a list has at most one first match for a key |
| `Registrar.CategoryName` | src/app/registrar/page.tsx:392-395 | the preview name is the `nombre` of the first category in income then expense whose id string is the selection, when that name is non-empty; otherwise, or with no match, "Sin categoría" |
| `Registrar.EmptySelectionHasNoCategory` | src/app/registrar/page.tsx:392-395 | with no category selected the preview says "Sin categoría" |
| `Registrar.DistinctIdsDistinctKeys` | src/app/registrar/page.tsx:392-395 | categories with distinct ids have distinct `toString()` keys, so the lookup's key names at most one category |
| `Registrar.SelectedCategoryIsPreviewed` | src/app/registrar/page.tsx:246-395 | with unique ids, selecting a listed category previews that category's name |
| `RefreshHistory.Insert` | src/hooks/useRefreshHistory.ts:23-25 | inserting into a newest-first list keeps it newest first and adds exactly that entry |
| `RefreshHistory.SortNewestFirst` | src/hooks/useRefreshHistory.ts:23-25 | the sorted history is newest first and a permutation of the returned entries |
| `RefreshHistory.BeginFetch` | src/hooks/useRefreshHistory.ts:14-16 | a fetch starts with loading on and the error cleared, history kept |
| `RefreshHistory.FinishFetch` | src/hooks/useRefreshHistory.ts:18-35 | success stores the sorted permutation; a non-success status keeps history and shows the message or "Error al obtener historial"; a thrown error keeps history and falls back through server message, error message, "Error al cargar el historial"; loading ends |
| `RefreshHistory.FetchHistory` | src/hooks/useRefreshHistory.ts:14-35 | after a whole fetch there is no error iff the status was success, and then the history is the sorted returned entries; loading is off |
| `RefreshHistory.FirstFetchFromMount` | src/hooks/useRefreshHistory.ts:10-35 | the first fetch after mount ends loading, and a failed one leaves the history empty |
| `RefreshHistory.OnStatus` | src/hooks/useRefreshHistory.ts:38-42 | a fetch starts only when the status is authenticated |
| `HistorialRegistros.LoadErrorMessage` | src/components/HistorialRegistros.tsx:37-46 | 401: session-expired text; 500: server-error text; otherwise the server message or "Error al cargar los registros." |
| `HistorialRegistros.BeginFetch` | src/components/HistorialRegistros.tsx:32-33 | before the request, loading is on with the records and any earlier error kept, so the list renders the loading notice |
| `HistorialRegistros.FetchRegistros` | src/components/HistorialRegistros.tsx:32-50 | a missing payload yields an empty list; failures keep the list and set the mapped error; loading is off on every path |
| `HistorialRegistros.DeleteErrorMessage` | src/components/HistorialRegistros.tsx:73-79 | 401: session-expired text; otherwise the server message or "Error al eliminar el registro." |
| `HistorialRegistros.HandleDelete` | src/components/HistorialRegistros.tsx:57-81 | declining sends no request and shows nothing; confirming deletes `/registros/<id>`, reloads iff it succeeded, and alerts the outcome |
| `HistorialRegistros.Capitalize` | src/components/HistorialRegistros.tsx:113 | the first character is upper-cased and the rest kept |
| `HistorialRegistros.RowOf` | src/components/HistorialRegistros.tsx:101-113 | "ingreso" rows get "+" and green, every other type "-" and red; the type label is capitalised |
| `HistorialRegistros.TipoLabels` | src/components/HistorialRegistros.tsx:113 | the two types read "Ingreso" and "Gasto" |
| `HistorialRegistros.Render` | src/components/HistorialRegistros.tsx:83-101 | loading first, then the error, then the empty notice, then one row per record |
| `HistorialRegistros.LoadEndsLoading` | src/components/HistorialRegistros.tsx:32-85 | after the first load the list never shows the loading state; a failed load shows its error |

## Findings

| source | as written | input that shows it | evidently intended | confidence | as-written member | corrected member |
|---|---|---|---|---|---|---|
| src/components/HistoryRefresh.tsx:49-59 | `new Date(s)` does not throw on an unparseable string, so the `catch` that returns `null` never runs; `getDaysRemaining` returns `NaN`, every comparison in `getStatusColor` and `getStatusLabel` is false, and the badge is green with the text "NaN días restantes" | `fechaExpiracion = "abc"` | the `null` result, so the badge is gray with "Verificando..." | not executed; follows from the JavaScript `Date` and `NaN` rules | `SessionExpiry.UnparseableExpiryAsWritten` | `SessionExpiry.UnparseableExpiryIsVerifying` |

## Left out

- JSX markup, Tailwind classes and layout. Render outcomes are datatypes, and redirects, alerts and timers are returned values.
- Framework and network calls (`getSession`, `fetch`, the axios adapter, `router.push`, `signIn`, `window.confirm`, `alert`, `setTimeout`, `dispatchEvent`). They are oracle parameters or returned effects.
- React's interleaving of state updates between `await`s. A handler that sets state before its `await` has a begin step for that in-flight state: `ResetPassword.Submit`, `Registrar.BeginSubmit`, `RefreshHistory.BeginFetch` and `HistorialRegistros.BeginFetch`; the rest of the handler, through its `finally`, is one step. `HistorialRegistros.HandleDelete` sets no state of its own, so it is one step.
- src/app/api/auth/[...nextauth]/route.ts and the token refresh on expiry are not part of this model; only the session's access token is seen, through the oracle.
- Floating point: `parseInt`/`parseFloat` of the submitted record, the balance preview with its fixed 2500, and `toFixed`/`toLocaleString` amounts.
- Locale date formatting and ISO date parsing. A parsed timestamp is an integer, and an unparseable one is `None`.
- The summary cards and the error/loading/empty selection of src/components/HistoryRefresh.tsx:136-214; they only display values modelled here.
- The re-login effect on `RefreshAccessTokenError` and the category fetch on mount in src/app/registrar/page.tsx:31-42: framework effects that keep no state of their own.
- Pages that are pure I/O or static (login, signup, forgot-password, header, sidebar, balance summary, `useCategorias`, dashboard and history pages, blog page, root layout) and type-only files.
- `Middleware.Decide`: the redirect target is the path "/login"; the absolute URL built from the request, and the framework's cookie parsing, are not modelled (the token is the parsed value).
- `Middleware.Route`: the matcher follows the framework's documented meaning of `/x/:path*` ("/x" itself or "/x/" and below); trailing-slash and locale rewriting are left out.
- `FetchWithAuth.AuthHeaders`: headers are a plain object with case-sensitive names; options whose `headers` is a `Headers` instance (spreading it yields no entries) or an array (spreading it yields entries named by index, "0", "1", …), and the other request options, are not modelled.
- `ResetPassword.Validate`: length counts Unicode characters, while JavaScript counts UTF-16 code units, so a character outside the Basic Multilingual Plane counts once here and twice in the source.
- `ResetPassword.PasswordStrength`: the same length convention as `Validate`.
- `HistorialRegistros.Capitalize`: upper-cases only the letters a to z; JavaScript's full Unicode `toUpperCase` is not modelled.
- `RefreshHistory.SortNewestFirst`: does not state that entries with equal creation times keep their input order (the source relies on the stability of `Array.prototype.sort`); creation times that do not parse (a `NaN` comparator) are not modelled.
