# Data analysis app: query filter, route gate, history and editor, in Dafny

This project models four pieces of a Next.js data analysis application and
proves properties of them.

- **The query endpoint** (`QueryRoute`, `route.dfy`). `POST /api/query` takes a
  JSON body holding a SQL string. It refuses a missing or non-string query with
  400. It refuses, with 403, a query on which any of seven case-insensitive
  regular expressions matches. It hands everything else to the database
  executor and answers with its rows or its error. The model has three layers.
  - A reference semantics of the three pattern shapes, following ECMAScript
    RegExp: `WORD`, `A\s+B`, `A\s+.*\s+B` under the `i` flag, where `\s` is
    WhiteSpace or LineTerminator and `.` excludes line terminators.
  - An executable recursive matcher, proved to decide exactly that semantics.
  - The handler `Post`. It returns the response together with the query
    passed to the executor, if any, so its contract can say when the database
    is reached.

  Over the reference semantics we prove:
  - Rejection is monotone under taking superstrings.
  - Rejection ignores ASCII case.
  - Worked examples: a keyword inside a string literal rejects; `DROPTABLE`
    passes; a trailing statement is caught; text with no forbidden initials
    passes.
  - A multi-line `UPDATE`, written `UPDATE t\nAS x SET`, is not caught by the
    `UPDATE\s+.*\s+SET` rule.
- **The route gate** (`RouteGate`, `middleware.dfy`). It is a pure decision
  from the pathname and whether a session exists. Protected prefixes without a
  session go to `/signin?redirect=<path>`. The sign-in and sign-up pages with
  a session go to `/dashboard`. Everything else passes.
  - `Gate` adds the `config.matcher` list that decides where the gate runs at
    all. Under it, `/profiles`, protected by the prefix test, is never gated.
  - We prove that the two redirect rules exclude each other and that
    following a redirect never redirects again, both for the middleware alone and under the matcher.
- **The SQL playground page** (`Playground`, `playground.dfy`). The class
  `SqlPlayground` holds the page's state fields. `RunQuery`, `LoadFromHistory`
  and `ClearHistory` update them.
  - The history update is specified by the function `AddToHistory`: prepend
    when absent, then cut to ten.
  - Lemmas prove the bound, front insertion, dropping the oldest entry, the
    no-move rule for a repeated query, and distinctness.
  - `HistoryAfterInvariant` proves these over any sequence of runs, and
    `RunAll` ties that sequence to the class.
- **The SQL editor** (`Editor`, `editor.dfy`). The class `SqlEditor` holds
  `query`, `showSuggestions` and `activeSuggestion`, plus the current
  `initialQuery` prop.
  - `HandleKeyDown` is proved equal to the pure step function `KeyStep`.
  - Lemmas about `KeyStep` state each key's effect, that the index stays
    within the eight suggestions, and that the key handler only ever appends to the query.
  - The component keeps its own query across renders, because a state's
    initial value is read once. `Rerender` models a changed `initialQuery`
    prop: the visible query does not change, and only Reset picks the new
    value up. So choosing a history entry on the playground page changes the
    editor's prop but not its text.

Paths below are relative to the repository root.

## Model

| member | source | states |
|---|---|---|
| `QueryRoute.FoldAsciiMatches` | data_analysis_app/src/app/api/query/route.ts:34-40 | under the `i` flag without `u`, two characters match iff they are equal or one is an ASCII lower-case letter and the other its capital |
| `QueryRoute.FoldKeepsClasses` | data_analysis_app/src/app/api/query/route.ts:34-40 | characters equal up to folding agree on `\s` and on being a line terminator |
| `QueryRoute.SpacedWordFromCorrect` | data_analysis_app/src/app/api/query/route.ts:34-36 | the executable scan for `\s+WORD` from a position succeeds iff some span of one or more `\s` followed by WORD starts there |
| `QueryRoute.AnyThenSpacedWordFromCorrect` | data_analysis_app/src/app/api/query/route.ts:37 | the scan for `.*\s+WORD` succeeds iff a line-terminator-free run, then `\s+`, then WORD starts there |
| `QueryRoute.SpreadTailFromCorrect` | data_analysis_app/src/app/api/query/route.ts:37 | the scan for `\s+.*\s+WORD` succeeds iff such a span starts there |
| `QueryRoute.MatchesFromCorrect` | data_analysis_app/src/app/api/query/route.ts:34-40 | a pattern matches at a position iff some complete match of it starts there |
| `QueryRoute.TestFromCorrect` | data_analysis_app/src/app/api/query/route.ts:43 | trying every start position from i on finds a match iff a complete match starts at or after i |
| `QueryRoute.SpanMatchesInside` | data_analysis_app/src/app/api/query/route.ts:34-40 | every match lies within the string |
| `QueryRoute.TestCorrect` | data_analysis_app/src/app/api/query/route.ts:43 | `pattern.test(query)` holds iff a complete match lies somewhere in the query |
| `QueryRoute.IsReadOnlyCorrect` | data_analysis_app/src/app/api/query/route.ts:43 | `isReadOnly` holds iff none of the seven patterns matches anywhere |
| `QueryRoute.ConcatContains` | data_analysis_app/src/app/api/query/route.ts:43 | a string occurs in any text built around it, at the length of the prefix |
| `QueryRoute.SpanShift` | data_analysis_app/src/app/api/query/route.ts:43 | a match inside a substring is a match, shifted, in the enclosing string |
| `QueryRoute.WordShift` | data_analysis_app/src/app/api/query/route.ts:34-40 | a keyword occurrence survives embedding in a larger string |
| `QueryRoute.SpacedWordShift` | data_analysis_app/src/app/api/query/route.ts:34-40 | a `\s+WORD` span survives embedding in a larger string |
| `QueryRoute.RejectedMonotone` | data_analysis_app/src/app/api/query/route.ts:43 | if s is rejected, every string containing s is rejected |
| `QueryRoute.RejectedWhateverSurrounds` | data_analysis_app/src/app/api/query/route.ts:43 | prefixing and suffixing any text to a rejected query keeps it rejected |
| `QueryRoute.FlipCase` | data_analysis_app/src/app/api/query/route.ts:34-40 | swapping case preserves the folded character and changes exactly the ASCII letters |
| `QueryRoute.SpanUpToCase` | data_analysis_app/src/app/api/query/route.ts:34-40 | a match in s is a match at the same span in any string equal to s up to ASCII case |
| `QueryRoute.RejectedUpToCase` | data_analysis_app/src/app/api/query/route.ts:34-43 | two strings equal up to ASCII case are both rejected or both admitted |
| `QueryRoute.VerdictIgnoresCase` | data_analysis_app/src/app/api/query/route.ts:34-43 | flipping the case of ASCII letters at any positions leaves `isReadOnly` unchanged |
| `QueryRoute.PairHoldsSpace` | data_analysis_app/src/app/api/query/route.ts:34-40 | a match of a two-keyword pattern has a `\s` right after its first keyword |
| `QueryRoute.FirstLetter` | data_analysis_app/src/app/api/query/route.ts:34-40 | a keyword occurrence begins with a character folding to the keyword's first letter |
| `QueryRoute.SpacelessMatchesNoPair` | data_analysis_app/src/app/api/query/route.ts:34-40 | a string without any `\s` matches no two-keyword pattern (the six of them other than `TRUNCATE`) |
| `QueryRoute.TruncatedLiteralRejected` | data_analysis_app/src/app/api/query/route.ts:39 | `SELECT * FROM t WHERE c = 'truncated'` is rejected: the patterns have no word boundaries and look inside literals |
| `QueryRoute.DropTableWithoutSpaceAdmitted` | data_analysis_app/src/app/api/query/route.ts:34 | `DROPTABLE` is not matched by `DROP\s+TABLE` and is admitted by the whole list |
| `QueryRoute.TrailingDropTableRejected` | data_analysis_app/src/app/api/query/route.ts:34 | `SELECT 1; drop\ttable users` is rejected: the match is unanchored, case-insensitive and accepts a tab |
| `QueryRoute.SpreadLineBreak` | data_analysis_app/src/app/api/query/route.ts:37 | a line terminator inside an `UPDATE ... SET` match lies in one of the two `\s+` runs |
| `QueryRoute.MultiLineUpdateNotMatched` | data_analysis_app/src/app/api/query/route.ts:37 | `UPDATE t\nAS x SET` is not matched by `UPDATE\s+.*\s+SET`, because `.` stops at a line break |
| `QueryRoute.SingleLineUpdateMatched` | data_analysis_app/src/app/api/query/route.ts:37 | the same statement on one line is matched |
| `QueryRoute.OrElse` | data_analysis_app/src/app/api/query/route.ts:58 | the error message when it is non-empty, otherwise the fallback text |
| `QueryRoute.Post` | data_analysis_app/src/app/api/query/route.ts:6-72 | only 200, 400, 403 and 500 arise, so there is no 401. 400 with `Invalid query` iff a parsed non-null body lacks a non-empty string `query`. 403 with `Only SELECT queries are allowed` iff the query is rejected. The executor is called iff the query is admitted, and is given that query. Rows give 200 with the rows untouched. An executor error gives 500 with its message or `Error executing query`. A parse failure or a null body gives the catch-all 500 |
| `QueryRoute.ExecutorOnlyWhenAdmitted` | data_analysis_app/src/app/api/query/route.ts:24-53 | whether the executor is called does not depend on the executor, and when it is not called the response does not either |
| `QueryRoute.DropTableAnswers403` | data_analysis_app/src/app/api/query/route.ts:43-50 | `DROP TABLE users` answers 403 and never reaches the executor, whatever the executor is |
| `QueryRoute.NumberQueryAnswers400` | data_analysis_app/src/app/api/query/route.ts:24-29 | a numeric `query` answers 400 `Invalid query` and never reaches the executor |
| `QueryRoute.NoForbiddenInitialAdmitted` | data_analysis_app/src/app/api/query/route.ts:33-43 | a query with no character folding to D, U, A, T or I is admitted |
| `QueryRoute.NonSqlReachesExecutor` | data_analysis_app/src/app/api/query/route.ts:43-53 | the non-SQL text `hello` is passed to the executor unchanged |
| `RouteGate.Middleware` | data_analysis_app/src/middleware.ts:19-35 | redirect to `/signin` with `redirect` = pathname iff the path starts with one of the three protected prefixes and there is no session. Redirect to `/dashboard` iff the path is exactly `/signin` or `/signup` and there is a session. Pass through in every other case |
| `RouteGate.Gate` | data_analysis_app/src/middleware.ts:39-41 | paths outside the matcher list pass through. Paths in it get the middleware's decision. A redirect only ever comes from a protected path or an auth page |
| `RouteGate.StartsWithConcat` | data_analysis_app/src/middleware.ts:19-21 | starting with `base/` implies starting with `base` |
| `RouteGate.MatcherCoversProtectedSections` | data_analysis_app/src/middleware.ts:19-21 | every path the matcher selects under a protected base is protected by the prefix test |
| `RouteGate.PrefixNotSegment` | data_analysis_app/src/middleware.ts:19-21 | the test is a raw prefix test: `/profiles` and `/dashboardx` are protected and `/project` is not |
| `RouteGate.ProfilesBypassesGate` | data_analysis_app/src/middleware.ts:19-41 | the middleware would redirect `/profiles` without a session, but the matcher never runs it there |
| `RouteGate.AuthPagesAreNotProtected` | data_analysis_app/src/middleware.ts:19-33 | `/signin` and `/signup` are not protected, so the two redirect rules never both apply |
| `RouteGate.NoRedirectLoop` | data_analysis_app/src/middleware.ts:24-35 | re-running the gate on a redirect's target with the same session passes through |
| `RouteGate.MiddlewareNoRedirectLoop` | data_analysis_app/src/middleware.ts:24-35 | re-running the middleware decision, with the pathname taken as given, on either redirect target with the same session passes through |
| `RouteGate.RedirectTargets` | data_analysis_app/src/middleware.ts:24-33 | only a visitor without a session is sent to sign in, and only one with a session is sent to the dashboard |
| `Playground.MockChartValues` | data_analysis_app/src/app/playground/sql/page.tsx:29-54 | the chart shown after a run has the ten product names as labels, their sales as values, in table order, and the title "Product Sales" |
| `Playground.Take` | data_analysis_app/src/app/playground/sql/page.tsx:87 | `slice(0, n)` keeps the first n elements, or all of them when there are fewer |
| `Playground.HistoryBounded` | data_analysis_app/src/app/playground/sql/page.tsx:87 | the history never exceeds ten entries |
| `Playground.ExistingQueryLeavesHistory` | data_analysis_app/src/app/playground/sql/page.tsx:86 | a query already held leaves the history exactly unchanged, without moving it to the front |
| `Playground.NewQueryGoesFirst` | data_analysis_app/src/app/playground/sql/page.tsx:86-87 | a new query lands at index 0, followed by the previous entries in order, as many as fit |
| `Playground.FullHistoryDropsOldest` | data_analysis_app/src/app/playground/sql/page.tsx:87 | with ten entries, a new query keeps the length at ten, drops the last entry and keeps the other nine |
| `Playground.AddKeepsDistinct` | data_analysis_app/src/app/playground/sql/page.tsx:86-87 | the history stays free of duplicates, and the query run is in it afterwards |
| `Playground.AddOnlyRecordsRuns` | data_analysis_app/src/app/playground/sql/page.tsx:86-87 | every entry afterwards is the query run or an entry from before |
| `Playground.HistoryAfterInvariant` | data_analysis_app/src/app/playground/sql/page.tsx:69-87 | starting from the empty history, any sequence of runs leaves at most ten distinct entries, each a query that was run, with the last query run among them |
| `Playground.SqlPlayground.constructor` | data_analysis_app/src/app/playground/sql/page.tsx:64-69 | the initial query text, no results, no chart, not loading, no error, empty history |
| `Playground.SqlPlayground.BeginRun` | data_analysis_app/src/app/playground/sql/page.tsx:73-74 | loading is set and the error cleared, and nothing else changes |
| `Playground.SqlPlayground.FinishRun` | data_analysis_app/src/app/playground/sql/page.tsx:82-93 | the results become the fixed mock data whatever the query, the chart its chart, the history `AddToHistory` of the old one, and loading ends |
| `Playground.SqlPlayground.RunQuery` | data_analysis_app/src/app/playground/sql/page.tsx:72-95 | after a run, the error is cleared, the mock results are shown, the history is updated by `AddToHistory` and holds the query, and loading is false |
| `Playground.SqlPlayground.LoadFromHistory` | data_analysis_app/src/app/playground/sql/page.tsx:97-99 | only the current query changes, and the history is untouched |
| `Playground.SqlPlayground.ClearHistory` | data_analysis_app/src/app/playground/sql/page.tsx:101-103 | the history becomes empty and nothing else changes |
| `Playground.RunAll` | data_analysis_app/src/app/playground/sql/page.tsx:64-95 | a fresh page that runs a sequence of queries holds exactly `HistoryAfter` of them |
| `Editor.KeysStep` | data_analysis_app/src/components/data/SQLEditor.tsx:47-77 | the index stays within the suggestions over any sequence of key events |
| `Editor.KeyStepInRange` | data_analysis_app/src/components/data/SQLEditor.tsx:36-64 | after any key, `activeSuggestion` stays within 0..7 |
| `Editor.ArrowsClamp` | data_analysis_app/src/components/data/SQLEditor.tsx:57-64 | on an open popup, ArrowDown moves down one except at the last index, and ArrowUp moves up one except at 0. Both prevent the default and change nothing else |
| `Editor.CtrlSpaceOnlyOpens` | data_analysis_app/src/components/data/SQLEditor.tsx:49-53 | Ctrl+Space opens the popup, keeps the query and the index, and prevents the default |
| `Editor.ClosedIgnoresKeys` | data_analysis_app/src/components/data/SQLEditor.tsx:55 | while closed, every other key changes nothing and keeps its default action |
| `Editor.EnterOrTabApplies` | data_analysis_app/src/components/data/SQLEditor.tsx:67-70 | Enter or Tab on an open popup appends a space and the selected suggestion, closes the popup and keeps the index |
| `Editor.EscapeOnlyCloses` | data_analysis_app/src/components/data/SQLEditor.tsx:72-75 | Escape on an open popup closes it and keeps the query and the index |
| `Editor.KeyStepAppends` | data_analysis_app/src/components/data/SQLEditor.tsx:47-82 | the key handler never removes text: the old query is a prefix of the new one |
| `Editor.KeysOnlyAppend` | data_analysis_app/src/components/data/SQLEditor.tsx:47-82 | over any sequence of keys the old query stays a prefix of the new one |
| `Editor.ChangedQueryMeansApplied` | data_analysis_app/src/components/data/SQLEditor.tsx:47-82 | the only key that changes the query is Enter or Tab on an open popup, which appends the selected suggestion |
| `Editor.SqlEditor.constructor` | data_analysis_app/src/components/data/SQLEditor.tsx:24-33 | the query starts as the given `initialQuery` or its default, with the popup closed at the first suggestion |
| `Editor.SqlEditor.Rerender` | data_analysis_app/src/components/data/SQLEditor.tsx:31 | a new `initialQuery` prop does not change the query, the popup or the index |
| `Editor.SqlEditor.ApplySuggestion` | data_analysis_app/src/components/data/SQLEditor.tsx:79-82 | the query gets a space and the suggestion appended, and the popup closes |
| `Editor.SqlEditor.HandleKeyDown` | data_analysis_app/src/components/data/SQLEditor.tsx:47-77 | the new state and the preventDefault flag are those of `KeyStep`, and the index stays within range |
| `Editor.SqlEditor.HandleRun` | data_analysis_app/src/components/data/SQLEditor.tsx:84-86 | the current query goes unchanged to `onRun` when there is one, and nothing is sent otherwise |
| `Editor.SqlEditor.ClickRun` | data_analysis_app/src/components/data/SQLEditor.tsx:156-161 | the Run button is disabled while loading, so a click then sends nothing; otherwise it sends the current query to `onRun` when there is one |
| `Editor.SqlEditor.OnChange` | data_analysis_app/src/components/data/SQLEditor.tsx:105 | typing replaces the query, and the popup state is kept |
| `Editor.SqlEditor.Clear` | data_analysis_app/src/components/data/SQLEditor.tsx:144 | the query becomes empty and nothing else changes |
| `Editor.SqlEditor.Reset` | data_analysis_app/src/components/data/SQLEditor.tsx:151 | the query becomes the current `initialQuery` prop and nothing else changes |
| `Editor.HandleKeys` | data_analysis_app/src/components/data/SQLEditor.tsx:47-77 | feeding events to the handler one by one ends in `KeysStep` of them |
| `Editor.ArrowsFrom` | data_analysis_app/src/components/data/SQLEditor.tsx:57-64 | n presses of one arrow move the index n places toward that end, stopping there, with the popup open and the query unchanged |
| `Editor.SevenArrowsReachEnds` | data_analysis_app/src/components/data/SQLEditor.tsx:36-64 | seven or more ArrowDowns reach the last suggestion, and seven or more ArrowUps reach the first |

## Left out

- Strings are sequences of Unicode scalar values, not UTF-16 code units. Unpaired surrogates cannot be written. No pattern treats a surrogate pair differently from its code point.
- Case folding is the ASCII a-z to A-Z mapping. The `i` flag without `u` folds no other character onto a letter of the seven keywords, so the verdicts agree.
- JSON parsing of the request body is not modelled. The body is either a parsed JSON value or a parse failure carrying its message.
- The null-body 500 carries the TypeError message in V8's wording. Other engines word it differently.
- Response serialization, headers and `console.error` logging are left out. A response is its status and its body.
- `executeRawQuery` and the connection pool in `data_analysis_app/src/lib/server-db.ts` are not part of this model. The executor is a parameter that returns rows or an error with a message.
- An executor that throws instead of returning an error would reach the catch-all 500. This case is not modelled.
- The session lookups in the middleware (line 16) and the disabled route check (route.ts lines 8-18) are calls into the authentication service. The middleware takes a boolean instead.
- The redirect is its target path and the `redirect` parameter. The absolute URL built from the request URL, and its percent-encoding, are left out.
- RouteGate.MatcherSelects: approximates the `:path*` matcher of Next.js. It accepts a base followed by `/` and any text, without checking segment syntax or trailing-slash normalisation.
- The 800 ms delay in `runQuery` is left out. `BeginRun` and `FinishRun` run one after the other, so the membership test at line 86 sees the same history as the update at line 87. The stale-closure read of a concurrent run is not modelled.
- The `catch` branch of `runQuery` (lines 89-91) is not modelled: nothing in its `try` block throws, so `error` stays cleared.
- Chart options and colours, the `activeTab` state and all rendering are left out. The chart keeps its labels, data and title.
- The page passing its `query` to the editor as `initialQuery` is not modelled as one object. `Rerender` models the prop change on the editor side.
- The editor's `suggestions` and `editorHeight` props only affect rendering and are left out. Its `isLoading` prop is modelled only as the Run button's `disabled` flag, in `ClickRun`. A click on a popup entry is `ApplySuggestion`.
- The shared `Button` component is not part of this model. `ClickRun` assumes it passes `disabled` to the native button, which then fires no click.
- What the browser does with a key whose default is not prevented is left out. Its effect on the text arrives through `OnChange`.
