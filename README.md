# MiniExpress in Dafny

MiniExpress is a small Express-style web framework in one Java class (`lib.java`).
An application registers routes with `get` and `post`, adds middlewares with `use`, and calls `listen`.
For each request, the `listen` handler:

- walks the routes in registration order;
- takes the first route whose method is equal to the request's and whose path pattern matches;
- builds a `Request` (path parameters, parsed query string, body) and a `Response`;
- runs the middlewares in order, with the route handler at the end of the chain.

A request that no route selects gets `404 Not Found`.
The `Response` writes at most once: `send`, `json` and `status` do nothing once a reply is out.

This project models that core and proves properties of it:

- `JavaStrings` models Java's `String.split` with a one-character delimiter, as the matcher and the query parser use it.
  With no delimiter in the string, the result is the string itself, so `""` gives `[""]`.
  Otherwise the result is the pieces between delimiters, with trailing empty pieces removed.
  The module also models the `replace("\"", "\\\"")` quote escape of the echo handler.
- `HashMapPuts` is the `HashMap.put` loop that both `match` and `parseQuery` run: a left fold where the last put of a key wins.
- `PathMatcher.Match` is `match`, a loop proved against `MatchSpec`.
- `QueryString.ParseQuery` is `parseQuery`, a loop proved against `QuerySpec`.
  A missing query (`null`) is `None`.
- `Http` holds the values that carry a reply:
  - the request record, built by `NewRequest`;
  - the `Exchange` (the transport), whose writes are a log of `Write(status, content type, body)`;
  - the `Response` class with its `sent` flag;
  - `Act`/`Acts`, the value-level account of what a sequence of reply calls does.
- `Pipeline` gives the middleware chain as a function, `RunChain`.
  - A middleware is modelled by its decisions: the reply calls it makes before `next`, whether it calls `next`, and the reply calls it makes after.
  - A handler is either a fixed list of reply calls or one of the three handlers of `main`.
  - The chain result records who ran, as a trace of `Entered(i)` and `Handled`.
- `Server` holds:
  - the `MiniExpress` class, whose `routes` and `middlewares` lists are fields that `Get`, `Post` and `Use` append to;
  - `RunMiddleware`, a recursive method proved against `RunChain`;
  - `Handle`, the `listen` lambda, proved against `Dispatch`;
  - `Lookup`, the first-match route search.
- `ExampleApp` is the application that `main` sets up, and what it answers.

## Model

| member | source | states |
|---|---|---|
| JavaStrings.JavaSplit | lib.java:146-147 | no segment of a split contains the delimiter; when the delimiter occurs, the last segment is not empty (trailing empty segments are removed) |
| JavaStrings.JavaSplitLosesOnlyTrailingDelimiters | lib.java:146-147 | joining the segments again gives a prefix of the input, and everything after that prefix is the delimiter: a split loses only trailing delimiters |
| JavaStrings.JavaSplitJoin | lib.java:146-147 | joining at least two delimiter-free segments, the last non-empty, and splitting again gives the segments back |
| JavaStrings.TrailingDelimiterIgnored | lib.java:146-147 | a trailing delimiter on a non-empty string does not change its split, so `/user/42/` splits like `/user/42` |
| JavaStrings.LoneDelimiterSplitsToNothing | lib.java:146-147 | the string made of one delimiter, such as the route `/`, splits into no segments at all |
| JavaStrings.EmptySplitsToOneEmpty | lib.java:146-147 | the empty string splits into one empty segment |
| JavaStrings.JoinPieces | lib.java:146-147 | joining the raw pieces between delimiters gives the input back |
| JavaStrings.PiecesJoin | lib.java:146-147 | splitting a join of delimiter-free pieces, before trailing empties are removed, gives the pieces back |
| JavaStrings.TrimTrailingEmpty | lib.java:146-147 | removing trailing empty pieces keeps a prefix that is empty or ends in a non-empty piece, and drops only empty pieces |
| JavaStrings.EscapeQuotes | lib.java:196 | the escaped body is never shorter than the body |
| JavaStrings.EscapeQuotesCounts | lib.java:196 | the escape adds exactly one backslash per double quote; every other character occurs as often as in the body |
| JavaStrings.EscapeWithoutQuotes | lib.java:196 | a body without a double quote is left as it is |
| JavaStrings.EscapedHasNoBareQuote | lib.java:196 | every double quote in the escaped body is preceded by a backslash that the escape put there |
| JavaStrings.EscapeQuotesAppend | lib.java:196 | escaping works piece by piece: escaping a concatenation is the concatenation of the escapes |
| JavaStrings.UnescapeEscape | lib.java:196 | the escape loses nothing: undoing `\"` gives the original body back |
| JavaStrings.EscapeQuotedWord | lib.java:196 | a quoted word gets a backslash before each of its two quotes and nothing else changes |
| HashMapPuts.PutAllLastWins | lib.java:150-153 | after a loop of `put`s, a key is present exactly when some step put it, with the value of the last step that put it |
| HashMapPuts.NoPutsEmpty | lib.java:150-153 | a loop that puts nothing leaves the map empty |
| PathMatcher.Match | lib.java:145-159 | the result is `MatchSpec`; segment counts that differ give no match; there is a match exactly when every literal route segment is equal to the path segment at its position |
| PathMatcher.MatchBindings | lib.java:150-158 | on a match, a name is bound exactly when some `:name` segment carries it, to the raw path segment of the last such segment |
| PathMatcher.LiteralRouteBindsNothing | lib.java:150-158 | a matching route without `:` segments gives an empty parameter map |
| PathMatcher.DuplicateNameLastWins | lib.java:153 | for `/:id/:id` against `/1/2`, the later binding wins: `id` is `2` |
| PathMatcher.UserPathSplit | lib.java:147 | `/user/<id>` splits into `""`, `user` and `<id>` when the id is non-empty and has no slash |
| PathMatcher.UserRouteMatches | lib.java:145-159 | `/user/:id` matches `/user/<id>` and binds `id` to the id |
| PathMatcher.RootRouteMatchesOnlyEmpty | lib.java:145-148 | the route `/` matches no path that has at least one segment |
| PathMatcher.UserRouteNeedsThreeSegments | lib.java:148 | `/user/:id` does not match a path that does not have exactly three segments |
| PathMatcher.UserRouteTrailingSlash | lib.java:145-159 | `/user/:id` answers `/user/42/` exactly as it answers `/user/42` |
| PathMatcher.UserRouteArity | lib.java:148 | `/user/42/x` and `/user` do not match `/user/:id` |
| PathMatcher.RootExamples | lib.java:145-159 | `/` matches `/` with no parameters, and does not match `/x` |
| QueryString.PairOf | lib.java:27-28 | a segment that is kept yields a key and a value that have no `=` in them, and the value is non-empty |
| QueryString.ParseQuery | lib.java:23-31 | the result is `QuerySpec`; a missing query gives an empty map; no stored key or value contains `=`, and no stored value is empty |
| QueryString.QueryBindings | lib.java:26-28 | a key is present exactly when some `&`-segment splits on `=` into exactly two parts with that key; the value is from the last such segment |
| QueryString.PairOfJoin | lib.java:27-28 | `k=v` with no `=` in k or v and a non-empty v is kept as the pair (k, v) |
| QueryString.PairOfNoEquals | lib.java:27-28 | a segment without `=` is dropped |
| QueryString.PairKeptEdgeCases | lib.java:27-28 | `=1` is kept with an empty key, and `a=b=` is kept as (a, b), because split drops the trailing empty part |
| QueryString.PairDroppedEdgeCases | lib.java:27-28 | `a=` and `a==b` are dropped: they do not split into exactly two parts |
| QueryString.QueryExample | lib.java:23-31 | `a=1&b=2&bad` parses to {a: 1, b: 2} |
| QueryString.DuplicateKeyLastWins | lib.java:28 | `a=1&a=2` parses to {a: 2} |
| Http.ActsFirstWriterWins | lib.java:46-73 | on a response that has been sent, reply calls change nothing; otherwise the first call writes once and the later ones change nothing |
| Http.NewRequest | lib.java:16-21 | the request carries the matched parameters, the exchange's body, and the parsed raw query |
| Http.Exchange.constructor | lib.java:115 | a fresh exchange carries its request and has nothing written yet |
| Http.Response.constructor | lib.java:42-44 | a new response is tied to its exchange and is not sent |
| Http.Response.Send | lib.java:46-54 | sets `sent`; if it was already set, nothing is written; otherwise exactly one write is added: status 200, `text/plain`, the text |
| Http.Response.Json | lib.java:56-64 | sets `sent`; if it was already set, nothing is written; otherwise exactly one write is added: status 200, `application/json`, the JSON |
| Http.Response.Status | lib.java:66-73 | sets `sent`; if it was already set, nothing is written; otherwise exactly one write is added: the code and the message, with no content type set |
| Http.Response.Perform | lib.java:46-73 | one reply call changes the response and exchange as `Act` says |
| Http.Response.PerformAll | lib.java:46-73 | a sequence of reply calls changes the response and exchange as `Acts` says |
| Pipeline.HandlerActions | lib.java:186-197 | each handler of `main` makes exactly one reply call, with status 200: `/` sends the greeting as `text/plain`; `/user/:id` sends `{"user_id": "<id>"}` as JSON, with the text `null` when `id` is missing (Java's concatenation of a null `params.get`); `/echo` sends JSON (its text is stated by `ExampleApp.EchoServesBody`) |
| Pipeline.ChainRunsInOrder | lib.java:161-173 | when every middleware calls `next`, they run in registration order and then the handler runs |
| Pipeline.ChainShortCircuit | lib.java:161-173 | when middleware k is the first that does not call `next`, exactly middlewares 0..k run and the handler does not |
| Pipeline.HandlerRunsIffAllContinue | lib.java:161-173 | the handler runs exactly when every middleware calls `next` |
| Pipeline.ChainWritesAtMostOnce | lib.java:46-173 | however the chain goes, it adds at most one write; on a sent response it changes nothing |
| Pipeline.ShortCircuitResponse | lib.java:161-173 | a middleware that replies and does not call `next`, after no earlier one wrote, supplies the only write: its first reply call, wherever it falls around the unused `next` |
| Pipeline.HandlerResponse | lib.java:124-173 | when every middleware calls `next` without replying first, the handler's first reply is the only write |
| Server.FindFrom | lib.java:119-121 | the route found is selected by the request, and no earlier route is; when nothing is found, no route is selected |
| Server.MiniExpress.constructor | lib.java:98-99 | a new server has no routes and no middlewares |
| Server.MiniExpress.Get | lib.java:101-103 | appends a GET route to the routes and leaves the middlewares alone |
| Server.MiniExpress.Post | lib.java:105-107 | appends a POST route to the routes and leaves the middlewares alone |
| Server.MiniExpress.Use | lib.java:109-111 | appends the middleware and leaves the routes alone |
| Server.MiniExpress.RunMiddleware | lib.java:161-173 | the writes and the trace are as `RunChain` says |
| Server.MiniExpress.Handle | lib.java:115-139 | the trace and the exchange's writes are as `Dispatch` says |
| Server.NotFoundResponse | lib.java:135-138 | when no route is selected, nothing runs and the one write is 404 with body `404 Not Found` |
| Server.NothingRunsIffNotFound | lib.java:119-138 | no middleware and no handler runs exactly when no route is selected |
| Server.EarlierRegistrationShadows | lib.java:119-121 | of two routes with the same method and path, the later one is never selected |
| Server.AppendKeepsLookup | lib.java:101-121 | registering a route keeps every lookup that already succeeds; a lookup that failed now finds the new route exactly when that route is selected |
| Server.DispatchWritesAtMostOnce | lib.java:115-139 | a request gets at most one write |
| Server.DispatchRunsMiddlewaresInOrder | lib.java:119-130 | when a route is selected and every middleware calls `next`, all middlewares run in order and then the handler runs |
| Server.DispatchShortCircuit | lib.java:119-173 | when a route is selected and middleware k is the first not to call `next`, only middlewares 0..k run |
| ExampleApp.Setup | lib.java:176-197 | `main` registers the logger and the routes GET `/`, GET `/user/:id` and POST `/echo`, in that order |
| ExampleApp.EchoServesBody | lib.java:194-197 | POST `/echo` answers 200 `application/json` `{"you_sent": "..."}` with the body's double quotes escaped |
| ExampleApp.EscapeExample | lib.java:196 | the body `hello "world"` is echoed with its two quotes backslash-escaped |
| ExampleApp.UserPathSelectsUserRoute | lib.java:119-192 | GET `/user/<id>` selects the second route |
| ExampleApp.RootRouteSkipsUserPath | lib.java:186 | GET `/` is not selected by `/user/<id>` |
| ExampleApp.UserRouteTakesUserPath | lib.java:189 | GET `/user/:id` is selected by `/user/<id>` |
| ExampleApp.UserRouteBindsId | lib.java:189-190 | `/user/:id` binds `id` to the id of `/user/<id>` |
| ExampleApp.ServedBy | lib.java:122-183 | behind the logger, the selected route's handler supplies the only write |
| ExampleApp.UserServesId | lib.java:188-192 | GET `/user/<id>` answers 200 `application/json` `{"user_id": "<id>"}` |
| ExampleApp.RootRouteSkipsTwoSegments | lib.java:186 | GET `/` is not selected by a path with two segments |
| ExampleApp.UserRouteSkipsTwoSegments | lib.java:189 | GET `/user/:id` is not selected by a path with two segments |
| ExampleApp.NoRouteSelectsTwoSegmentGet | lib.java:119-197 | no route of the example app is selected by a GET for a two-segment path |
| ExampleApp.TwoSegmentGetNotFound | lib.java:135-197 | a GET for a two-segment path gets 404 `404 Not Found`, and the logger never runs |
| ExampleApp.NopeExample | lib.java:135-197 | GET `/nope` gets 404 `404 Not Found`, and the logger never runs |

## Left out

- `listen`'s server setup (socket, port, executor, start) and its console line are left out. They are I/O; `Handle` models the per-request lambda.
- The logger's printing is left out. It is console output; the logger is modelled as a middleware that calls `next` and replies nothing.
- Reading the request body and UTF-8 encoding are left out. The body is given as a string in `Incoming`. A write records the text, not its byte length.
- `getHeader` is left out. It only forwards to the transport's header map.
- Exception plumbing (`IOException`, wrapping in `RuntimeException`) is left out. No transport call fails in the model.
- Middlewares and handlers are arbitrary Java closures. The model covers them only by their decisions, listed above.
- A middleware calling `next` more than once is not modelled.
- The transport's percent-decoding of the request path is not modelled. `Incoming.path` is the already-decoded path that `getPath` returns, so a wire path `/user/a%2Fb` reaches the matcher as `/user/a/b`.
- Server.DispatchWritesAtMostOnce: holds for handlers and middlewares that reply through `Response`. A closure can also reach the transport directly through the public `Request.exchange` field and bypass the `sent` guard; that is not modelled.
- Concurrent requests are not modelled. The built-in server runs one request at a time on its default executor.
- Http.Response.Status: status codes are unbounded integers. The transport's rejection of codes outside its allowed range is not modelled.
- Server.MiniExpress.Handle: requires an exchange with nothing written yet. The transport creates one exchange per request.
- Reply headers are reduced to the content type, the only header the code sets.
- The value-level `Act` does not model aliasing between two `Response` objects on one exchange. Only one exists per request.
- The query parser keeps an empty key: `=1` gives ("", "1"). This follows the code.
- A trailing slash on a path or route is ignored. `String.split` drops trailing empty segments, so this follows the code.
