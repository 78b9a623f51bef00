# gotasks core, modelled in Dafny

This project models the parts of the gotasks exercises that are decision
logic: how they route, check, parse and count. It proves properties of each.
Every module is a model of one Go file:

| module | Go file | what it covers |
|---|---|---|
| `GoStd` (gostd.dfy) | — | the standard-library pieces the code relies on: `strings.Split`/`Join`/`Contains`/`Replace(…, 1)`/`ReplaceAll` of one character, `strconv.Atoi`/`Itoa`, UTF-8 byte length, `url.Values.Get` |
| `Service` (service.dfy) | 7/service.go | the access-control and telemetry layer of the gRPC service: `pathsMatch`, `hasRights`, `authenticateRole`, `getConsumer`, the `Admin` registries (`EventChannels`, `Stats`) as a class, `addStat`, the registry effects of `Logging`/`Statistics`, and the step order of both interceptors |
| `DbExplorer` (dbexplorer.dfy) | 6/db_explorer.go | `filterEmpty`, route selection in `rootHandler`, `validateType`, `sqlToGoType`, `findPrimaryKey`, the paging defaults of `getTable`, the column loops of `addRow`/`updateRow`, the primary-key check of `deleteRow`, and the query of `getRow` |
| `ApiHandlers` (apihandlers.dfy) | 5/api_handlers.go | `unpackValues`, the three generated wrappers (`MyApi.wrapperCreate`, `MyApi.wrapperProfile`, `OtherApi.wrapperCreate`) and both `ServeHTTP` dispatchers |
| `Codegen` (codegen.dfy) | 5/handlers_gen/codegen.go | the `apivalidator:` tag parser inside `parseStructs`, the grouping of `parseMethods`, and `contains` |
| `FastSearch` (fastsearch.dfy) | 3/fast.go | the scan of `FastSearch` over decoded users, and `contains` |

Conventions used throughout:

- **Go panics.** An index out of range, a nil dereference or `time.NewTicker` with a period that is not positive is modelled as a panic result (`Outcome.Panic` in `GoStd`, `Opened.Panicked` in `Service`), not as a precondition. The ticker period is computed with Go's int64 wrap-around: besides zero, some huge intervals wrap to a period that is not positive and panic, while others wrap to a small positive period.
- **Map iteration order.** Go visits a map in an unspecified order. A loop over a map picks its next key with `:|`. Every contract holds for any visiting order. Where the error reported depends on the order, the contract says "some offending key".
- **Mixed code.** Code that mutates state step by step is written as Dafny methods with loops, e.g. `Admin.AddStat`, `FilterEmpty`, `AddRow`, `ParseStructs` and `Scan`. Some loops are proved equal to a specification function, and the properties are lemmas about that function: `FilterEmpty`, `ParseTag`, `ParseFields`, `ParseStructs`, `ParseMethods`, `RegisterReceivers`, `Scan` and `ScanBrowsers` are proved equal to recursive folds, and `AddStat`, `Broadcast` and `UnpackValues` to map comprehensions (`RecordAll`, `Publish`, `Unpacked`). The loops of `AddRow`, `UpdateRow`, `FindPrimaryKey` and the `SliceContains` methods carry their properties directly in their contracts. Pure branching code is written as functions.

## Model

| member | source | states |
|---|---|---|
| `Service.MatchFrom` | 7/service.go:265-275 | the model of pathsMatch's segment loop from position i; its meaning is `MatchFromSpec` |
| `Service.PathsMatch` | 7/service.go:261-276 | the model of pathsMatch; its meaning is `PathsMatchSpec` |
| `Service.MatchFromSpec` | 7/service.go:265-275 | from any position reached with equal, wildcard-free segments, the pathsMatch loop answers true exactly when the role grants the path (a reachable `*`, or the path is a prefix of the role), and panics exactly when it runs off a shorter wildcard-free role |
| `Service.PathsMatchSpec` | 7/service.go:261-276 | pathsMatch on the `/`-split segments: true iff the role grants the path, panic iff the path outruns a wildcard-free role prefix |
| `Service.PathsMatchReflexive` | 7/service.go:261-276 | every path matches itself as a pattern |
| `Service.LongerRoleGrants` | 7/service.go:265-275 | a role with at least as many segments, whose first segments equal the path's, grants the path |
| `Service.MatchFromSkips` | 7/service.go:265-274 | equal, wildcard-free segments are stepped over without changing the outcome |
| `Service.FirstMismatchDenies` | 7/service.go:271-273 | the first differing segment before any `*` makes pathsMatch false |
| `Service.AdminWildcardExamples` | 7/service.go:268-270 | `"/Admin/*"` matches `"/Admin/Logging"` and also `"/Admin"`, the latter because the path stops before the `*` |
| `Service.SiblingMethodExample` | 7/service.go:271-273 | `"/Admin/Logging"` does not match `"/Admin/Statistics"` |
| `Service.ShortRoleExample` | 7/service.go:267 | `"/Admin"` against `"/Admin/Logging"` reads past the role: a panic |
| `Service.HasRights` | 7/service.go:252-259 | the model of hasRights; its meaning is `HasRightsSpec` and `HasRightsIffSomeGrants` |
| `Service.HasRightsSpec` | 7/service.go:252-259 | hasRights is true iff some pattern grants the method and every earlier one plainly denies it; false iff all deny; otherwise the panic of the first pattern that panics |
| `Service.HasRightsIffSomeGrants` | 7/service.go:252-259 | when no pattern panics, hasRights is exactly "some allowed pattern matches" |
| `Service.NoPatternsNoRights` | 7/service.go:252-259 | the empty allow-list grants nothing |
| `Service.AuthenticateRole` | 7/service.go:201-208 | nil iff hasRights is true; Unauthenticated "Role has no rights" iff it is false; otherwise the panic propagates |
| `Service.GetConsumer` | 7/service.go:278-286 | the first "consumer" metadata value when there is one, else Unauthenticated "Role is missing" |
| `Service.Bump` | 7/service.go:291-304 | the counter of the key rises by exactly one (an absent key becomes 1), the key set gains only that key, and every other counter is unchanged |
| `Service.RecordAll` | 7/service.go:288-306 | recording a call in every window keeps the set of windows |
| `Service.RecordAllByWindow` | 7/service.go:289-305 | a registry in which every window recorded the call, and nothing else changed, is the registry addStat promises |
| `Service.Publish` | 7/service.go:184-186 | broadcasting keeps the set of sinks |
| `Service.ReplayCounts` | 7/service.go:288-306 | after a sequence of calls, a window's counter for a method (or a consumer) is its old value plus the number of calls by that method (or that consumer) |
| `Service.PublishAllAppends` | 7/service.go:229-231 | events broadcast one after another reach every sink in order, appended after what it held |
| `Service.UnaryVerdict` | 7/service.go:210-250 | the model of the unary interceptor's steps as a value; `Admin.UnaryIntercept` is proved to follow it, and `UnaryGatesHandler`/`UnaryAuditsDeniedCalls` state its meaning |
| `Service.StreamVerdict` | 7/service.go:165-199 | the model of the stream interceptor's steps as a value; `Admin.StreamIntercept` is proved to follow it, and `StreamChecksAfterHandler` states its meaning |
| `Service.UnaryGatesHandler` | 7/service.go:219-247 | the unary interceptor runs the handler iff the peer and consumer are known, the consumer has a role entry, and its patterns grant the method; then it returns the handler's result |
| `Service.UnaryAuditsDeniedCalls` | 7/service.go:228-240 | with a peer and a consumer, the unary path broadcasts the event and counts the call whether or not it is allowed; an unknown consumer gets "Incorrect role" and no handler call |
| `Service.StreamChecksAfterHandler` | 7/service.go:173-197 | for a known consumer whose patterns deny the method, the stream path runs the handler and then returns "Role has no rights", while the unary path does not run it; for an unknown consumer the stream path does not count the call but the unary path does |
| `Service.TickThenRecord` | 7/service.go:115-118 | a window just reset by a tick counts the next call as 1 |
| `Service.Admin.constructor` | 7/service.go:137-145 | the Admin built by StartMyMicroservice: the given ACL and empty registries |
| `Service.Admin.OpenLogging` | 7/service.go:59-67 | without a consumer: "Role is missing" and no change; otherwise a fresh empty sink under the consumer, replacing any previous one |
| `Service.Admin.NextEvent` | 7/service.go:68-76 | one step of the range over the channel: the oldest event is removed and returned; an empty channel yields nothing |
| `Service.Admin.CloseLogging` | 7/service.go:77-81 | the sink under the consumer is deleted, the rest kept; Logging returns nil |
| `Service.Admin.OpenStatistics` | 7/service.go:84-99 | without a consumer: returns nil with no change; otherwise a zeroed window under the consumer, replacing any previous one; then the ticker panics iff the wrapped period is not positive, and streaming starts otherwise |
| `Service.TickerPeriod` | 7/service.go:99 | `time.Duration(n) * time.Second` in int64: always in the int64 range, and exact whenever the product fits |
| `Service.TickerPeriodExact` | 7/service.go:99 | up to 9223372036 seconds the period is exactly n·10^9 ns, so only 0 panics |
| `Service.TickerPeriodCases` | 7/service.go:99 | past that bound the period wraps: 9223372037 seconds to a negative period and 2^63 seconds to 0, so both panic; 18446744074 seconds to 290448384 ns, a positive period |
| `Service.Admin.Tick` | 7/service.go:109-120 | sends the current window and replaces it with a zeroed one |
| `Service.Admin.CloseStatistics` | 7/service.go:102-106 | the window under the consumer is deleted, the rest kept |
| `Service.Admin.Broadcast` | 7/service.go:183-187 | every sink gets the event appended once; the statistics are unchanged |
| `Service.Admin.CountCall` | 7/service.go:290-304 | one window counts the call by consumer and by method |
| `Service.Admin.AddStat` | 7/service.go:288-306 | every window records the call exactly once and the set of windows is unchanged (the per-window meaning is `Bump`'s contract and `ReplayCounts`) |
| `Service.Admin.UnaryIntercept` | 7/service.go:210-250 | the unary interceptor's result, handler flag, sinks and statistics, step by step: peer, consumer, broadcast, count, role lookup, authenticateRole, handler |
| `Service.Admin.StreamIntercept` | 7/service.go:165-199 | the stream interceptor's result, handler flag, sinks and statistics: consumer, peer, broadcast, role lookup, count, handler, then authenticateRole as the return value |
| `DbExplorer.FilterEmpty` | 6/db_explorer.go:504-513 | the loop computes `NonEmpty` of its input |
| `DbExplorer.NonEmptyAppend` | 6/db_explorer.go:506-511 | filtering distributes over concatenation, so relative order is kept |
| `DbExplorer.NonEmptyContents` | 6/db_explorer.go:506-511 | the result has no `""`, and every non-empty string occurs as often as in the input |
| `DbExplorer.NonEmptyIdempotent` | 6/db_explorer.go:504-513 | filtering twice is filtering once |
| `DbExplorer.Dispatch` | 6/db_explorer.go:470-492 | the model of rootHandler's choice of handler; its meaning is `SelectRoute`, `NoRouteCases` and `EmptySegmentsIgnored` |
| `DbExplorer.PathSegments` | 6/db_explorer.go:472 | the path segments never contain an empty string |
| `DbExplorer.SelectRoute` | 6/db_explorer.go:474-492 | each handler is chosen iff its segment count and verb match (0/GET table list; 1/GET getTable; 1/PUT addRow; 2/GET getRow; 2/POST updateRow; 2/DELETE deleteRow); the table is the first segment and the id the second |
| `DbExplorer.NoRouteCases` | 6/db_explorer.go:474-492 | no handler runs exactly for three or more segments, or a verb the count does not accept |
| `DbExplorer.TrailingSlashIgnored` | 6/db_explorer.go:472 | a trailing `/` does not change the segments |
| `DbExplorer.EmptySegmentsIgnored` | 6/db_explorer.go:472-492 | a path ending in `//` routes like the path without it |
| `DbExplorer.ValidateType` | 6/db_explorer.go:440-455 | kind string is accepted iff the SQL type contains `varchar` or `text`, kind float64 iff it contains `int`, any other kind never |
| `DbExplorer.SqlToGoType` | 6/db_explorer.go:457-468 | `"string"` iff the type contains `varchar` or `text`; `"float64"` iff it contains `int` and neither of those; else `"nil"` |
| `DbExplorer.ValidateTypeMatchesSqlToGoType` | 6/db_explorer.go:440-468 | validateType accepts a string iff sqlToGoType says string; sqlToGoType's float64 is accepted as a float |
| `DbExplorer.FindPrimaryKey` | 6/db_explorer.go:108-115 | `""` when no column is PRI; otherwise the name of some PRI column; for tables whose column names are their keys and non-empty, `""` iff there is no PRI column |
| `DbExplorer.IntOrDefaultSpec` | 6/db_explorer.go:392-402 | the value kept always parses as an int; an int passes through unchanged, anything else (including `""`) becomes the default; applying it twice changes nothing |
| `DbExplorer.IntOrDefault` | 6/db_explorer.go:392-402 | the model of the limit/offset defaulting; its meaning is `IntOrDefaultSpec` |
| `DbExplorer.GetTable` | 6/db_explorer.go:376-417 | 404 "unknown table" iff the table is missing; otherwise the paged SELECT text with the limit and offset as its two arguments |
| `DbExplorer.GetTablePaging` | 6/db_explorer.go:392-412 | both SELECT arguments parse as ints: the query's limit and offset when they parse, else `"5"` and `"0"` |
| `DbExplorer.ColumnValue` | 6/db_explorer.go:183-198 | a column is kept iff it is in the body or not nullable, and is not auto_increment; the value is the body's, else the zero value that sqlToGoType selects |
| `DbExplorer.AddRow` | 6/db_explorer.go:156-219 | 400 on an unparsed body, 500 on an unknown table; otherwise the inserted columns are exactly the kept ones, each once, and the values line up with them; the text joins the columns and as many `?`; the id is reported under the findPrimaryKey name |
| `DbExplorer.UpdateRow` | 6/db_explorer.go:261-320 | 400 on an unparsed body or unknown table; succeeds iff every body key is an existing, non-PRI column whose value is nil only if the column is nullable and otherwise passes validateType; a failure is 400 with the message of some offending key; on success the SET clause of the text lists exactly the body keys as `k = ? `, the WHERE clause names what findPrimaryKey gives (a PRI column, or `""` without one), and the row id is the last argument |
| `DbExplorer.DeleteRow` | 6/db_explorer.go:333-357 | 400 "Table does not exist" on an unknown table; 400 "Table does not have a primary key" iff no column is PRI; otherwise a DELETE keyed by a PRI column's name |
| `DbExplorer.GetRow` | 6/db_explorer.go:223-240 | the SELECT is keyed by the name of a PRI column when the table has one, and by the empty name when the table is unknown or has no PRI column; it binds the row id |
| `ApiHandlers.UnpackValues` | 5/api_handlers.go:14-22 | exactly the keys with a non-empty value list are kept, each mapped to its first value |
| `ApiHandlers.UnpackedAgreesWithGet` | 5/api_handlers.go:14-22 | reading an unpacked key gives what `url.Values.Get` gives |
| `ApiHandlers.RawParams` | 5/api_handlers.go:47-60 | POST reads the parsed body, other verbs the URL query; an unreadable body is a 500 carrying the error |
| `ApiHandlers.ValidateCreate` | 5/api_handlers.go:62-200 | accepted iff age is absent or an int in 0..128, login is present with at least 10 bytes, and status (empty means "user") is user, moderator or admin; the accepted values; every failure is 400, and its message is that of the first failing check in field order (age must be int, >= 0, <= 128; login must be not empty, len >= 10; status must be one of the three) |
| `ApiHandlers.MyApiCreate` | 5/api_handlers.go:28-60 | non-POST is 406 "bad method" before anything else; then an X-Auth other than "100500" is 403 "unauthorized"; then an unreadable body is 500; then the parameter checks |
| `ApiHandlers.MyApiProfile` | 5/api_handlers.go:215-265 | no method or auth check: accepted iff the parameters are readable and have a login |
| `ApiHandlers.ValidateOtherCreate` | 5/api_handlers.go:316-454 | accepted iff class (empty means "warrior") is warrior, sorcerer or rouge, level is an int in 1..50, and username is present with at least 3 bytes; every failure is 400, and its message is that of the first failing check in field order (class; level must be int, >= 1, <= 50; username must be not empty, len >= 3) |
| `ApiHandlers.MissingLevelRejected` | 5/api_handlers.go:356-382 | a valid class with no level is rejected with "level must be >= 1" |
| `ApiHandlers.OtherApiCreate` | 5/api_handlers.go:282-314 | the same guard order as MyApi's create: 406, then 403, then 500, then the parameter checks |
| `ApiHandlers.MyApiServe` | 5/api_handlers.go:471-484 | `/user/create` and `/user/profile` reach their wrappers; any other path is 404 "unknown method" |
| `ApiHandlers.OtherApiServe` | 5/api_handlers.go:498-508 | only `/user/create` is served; anything else is 404 "unknown method" |
| `ApiHandlers.WriteRejection` | 5/api_handlers.go:486-493 | a rejection writes its status with its message as the error; a success writes no status |
| `ApiHandlers.CreateGuardsPrecedeParameters` | 5/api_handlers.go:31-44 | through ServeHTTP, create answers 406 for a non-POST and 403 for a bad X-Auth whatever the parameters |
| `ApiHandlers.ProfileNeedsNoAuth` | 5/api_handlers.go:215-249 | a GET of /user/profile with a login in the query reaches Profile whatever its headers |
| `Codegen.ApplyToken` | 5/handlers_gen/codegen.go:365-382 | one token panics iff it is neither `required` nor contains `=`; `required` sets only the flag; the type is never touched |
| `Codegen.ApplyTokens` | 5/handlers_gen/codegen.go:365-383 | the model of the token loop as a fold; its meaning is the `ApplyTokens*` lemmas |
| `Codegen.ApplyTokensPanics` | 5/handlers_gen/codegen.go:365-383 | the tokens panic iff some token is malformed |
| `Codegen.ApplyTokensRequired` | 5/handlers_gen/codegen.go:366-369 | the result is required iff some token is `required` (or it already was) |
| `Codegen.ApplyTokensLastWins` | 5/handlers_gen/codegen.go:374-381 | min, max, paramname and default hold the value of the last token that sets them |
| `Codegen.ApplyTokensEnum` | 5/handlers_gen/codegen.go:372-373 | the enum is the last `enum=` value split on `|`, in order |
| `Codegen.ApplyTokensUnset` | 5/handlers_gen/codegen.go:365-383 | a key no token sets keeps its earlier value (unknown keys are ignored) |
| `Codegen.TagValidator` | 5/handlers_gen/codegen.go:353-384 | the model of one field's tag handling; its meaning is the three `TagValidator*` lemmas |
| `Codegen.TagValidatorOutcome` | 5/handlers_gen/codegen.go:353-371 | a tag without `apivalidator:` yields no validator; with it, the parse panics iff some token is malformed |
| `Codegen.TagValidatorFields` | 5/handlers_gen/codegen.go:357-382 | the type is the field's type expression; required iff a `required` token occurs; each keyed setting is `""` when unset, else its last value |
| `Codegen.TagValidatorEnum` | 5/handlers_gen/codegen.go:372-373 | no `enum=` gives no options; otherwise the options joined by `|` give back the last enum value |
| `Codegen.ParseTag` | 5/handlers_gen/codegen.go:353-383 | the tag handling of one field computes `TagValidator` |
| `Codegen.FieldStep` | 5/handlers_gen/codegen.go:348-385 | an untagged or nameless field panics; a field without the prefix leaves the map as it was; at most the field's first name is added, with its tag's validator |
| `Codegen.OtherStructsIgnored` | 5/handlers_gen/codegen.go:326-347 | declarations other than the named struct type contribute nothing |
| `Codegen.ParseFields` | 5/handlers_gen/codegen.go:348-385 | the field loop computes the fold of `FieldStep` |
| `Codegen.StructValidators` | 5/handlers_gen/codegen.go:323-389 | the model of parseStructs' nested loops as a fold; `ParseStructs` is proved to compute it, and `OtherStructsIgnored` and `FieldStep` state its steps |
| `Codegen.ParseStructs` | 5/handlers_gen/codegen.go:323-389 | the nested loops compute `StructValidators` from an empty map |
| `Codegen.RegisterStores` | 5/handlers_gen/codegen.go:304-318 | every `*T` receiver files the shape under T and the handler name |
| `Codegen.RegisterKeeps` | 5/handlers_gen/codegen.go:304-318 | every other entry already in the map is kept |
| `Codegen.RegisterOnly` | 5/handlers_gen/codegen.go:304-318 | every entry afterwards was there before or is the handler under a `*T` receiver |
| `Codegen.MethodsOnlyAnnotated` | 5/handlers_gen/codegen.go:277-318 | every entry of the result comes from a function whose doc starts with `apigen:api`, registered under its pointer receiver's type and its own name |
| `Codegen.LaterDuplicateOverwrites` | 5/handlers_gen/codegen.go:311-317 | a later annotated method with the same receiver and name replaces the earlier shape |
| `Codegen.RegisterReceivers` | 5/handlers_gen/codegen.go:304-318 | the receiver loop computes `Register` |
| `Codegen.Methods` | 5/handlers_gen/codegen.go:277-318 | the model of parseMethods' loop as a fold; its meaning is `MethodsOnlyAnnotated`, `MethodsRegistersEvery`, `MethodsKeeps` and `LaterDuplicateOverwrites` |
| `Codegen.MethodStepKeeps` | 5/handlers_gen/codegen.go:281-318 | a declaration that does not register a receiver type and name keeps that entry |
| `Codegen.MethodsKeeps` | 5/handlers_gen/codegen.go:277-318 | an entry survives the scan unless a later declaration registers the same receiver type and name |
| `Codegen.LastRegistrar` | 5/handlers_gen/codegen.go:277-318 | among the declarations from a registering one on, there is a last one registering the same receiver type and name |
| `Codegen.MethodsStoresLast` | 5/handlers_gen/codegen.go:304-318 | the last declaration registering a receiver type and name decides the shape stored under them |
| `Codegen.MethodsRegistersEvery` | 5/handlers_gen/codegen.go:277-318 | every annotated method on a `*T` receiver ends up under T and its name, with the shape of the last declaration registering that pair |
| `Codegen.ParseMethods` | 5/handlers_gen/codegen.go:274-321 | the declaration loop computes `Methods` from an empty map, panic included |
| `Codegen.SliceContains` | 5/handlers_gen/codegen.go:391-398 | true iff the element occurs in the slice |
| `FastSearch.SliceContains` | 3/fast.go:207-215 | true iff the string occurs in the slice |
| `FastSearch.ScanBrowsers` | 3/fast.go:175-189 | one user's browser loop appends the new target browsers and reports whether some browser contains "Android" and some contains "MSIE" |
| `FastSearch.Scan` | 3/fast.go:150-200 | the printed lines are `Report` of the decoded lines |
| `FastSearch.AddBrowsersSpec` | 3/fast.go:184-188 | scanning only appends, keeps the record duplicate-free, and records exactly the target browsers seen |
| `FastSearch.BrowsersDistinct` | 3/fast.go:185-187 | the recorded browsers never repeat |
| `FastSearch.BrowsersExactly` | 3/fast.go:175-189 | a browser is recorded iff it contains "Android" or "MSIE" and some decoded user has it |
| `FastSearch.ListingSpec` | 3/fast.go:190-196 | the k-th user line belongs to the k-th listed user, and a user is listed iff they have an Android and an MSIE browser |
| `FastSearch.UndecodableLinesSkipped` | 3/fast.go:170-173 | an undecodable line changes nothing in the output and takes no index |
| `FastSearch.Report` | 3/fast.go:150-200 | the model of FastSearch's output; `Scan` is proved to print it, and `ReportShape`, `ListingSpec` and `BrowsersExactly` state its meaning |
| `FastSearch.ReportShape` | 3/fast.go:152-200 | the header comes first and the footer reports the number of distinct browsers |
| `FastSearch.EmailRewrite` | 3/fast.go:191 | only the first `@` of the e-mail becomes " [at] " |
| `GoStd.Split` | 7/service.go:262-263 | `strings.Split` gives at least one piece, at least two iff the separator occurs, and no piece holds the separator |
| `GoStd.JoinSplit` | 5/handlers_gen/codegen.go:373 | joining the pieces of a split gives back the string |
| `GoStd.Index` | 5/handlers_gen/codegen.go:289 | the first occurrence of a substring, or -1 iff it does not occur |
| `GoStd.RemoveAll` | 5/handlers_gen/codegen.go:358-359 | removing a character leaves none of it and every other character as often as before |
| `GoStd.RemoveAllAppend` | 6/db_explorer.go:472 | removal distributes over concatenation, so what remains keeps its order |
| `GoStd.RemoveAllChar` | 6/db_explorer.go:472 | a single character is removed iff it is the one removed |
| `GoStd.Atoi` | 6/db_explorer.go:393 | only an optional sign followed by decimal digits parses, and the value lies in the int64 range |
| `GoStd.AtoiDigits` | 6/db_explorer.go:393 | a sign (none, `+` or `-`) and at least one digit parse to their signed decimal value exactly when it lies in the int64 range |
| `GoStd.WrapInt64` | 7/service.go:99 | the int64 wrap: in range, congruent to its input modulo 2^64, and the identity on values already in range |
| `GoStd.AtoiItoa` | 3/fast.go:192 | parsing a printed int gives it back |
| `GoStd.Utf8Len` | 5/api_handlers.go:133 | the byte length is at least the number of characters, and equal for ASCII |
| `GoStd.Utf8LenAppend` | 5/api_handlers.go:133 | the byte length of a concatenation is the sum of the byte lengths |
| `GoStd.Utf8LenChar` | 5/api_handlers.go:133 | one character takes one to four bytes, and one exactly when it is ASCII |
| `GoStd.Utf8LenExample` | 5/api_handlers.go:133 | `"é"` is two bytes long |
| `GoStd.FirstOrEmpty` | 5/api_handlers.go:38 | the first value of the key, or `""` when there is none |

## Left out

- The gRPC transport is not modelled: the server, the listener, `metadata.FromIncomingContext` and `peer.FromContext`. Call metadata is an already-extracted map and the peer address is optional.
- The `json.Unmarshal` of the ACL in `StartMyMicroservice` (7/service.go:125-163) is not modelled; the ACL is given as a map.
- Concurrency and timing are outside the model: goroutines, the mutex, blocking channel sends, the ticker's period and context cancellation. `Logging` and `Statistics` are split into their steps (open, one receive or tick, close).
- Two concurrency defects are not modelled: the mutex stays locked when `Send` fails in `Statistics` (7/service.go:110-113), and `break` leaves only the `select` (7/service.go:102-107).
- Service.Admin.Broadcast: requires every sink to be below its capacity of 20. The Go send would block there, holding the mutex. Service.Admin.UnaryIntercept and Service.Admin.StreamIntercept require this only when a peer and a consumer are present, the case in which they broadcast.
- Service.Admin.StreamIntercept: the wrapped stream handler is a flag (`invoked`); its own effect on the registries (Logging and Statistics) is modelled by the separate open, tick and close methods.
- Service.Admin.Tick: requires the consumer's window to exist. In Go, a tick after the window was deleted would send nil.
- Service.Admin.OpenStatistics: requires the interval to be below 2^64, the range of the uint64 `IntervalSeconds` field of the request message; `Service.TickerPeriod` has the same bound.
- Strings: a Go string is modelled as a sequence of Unicode scalar values (`seq<char>`), with `len` as its UTF-8 byte length. Byte strings that are not valid UTF-8, such as a URL-decoded `%FF` in a parameter, cannot be represented.
- Service.Bump: counters are unbounded `nat`; the `uint64` wrap-around after 2^64 calls is not modelled.
- A second Logging or Statistics stream of the same consumer replaces the first one's sink or window (7/service.go:66, 93-94). The stream interceptor runs the handler before it calls authenticateRole (7/service.go:183-199). The model follows both.
- Service.Admin.NextEvent, Service.Admin.CloseLogging, Service.Admin.CloseStatistics: the ends of the streams are separate methods; when the context ends is not modelled.
- Service.Admin.CountCall, Codegen.ParseFields, Codegen.RegisterReceivers, FastSearch.ScanBrowsers, DbExplorer.ColumnValue: these are the bodies of inner loops that the Go code writes inline, made into methods of their own.
- SQL execution is not modelled. `AddRow`, `UpdateRow`, `DeleteRow`, `GetRow` and `GetTable` return the query text and arguments that would be executed, and stop before `db.Exec`/`db.Query`. The 500 answers of a failed execution, `LastInsertId`, `RowsAffected` and the reading of rows (`getRows`, `handleNullable`) are left out.
- Reflection and JSON decoding of request bodies are not modelled. A body is an already-decoded map or a parse failure. JSON values carry only their kind, and numbers are kept as their literal text.
- `getTablesList`, `getTablesStructures` and `seed` in 6/db_explorer.go read the database and are left out. The table structures are a given map.
- DbExplorer.FindPrimaryKey: under the `WellFormed` condition (every column's map key is its non-empty name, as `getTablesStructures` builds it), `""` means no PRI column. The contract does not claim this for maps built otherwise.
- HTTP writing is not modelled: `json.Marshal`, `w.WriteHeader` and `w.Write`. When no route matches, `rootHandler` keeps a zero-valued `Response` and calls `w.WriteHeader(0)` (6/db_explorer.go:499). net/http rejects a status below 100 with a panic, so such a request ends in a panic. The model reports this case as `NoRoute`.
- Body reading (`io.ReadAll`) and `url.ParseQuery` are not modelled. A request body is a parsed form or an error with its message. Header keys are assumed to be already canonicalised, as `http.Header.Get` expects.
- The business methods `MyApi.Create`, `MyApi.Profile`, `OtherApi.Create` are not part of this model, and neither is how their errors are mapped. The wrappers stop at the validated parameters.
- The Go syntax tree (`go/parser`, `go/ast`, `types.ExprString`) is modelled only by the shapes the scan inspects: declarations, specs, fields, receivers.
- The annotation's JSON decoding (`ApiShape.UnmarshalJSON`) is a parameter of `ParseMethods`.
- Template rendering, file output and the `main` of the generator are left out.
- Token without `=` (5/handlers_gen/codegen.go:370-371): modelled as a panic of the parse, not as a precondition.
- The easyjson decoder, reading the users file and the `panic` on I/O errors in 3/fast.go are left out. Lines arrive already decoded or marked undecodable. The decoder's reuse of one `user` variable across lines (fields a line omits keep the previous user's values) is not modelled.
- 1/main.go (directory tree printing), 2/signer.go (a goroutine pipeline around external hash functions) and 4/client_test.go (tests of a client) are not part of this model.
