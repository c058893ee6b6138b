# loony-rs http-server: request dispatch, modelled in Dafny

This project models the request-dispatch core of the `loony` web framework.
It is written as immutable datatypes and pure functions, with proofs of what
each operation promises. It covers:

- **Path routers (`loony-router`).** The segment tree of `radix.rs`, whose
  lookup falls back to a shorter prefix, and the strict tree of `router.rs`
  share one insertion (`SegmentTree.AddToNode`). Their lookup (`FindInNode`)
  takes a flag choosing between the two.
- **Template matcher (`loony-router/src/main.rs`).** Each regex is modelled
  as a list of literal and capture parts.
- **Status codes, responses and rendering (`response.rs`).** `build()` is
  modelled with the header map's iteration order as a parameter.
- **Responders (`responder.rs`).** The closed table that turns a handler's
  return value into a response.
- **The request pipeline.** Path and request extraction (`extract.rs`), the
  arity adapters and handler stage (`handler.rs`), and the route builders and
  forwarding layers (`route.rs`).
- **Registration.** Resources, scopes, the one-shot wrapper, the server's
  `Router`, the `App` builder, and the route table that
  `AppFactory::new_service` builds (last writer wins).
- **The server's dispatch decisions (`server.rs`).** Initialising the route
  table, exact-key lookup of the request URI, 400 on a miss, 500 when the
  service fails. Also the error types and their display texts (`error.rs`).

Modules follow the source files:

| module | source |
|---|---|
| `Paths` | splitting, filtering and trimming on `/` |
| `SegmentTree`, `RadixRouter`, `StrictRouter`, `RouterComparison` | `radix.rs`, `router.rs` |
| `TemplateMatcher`, `TemplateDemo` | `main.rs` |
| `Numbers` | Rust's `i32` parse, `to_string`, UTF-8 `len` |
| `Status`, `Response` | `response.rs` |
| `Responder` | `responder.rs` |
| `Extract`, `Handler`, `Route` | `extract.rs`, `handler.rs`, `route.rs` |
| `Resource`, `Scope`, `Service`, `Router`, `App`, `AppService` | the registration files |
| `Errors` | `error.rs` |
| `Server` | `server.rs` |

Two points of the dispatch are easy to misread:

- **A miss is a 400.** `loony-server/src/server.rs:130-134` looks the URI up
  as an exact key of the route map and answers a miss with 400 Bad Request;
  no template matching happens. So a parameterised route name such as
  `/user/get/:user_id` is never reached by `/user/get/42`
  (`Server.TemplateIsNotMatched`).
- **Extraction inputs are preconditions.** `loony-server/src/extract.rs:79`
  unwraps the URI, `extract.rs:106` and `extract.rs:127` unwrap the state,
  and `extract.rs:145` slices `segments[2..]`. A request without these stops
  the server rather than producing an error response, so the model states
  them as preconditions (`Extract.CanExtract`, `Server.Servable`).

Conventions:

- A panic at build time is a `Result` failure (`SegmentTree.BuildError`).
- The user's handler function and the application closure are function
  values passed in as parameters.
- The state registry (`Extensions`) is a map from a type's name to a
  stand-in value.
- A service's response is the `Response.HttpResponse` record. The source
  carries the text `build()` renders from it; `Response.Build` gives that
  text, for any iteration order of the headers.

## Model

| member | source | states |
|---|---|---|
| Paths.Split | loony-router/src/radix.rs:24 | splitting on `/` gives at least one piece, none of which contains `/` |
| Paths.NonEmpty | loony-router/src/radix.rs:24 | the filter keeps only non-empty pieces, each taken from the input, never more than there were |
| Paths.Trim | loony-router/src/main.rs:24 | the trimmed text neither starts nor ends with `/` |
| Paths.TrimCutsOuterSlashes | loony-router/src/main.rs:24 | the result is a slice of the input with only slashes cut, from its two ends, and neither starts nor ends with `/` |
| Paths.TrimWrap | loony-router/src/main.rs:24 | extra slashes around a template make no difference to trimming |
| Paths.SegmentsTrim | loony-router/src/main.rs:24 | trimming the outer slashes does not change a path's segments |
| Paths.JoinSplit | loony-router/src/main.rs:26-40 | joining the pieces of a split with `/` gives back the text |
| Paths.SplitJoin | loony-router/src/main.rs:26-40 | splitting slash-free pieces joined with `/` gives back the pieces |
| Paths.SegmentsAreProper | loony-router/src/radix.rs:24 | every segment of a path is non-empty and slash-free |
| Paths.SegmentsOfPathOf | loony-router/src/radix.rs:63 | the segments of the canonical spelling `/s1/.../sn` are `s1 ... sn`, and `/` has none |
| Paths.EmptyPiecesDropped | loony-router/src/radix.rs:24 | `""`, `/` and `//` all address the root, and `/a//b/` has the segments of `/a/b` |
| SegmentTree.ParseSegment | loony-router/src/radix.rs:37-39 | a segment is a parameter exactly when it starts with `:`; the name drops exactly one `:`, so rendering gives the segment back |
| SegmentTree.AddToNodeAt | loony-router/src/radix.rs:28-60 | a successful insertion stores the payload under the template's key, overwriting an earlier one, and leaves every other key's payload as it was |
| SegmentTree.AddAllAt | loony-router/src/radix.rs:23-32 | in a tree built from a route list, each key holds the payload of the last route registered under it |
| SegmentTree.AddAllRegistered | loony-router/src/radix.rs:23-60 | a built tree holds a payload under exactly the keys of the registered templates |
| SegmentTree.AddFailsIffConflict | loony-router/src/radix.rs:37-49 | insertion fails exactly when a parameter segment meets an existing parameter child with a different name |
| SegmentTree.AddAllNamesAvoid | loony-router/src/radix.rs:37-49 | templates that each repeat no parameter name build a tree that repeats none along any path |
| SegmentTree.FindInNode | loony-router/src/radix.rs:68-98 | in fallback mode a node with a payload always answers |
| SegmentTree.FindMissRestores | loony-router/src/router.rs:86-93 | with no name repeated along the explored paths, a miss returns the parameter map as it was on entry |
| SegmentTree.FindSound | loony-router/src/router.rs:67-96 | a found payload is stored under a key matching the path (all of it in strict mode); with no repeated names, the parameters are exactly that key's bindings |
| SegmentTree.FindComplete | loony-router/src/router.rs:79-93 | a stored key matching the path (all of it in strict mode) is always found, whatever the incoming bindings |
| SegmentTree.FindSomeIff | loony-router/src/router.rs:67-96 | lookup succeeds exactly when some stored key matches the path (all of it in strict mode) |
| RadixRouter.New | loony-router/src/radix.rs:18-20 | a new router stores nothing under any key |
| RadixRouter.FindRoute | loony-router/src/radix.rs:62-97 | once the root holds an index, lookup never answers None |
| RadixRouter.FindRouteSound | loony-router/src/radix.rs:68-98 | a returned index is stored under a key matching a prefix of the path, and the parameters are that key's bindings when names do not repeat |
| RadixRouter.FindRouteComplete | loony-router/src/radix.rs:81-97 | any stored key matching a prefix of the path makes lookup succeed |
| RadixRouter.FindRouteIgnoresEmptyPieces | loony-router/src/radix.rs:62-63 | `""`, `/` and `//` look up alike, and so do `/a//b/` and `/a/b` |
| RadixRouter.FallbackToShorterTemplate | loony-router/src/radix.rs:97 | with `/user/:id` registered, `/user/42/extra` resolves to it with `id = 42` |
| RadixRouter.StaticBeatsParameter | loony-router/src/radix.rs:81-95 | with `/user/:id` and `/user/all` registered, `/user/all` reaches the literal route with no parameters |
| StrictRouter.FindRoute | loony-router/src/router.rs:61-65 | a strict hit implies the fallback walk also finds some route; the two answers can differ (`RouterComparison.FallbackSeparatesRouters`) |
| StrictRouter.RootTemplate | loony-router/src/router.rs:22-31 | an empty or `/` template puts the handler on the root and changes nothing else |
| StrictRouter.FindRouteSound | loony-router/src/router.rs:67-96 | a returned handler is stored under a key as long as the path that matches it segment for segment; with no repeated names each parameter is bound to the segment at its position |
| StrictRouter.FindRouteComplete | loony-router/src/router.rs:79-93 | a stored key matching the path segment for segment makes lookup succeed |
| StrictRouter.FindRouteRegistered | loony-router/src/router.rs:22-96 | for a built router, lookup succeeds exactly when some registered template matches the path segment for segment |
| StrictRouter.BuildDemo | loony-router/src/bin/main.rs:8-12 | the demo routes build without conflict into the expected tree |
| StrictRouter.DemoUnknown | loony-router/src/bin/main.rs:14-19 | `/unknown` finds nothing |
| StrictRouter.DemoShortPaths | loony-router/src/bin/main.rs:14-18 | `/`, `/user` and `/user/42` reach their own handlers, the last with `id = 42` |
| StrictRouter.DemoTwoParameters | loony-router/src/bin/main.rs:14-18 | `/user/231/get/sankar` binds `id = 231` and `username = sankar` |
| StrictRouter.RepeatedNameLosesBinding | loony-router/src/router.rs:86-93 | rollback removes a name instead of restoring it, so a repeated name along a route loses the outer binding |
| RouterComparison.FallbackSeparatesRouters | loony-router/src/radix.rs:81-97 | with `/a/b` and `/a/:x/c`, the path `/a/b/c` gives `/a/b` in the fallback router but `/a/:x/c` with `x = b` in the strict one |
| RouterComparison.StrictImpliesFallback | loony-router/src/router.rs:67-96 | whenever the strict router finds a handler, the fallback router finds one too |
| RouterComparison.SegmentReadings | loony-router/src/main.rs:27-36 | a template segment and its compiled part accept the same non-empty slash-free path segments |
| RouterComparison.TemplateAgrees | loony-router/src/main.rs:14-43 | for a well-formed template and a proper path, the tree key matches segment for segment exactly when the compiled pattern matches |
| RouterComparison.StrictAgreesWithTemplates | loony-router/src/main.rs:64-78 | on paths of non-empty segments, the strict router finds a handler exactly when the template matcher finds a match |
| TemplateMatcher.TrimSigils | loony-router/src/main.rs:29 | every leading `:` is removed and nothing else |
| TemplateMatcher.CompileSegment | loony-router/src/main.rs:27-36 | a segment is a capture exactly when it starts with `:` (named without its sigils); otherwise a literal of itself |
| TemplateMatcher.CompileSegments | loony-router/src/main.rs:26-37 | one part per segment, each compiled on its own, with capture names in order |
| TemplateMatcher.TemplateToRegex | loony-router/src/main.rs:14-43 | at least one part, no literal part contains `/`, and the names are the captures in order |
| TemplateMatcher.CompileRoute | loony-router/src/main.rs:49-57 | the route keeps its original template, with names aligned to its captures |
| TemplateMatcher.BuildRoutes | loony-router/src/main.rs:46-60 | one compiled route per template, in the input order |
| TemplateMatcher.TemplateIgnoresOuterSlashes | loony-router/src/main.rs:24 | slashes around a template do not change its pattern |
| TemplateMatcher.TemplateOfPath | loony-router/src/main.rs:24-37 | a template spelled `/s1/.../sn` compiles segment by segment |
| TemplateMatcher.MatchesPatternIff | loony-router/src/main.rs:31-41 | an anchored pattern matches a path exactly when the path is `/` followed by pieces joined with `/`, each matching its part |
| TemplateMatcher.RootTemplateMatchesOnlyRoot | loony-router/src/main.rs:16-18 | the template `/` matches the path `/` and nothing else, with no names |
| TemplateMatcher.CapturesBound | loony-router/src/main.rs:67-73 | the parameters are the captured names, each bound to the piece at its position when names are distinct |
| TemplateMatcher.BuiltRoutesAligned | loony-router/src/main.rs:50-57 | built routes keep each pattern's capture names beside it |
| TemplateMatcher.MatchPathFirst | loony-router/src/main.rs:64-78 | None exactly when no route matches; otherwise the earliest matching route's template, with its captures |
| TemplateDemo.BuildDemoRoutes | loony-router/src/main.rs:84-91 | the demo templates compile, in order, to the expected routes |
| TemplateDemo.DemoMatchesCapture | loony-router/src/main.rs:94-96 | `/user/get/all` matches `/user/get/:user_id` with `user_id = all` |
| TemplateDemo.DemoAnchored | loony-router/src/main.rs:99-100 | `/user/get`, `/user/get/42/extra/segment` and `/user/all/` match none of the demo templates |
| Numbers.ParseI32 | loony-server/src/extract.rs:21 | a parsed value lies in the `i32` range |
| Numbers.ParseI32OfIntToString | loony-server/src/extract.rs:21 | printing an `i32` and parsing it back gives the number |
| Numbers.ParseI32Accepts | loony-server/src/extract.rs:21 | plain, signed, `+`-prefixed and zero-padded numbers parse |
| Numbers.ParseI32OutOfRange | loony-server/src/extract.rs:21 | a well-formed number outside the `i32` range is refused |
| Numbers.ParseI32Refuses | loony-server/src/extract.rs:21 | letters, the empty text, a bare sign and trailing garbage are refused |
| Numbers.NatToString | loony-server/src/response.rs:457 | the shortest decimal spelling: digits only, no leading zero, reading back as the number |
| Numbers.Utf8Len | loony-server/src/response.rs:457 | the UTF-8 byte length lies between the number of characters and four times it, and equals it for ASCII |
| Status.VersionText | loony-server/src/response.rs:20-29 | every version displays as `HTTP/` and more |
| Status.VersionTextInjective | loony-server/src/response.rs:20-29 | distinct versions display differently |
| Status.Code | loony-server/src/response.rs:338-340 | a status's code is a listed three-digit code |
| Status.FromU16 | loony-server/src/response.rs:259-335 | succeeds exactly on the listed codes, with the status of that code; otherwise the error carries the code |
| Status.FromU16OfCode | loony-server/src/response.rs:259-340 | converting a status's code back gives the status |
| Status.IntoStatusCode | loony-server/src/response.rs:42-46 | a listed code gives its status; any other gives 500 |
| Status.ExactlyOneClass | loony-server/src/response.rs:229-251 | every status is in exactly one of the five classes |
| Status.ErrorIffAtLeast400 | loony-server/src/response.rs:254-256 | the error statuses are exactly those from 400 on |
| Status.ReasonPhrase | loony-server/src/response.rs:151-226 | every listed status has a reason phrase, non-empty and starting with a capital letter |
| Status.DisplayShape | loony-server/src/response.rs:343-347 | the display is three digits spelling the code, a space, and the reason phrase |
| Status.DisplayLeadingDigit | loony-server/src/response.rs:343-347 | the display starts with the code's hundreds digit |
| Status.DisplayNamesClass | loony-server/src/response.rs:229-251 | the first character of the display names the status's class |
| Status.DisplayParsesBack | loony-server/src/response.rs:343-347 | parsing the display's first three characters gives the code |
| Status.DisplayInjective | loony-server/src/response.rs:343-347 | different statuses display differently |
| Status.DisplayOk | loony-server/src/response.rs:151-226 | 200 displays as `200 OK` |
| Status.DisplayNotFound | loony-server/src/response.rs:151-226 | 404 displays as `404 Not Found` |
| Status.DisplayBadRequest | loony-server/src/response.rs:151-226 | 400 displays as `400 Bad Request` |
| Status.DisplayInternalServerError | loony-server/src/response.rs:151-226 | 500 displays as `500 Internal Server Error` |
| Status.DisplayNoContent | loony-server/src/response.rs:151-226 | 204 displays as `204 No Content` |
| Status.InvalidText | loony-server/src/response.rs:367-371 | the error text is a fixed label followed by the code, which parses back |
| Response.New | loony-server/src/response.rs:416-423 | HTTP/1.1, 200, no headers, no body |
| Response.WithVersion | loony-server/src/response.rs:425-428 | only the version changes |
| Response.WithStatus | loony-server/src/response.rs:430-447 | only the status changes |
| Response.WithHeader | loony-server/src/response.rs:435-452 | the key now maps to the value, overwriting any earlier one; every other header and field is as it was |
| Response.WithContentType | loony-server/src/response.rs:481-484 | only `Content-Type` is set; every other header, the version, the status and the body stay |
| Response.LengthText | loony-server/src/response.rs:488 | the `Content-Length` value is all digits and reads back as the body's UTF-8 byte length |
| Response.WithBody | loony-server/src/response.rs:486-491 | the body is set and `Content-Length` states its byte length; version and status stay |
| Response.FromBody | loony-server/src/response.rs:454-465 | a 200 HTTP/1.1 response with the body and `Content-Length` as its only header |
| Response.FromBodyIsNewWithBody | loony-server/src/response.rs:454-491 | `with_body(b)` is the same response as `new().body(b)` |
| Response.WithHtml | loony-server/src/response.rs:560-562 | HTML content type, the body, and its byte length; status, version and every other header stay |
| Response.WithText | loony-server/src/response.rs:564-566 | plain-text content type, the body, and its byte length; status, version and every other header stay |
| Response.NoContent | loony-server/src/response.rs:540-544 | 204, no body, and `Content-Length: 0` as the only header |
| Response.WithOnlyStatus | loony-server/src/response.rs:547-557 | the canned error responses are `new()` with only the status changed |
| Response.HeaderSectionTerminated | loony-server/src/response.rs:509-513 | the header block is one CRLF-terminated line per header, and empty without headers |
| Response.BuildShape | loony-server/src/response.rs:501-521 | the message is the status line, CRLF, one terminated line per header, then a blank line and the body only when there is a body |
| Response.HeaderRendered | loony-server/src/response.rs:504-513 | every header appears as a line of its own, whatever the iteration order |
| Response.BuildLengthIndependentOfOrder | loony-server/src/response.rs:504-513 | the message's length does not depend on the iteration order |
| Response.BuildBare | loony-server/src/response.rs:509-520 | without headers and body the message is the status line and CRLF, with no blank line |
| Response.BuildEndsWithBody | loony-server/src/response.rs:515-520 | a message with a body ends with CRLF and the body |
| Response.BuildNew | loony-server/src/response.rs:501-521 | `new().build()` is `HTTP/1.1 200 OK` and CRLF |
| Response.BuildBadRequest | loony-server/src/response.rs:547-549 | `bad_request().build()` is `HTTP/1.1 400 Bad Request` and CRLF |
| Response.BuildInternalServerError | loony-server/src/response.rs:555-557 | `internal_server_error().build()` is `HTTP/1.1 500 Internal Server Error` and CRLF |
| Response.BuildNoContent | loony-server/src/response.rs:540-544 | `no_content().build()` is the 204 status line and one `Content-Length: 0` line, with no blank line |
| Responder.RespondPlain | loony-server/src/responder.rs:15-28 | a text answers 200 with the text as body and its byte length as the only header |
| Responder.RespondFallible | loony-server/src/responder.rs:38-50 | `Ok(s)` answers like the text `s`; `Err(e)` answers 500 with `e`'s text as body and its length |
| Responder.RespondPrebuilt | loony-server/src/responder.rs:57-59 | a response value passes through unchanged |
| Responder.RespondStatusWith | loony-server/src/responder.rs:135-140 | the given status, the body, and its length as the only header |
| Responder.RespondStatusHeadersWith | loony-server/src/responder.rs:151-158 | the caller's headers plus `Content-Length`, each caller header with the caller's value; the length is honest when the caller gave none |
| Responder.CallerLengthWins | loony-server/src/responder.rs:151-158 | a caller-supplied `Content-Length` replaces the computed one |
| Responder.RespondNothing | loony-server/src/responder.rs:165-168 | `()` is `new()` and renders exactly `HTTP/1.1 200 OK` and CRLF |
| Responder.RespondRedirect | loony-server/src/responder.rs:177-184 | 302 with only `Location`, a readable body, and no `Content-Length` |
| Responder.RespondPages | loony-server/src/responder.rs:196-216 | `Html` and `Text`: 200, their content type, the body and its length |
| Responder.RespondLengthHonest | loony-server/src/responder.rs:15-216 | every responder that computes its own headers states the body's true byte length |
| Extract.FromSegmentsSpec | loony-server/src/extract.rs:18-54 | path parsing succeeds exactly when there are enough segments and every `i32` position parses; the value then reads each component from its segment |
| Extract.FromSegmentsRender | loony-server/src/extract.rs:18-54 | printing a value's components and parsing them back gives the value, extra segments ignored |
| Extract.LoneNumberRefused | loony-server/src/extract.rs:18-24 | a lone number is refused, since `i32` asks for two segments |
| Extract.FromRequestIgnoringPath | loony-server/src/extract.rs:61-131 | extractors that do not read the path never fail; their texts are empty except the URI, and the state is the registered value |
| Extract.FromRequestPath | loony-server/src/extract.rs:133-150 | `(Data, Path<P>)` succeeds exactly when P reads from the segments after the first two, and then carries the state and that value |
| Extract.FromRequestPathRender | loony-server/src/extract.rs:133-150 | a URI of two fixed segments followed by a value's spelling extracts that value |
| Extract.UserGet42RefusesI32 | loony-server/src/extract.rs:140-149 | `Path<i32>` on `/user/get/42` always fails |
| Extract.NewService | loony-server/src/extract.rs:182-188 | building always succeeds and keeps the extractor and inner service |
| Extract.CallSpec | loony-server/src/extract.rs:239-260 | a failed extraction answers the bare error without consulting the inner service; otherwise the inner service's answer to the tuple and the same request |
| Handler.ApplyPositional | loony-server/src/handler.rs:17-48 | the adapters pass the tuple's components positionally, for 0, 1 and 2 arguments |
| Handler.New | loony-server/src/handler.rs:66-72 | the handler holds the function |
| Handler.Clone | loony-server/src/handler.rs:74-86 | a clone holds the same function |
| Handler.CallSpec | loony-server/src/handler.rs:99-104 | the handler stage never fails, answers the function's value through its responder, and ignores the request |
| Handler.ServeFitting | loony-server/src/handler.rs:148-166 | behind a fitting extractor, the only failure is failed extraction; otherwise the function's value on the tuple, through its responder |
| Route.New | loony-server/src/route.rs:57-69 | the path, GET, and the default handler |
| Route.To | loony-server/src/route.rs:71-82 | only the service changes, to the extractor in front of the function |
| Route.WithMethod | loony-server/src/route.rs:84-87 | only the method changes |
| Route.Get | loony-server/src/route.rs:295-305 | a fresh GET route on the path |
| Route.Post | loony-server/src/route.rs:295-305 | a fresh POST route on the path |
| Route.MakeFut | loony-server/src/route.rs:232-242 | a build error stays an error; a built service is boxed unchanged |
| Route.RouteFuture | loony-server/src/route.rs:157-166 | the same for the outer layer |
| Route.WrapperNewService | loony-server/src/route.rs:208-211 | building wraps the extractor around the handler and never fails |
| Route.NewService | loony-server/src/route.rs:142-145 | building a route never fails and keeps the built service |
| Route.CallForwards | loony-server/src/route.rs:128-130 | a built route answers every request exactly as its extract service does |
| Route.CallAnswers | loony-server/src/route.rs:269-292 | a route answers the bare error exactly when extraction fails, and otherwise its function's value through the responder |
| Route.DefaultAnswersEmpty | loony-server/src/route.rs:311-313 | a fresh route answers every request with the empty text's response |
| Route.AddService | loony-server/src/route.rs:106-120 | registrations are appended in order |
| Route.Register | loony-server/src/route.rs:90-95 | exactly one more service, named by the route's own path with no prefix |
| Resource.New | loony-server/src/resource.rs:27-32 | the prefix and a fresh route on the empty path |
| Resource.WithRoute | loony-server/src/resource.rs:34-37 | the route is replaced and the prefix kept |
| Resource.NewService | loony-server/src/resource.rs:49-57 | the service is named by the prefix followed by the route's path |
| Resource.Register | loony-server/src/resource.rs:61-65 | exactly one more service, the one `new_service` builds |
| Resource.RegisterLikeRoute | loony-server/src/resource.rs:49-65 | a resource registers what its route would, with the prefix in front of the name |
| Resource.EmptyScopeIsRoute | loony-server/src/resource.rs:49-65 | with the empty prefix, a resource registers exactly what its route does |
| Scope.New | loony-server/src/scope.rs:27-32 | the prefix and no resources |
| Scope.WithRoute | loony-server/src/scope.rs:34-37 | one more resource at the end, carrying the scope's prefix; earlier ones stay |
| Scope.RegisterAllSpec | loony-server/src/scope.rs:40-44 | each resource's service is appended, in insertion order |
| Scope.RegisterNames | loony-server/src/scope.rs:40-44 | one service per route, in order, named by the prefix followed by the route's path |
| Service.NewWrapper | loony-server/src/service.rs:35-39 | the wrapper holds the scope |
| Service.WrapperRegister | loony-server/src/service.rs:46-50 | the first call registers the scope and empties the wrapper; an empty wrapper registers nothing |
| Service.WrapperRegisterOnce | loony-server/src/service.rs:46-50 | registering a second time changes nothing |
| Service.RegisterEntryAppends | loony-server/src/service.rs:46-50 | registering an entry only appends: one service for a route or resource, one per resource of a wrapped scope the first time, none after |
| Router.New | loony-server/src/router.rs:9-13 | no entries |
| Router.WithRoute | loony-server/src/router.rs:15-18 | one route entry at the end; earlier entries stay in place |
| Router.WithService | loony-server/src/router.rs:21-27 | one wrapped scope at the end; earlier entries stay in place |
| App.New | loony-server/src/app.rs:19-24 | no state and no entries |
| App.Data | loony-server/src/app.rs:31-34 | the value is stored for its type, replacing an earlier one; other state and the entries stay |
| App.AppData | loony-server/src/app.rs:26-29 | `app_data` behaves exactly as `data` |
| App.WithRoute | loony-server/src/app.rs:36-40 | one route entry at the end; the state stays |
| App.Configure | loony-server/src/app.rs:42-47 | the collected entries follow the existing ones, in order |
| App.Routes | loony-server/src/app.rs:49-53 | the router's entries follow the existing ones, in order |
| App.IntoFactory | loony-server/src/app.rs:56-62 | the entries in the same order, and the state made available once |
| AppService.RegisterAllAppends | loony-server/src/app_service.rs:32-36 | registering the entries keeps what was there and only appends |
| AppService.RegisterRoutes | loony-server/src/app_service.rs:32-36 | routes alone register one service each, in order, named by their paths |
| AppService.TableKeys | loony-server/src/app_service.rs:38-42 | the table's keys are exactly the registered names |
| AppService.TableLast | loony-server/src/app_service.rs:38-42 | each name leads to the last registration carrying it |
| AppService.LastWriterWins | loony-server/src/app_service.rs:38-42 | a later registration replaces the entry for its name and changes no other |
| AppService.RoutesNamed | loony-server/src/app_service.rs:32-42 | with routes alone, a name is registered exactly when some route has it as its path |
| AppService.NewService | loony-server/src/app_service.rs:32-52 | building always succeeds, empties the factory, tables the registrations, and takes the state (an empty registry if already taken) |
| AppService.NewServiceTwice | loony-server/src/app_service.rs:32-52 | a second build gives an empty table and an empty registry |
| AppService.NewServiceRoutes | loony-server/src/app_service.rs:32-52 | an application of routes alone builds a table keyed by exactly the routes' paths |
| AppService.Call | loony-server/src/app_service.rs:69-71 | the application service's own call always succeeds |
| Errors.InitFailure | loony-server/src/error.rs:188-192 | an initialisation failure carrying the message |
| Errors.FromMessage | loony-server/src/error.rs:167-179 | both conversions from a message give a configuration error carrying it |
| Errors.FromSource | loony-server/src/error.rs:161-165 | a boxed error becomes a service execution error |
| Errors.OperationTimeout | loony-server/src/error.rs:194-198 | a timeout error carrying the operation |
| Errors.MissingResource | loony-server/src/error.rs:200-204 | a not-found error carrying the resource |
| Errors.Internal | loony-server/src/error.rs:208-212 | an internal handler error carrying the source |
| Errors.MissingRoute | loony-server/src/error.rs:214-218 | a route-not-found error carrying the route |
| Errors.Overflow | loony-server/src/error.rs:222-227 | a buffer overflow keeping both sizes |
| Errors.BadHeaders | loony-server/src/error.rs:229-233 | a malformed-headers error carrying the reason |
| Errors.RouteNotFoundReadsBack | loony-server/src/error.rs:113-116 | the route is read back from after the fixed label |
| Errors.InitFailureReadsBack | loony-server/src/error.rs:4-8 | the message is read back from after the fixed label |
| Errors.FromMessageReadsBack | loony-server/src/error.rs:37-40 | the message is read back from after the configuration label |
| Errors.MissingResourceReadsBack | loony-server/src/error.rs:45-48 | the resource is read back from after the fixed label |
| Errors.OperationTimeoutReadsBack | loony-server/src/error.rs:41-44 | the operation sits between the fixed label and the fixed tail |
| Errors.MissingUriText | loony-server/src/error.rs:28-32 | a missing URI reads `Handler error: Missing URI in request` |
| Errors.OverflowTextInjective | loony-server/src/error.rs:94-98 | an overflow message determines both numbers it was made from |
| Server.DefaultConfig | loony-server/src/server.rs:172-180 | port 3005, 1000 connections, 30 s read and write timeouts |
| Server.New | loony-server/src/server.rs:28-37 | the closure, no routes, no state, the default settings |
| Server.WithConfig | loony-server/src/server.rs:40-43 | only the settings change |
| Server.Adopt | loony-server/src/server.rs:53-62 | a built service hands over its table and state; a failed build leaves the server unchanged and reports an initialisation failure |
| Server.AdoptFailureText | loony-server/src/server.rs:59-61 | the failure reads `Failed to initialize app services.` after the initialisation label |
| Server.InitializeServices | loony-server/src/server.rs:46-63 | never fails; the table holds the application's registrations by name, and the state is the application's |
| Server.InitializedRoutes | loony-server/src/server.rs:46-57 | an application of routes alone gives a table keyed by exactly the routes' paths |
| Server.ServiceRequestOf | loony-server/src/server.rs:143-146 | the service sees the parsed request and the server's state |
| Server.ExecuteService | loony-server/src/server.rs:138-159 | never fails; the service's response is the answer, and its error becomes a bare 500 |
| Server.HandleRequestFails | loony-server/src/server.rs:123-135 | the only error is a missing URI, and it reads as such |
| Server.UnroutedAnswers400 | loony-server/src/server.rs:130-134 | a URI that is not a key renders as `HTTP/1.1 400 Bad Request` and CRLF |
| Server.RoutedAnswers | loony-server/src/server.rs:130-159 | a key's service response is the answer; its error renders as `HTTP/1.1 500 Internal Server Error` and CRLF |
| Server.OneRouteTable | loony-server/src/server.rs:46-57 | a one-route application's table has that path alone, mapped to its extractor and handler |
| Server.OneRouteServes | loony-server/src/server.rs:123-159 | end to end, the one-route application answers its path with the handler's value through its responder |
| Server.OneRouteOtherPath | loony-server/src/server.rs:130 | any other URI gets the bare 400, however alike |
| Server.TemplateIsNotMatched | loony-server/src/server.rs:130 | `/user/get/42` does not reach a route named `/user/get/:user_id` |

## Left out

- **Network and process.** These are I/O:
  - sockets and the connection type (loony-server/src/connection.rs);
  - `run`, `handle_connection` and `parse_request`;
  - the `httparse` wrapper (loony-server/src/request.rs);
  - the Postgres pool and bootstrap (src/).

  A request reaches the model already parsed, and only its URI is modelled.
- **Futures, `Pin`, `block_on`, `Rc`/`RefCell` and boxed trait objects.**
  Every extractor, handler and responder future here is ready at once, so
  each stage is a plain function.
- **JSON responses (`with_json`, `json`, `json_body`) and the byte-slice
  responders.** They depend on `serde_json` and `from_utf8_lossy`, which are
  foreign code.
- **The state registry.** The `Extensions` type map is not part of this
  model. It is a map from a type's name to a stand-in value, and its
  `unwrap` is a precondition (`Extract.CanExtract`).
- **Configuration closures.** `ServiceConfig` and the closure `configure`
  receives are application code. What the closure collects is a parameter of
  `App.Configure`.
- **Header iteration order.** A `HashMap`'s iteration order is a parameter
  (`order`) of `Response.Build`. The rendered-text lemmas for the canned
  responses use the only order a header-less response has.
- **The stale test at loony-server/src/route.rs:327-344.** It expects the
  raw text from the String responder, which renders a full message.
- **`RouteServices::new` and `into_services`.** They are plain sequences of
  registrations.
- **StatusCode.** It is modelled by its numeric discriminant, a subset of
  the integers; the variants are constants.
- Status.ReasonPhrase: the contract states only that each phrase is
  non-empty and starts with a capital letter. The phrases themselves are the
  table in its body (section 15 of RFC 9110), pinned for the common codes by
  the `Status.Display…` lemmas. A per-character property over all 62
  phrases was too costly to prove.
- Handler.Serve: answers a tuple of the wrong width with the bare error. The
  source's types make that branch unreachable, and `Handler.ServeFitting`
  shows it unused.
- SegmentTree.FindSound: the parameter bindings are stated only when no
  parameter name repeats along a route. Rollback removes a name rather than
  restoring it (`StrictRouter.RepeatedNameLosesBinding`), so with repeats
  the map is not the key's bindings.
- RouterComparison.StrictAgreesWithTemplates: holds for templates whose
  split on `/` gives no empty piece, and for paths of non-empty segments.
  Elsewhere the regex and the tree read empty pieces differently.
- Server.Servable: a selected service whose extractor lacks the URI, the
  state or two segments panics in the source. The model makes this a
  precondition of `HandleRequest` rather than an outcome.
- Numbers.Utf8Len: the body is a sequence of Unicode scalar values. Invalid
  UTF-8 cannot occur in a Rust `String`.
