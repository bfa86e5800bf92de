# Proofs about the rp server

A Dafny model of the parts of the server that carry its logic, and proofs about it:

- **The router.** `finalize` compiles the table of routes into a graph of static and dynamic
  nodes linked by tagged 32-bit words, and into two parallel arrays of endpoints;
  `handle_request` walks a URI through that graph and scans one group of endpoints. The graph
  is proved to be a tree with one node for each prefix of a registered path, and the router
  is proved against the table itself.
- **The connection life cycle** on one single-threaded event loop, as a step system over
  pending operations that end in any order, and the parser's callbacks that assemble a request.
- **Sessions.** A byte-level key/value store with hand-written records, the service over it
  with every way a query or a command can fail, and the cookie that carries the session id
  from login to logout.
- **The whole site.** A request, however it is cut into reads, is assembled, routed through
  the shipped table, answered by its endpoint and written out; sessions are followed over
  whole runs of requests.
- **Traffic.** Many connections at once, with the site behind them: each connection is sent
  the reply to its own request.
- **Response framing** and the **tag filter** of the test harness.

## How it is put together

| modules | what they hold |
|---|---|
| `Text`, `Bytes` | splitting on `/`, `strcmp`; buffers read as C strings |
| `RouteTable` | keys and their order, registration, segments, well-formed tables |
| `Compiler`, `GraphInvariant`, `CompilerCorrect` | `finalize` as a function on values; what the graph means; that it is compiled right |
| `Dispatch`, `RouterTheorems` | `handle_request` as written and as intended, the table read directly, and how the three agree |
| `RequestHandler` | the object itself, updating in place, proved to compute those functions |
| `RouterDepartures`, `ShippedRoutes` | what is unobservable, small tables where the code departs from its intent, the table the server ships with |
| `RootPath` | the path `/` |
| `EventLoop`, `Server` | the step system and its safety; the objects, each handler of which takes one step |
| `RequestAssembly` | the parser's callbacks |
| `Uuid`, `SessionStore`, `AuthService`, `Cookies`, `AuthApi` | ids, records, the store, the service, the cookie, the endpoints |
| `Site` | whole requests over the shipped table, and whole runs of them |
| `Traffic` | the step system of the event loop and the site, run together |
| `ResponseFraming`, `TestTags` | the bytes of a response; tag lists |

Where the source changes state, a class has the source's fields and its methods are proved to
compute a function of the old state; the theorems are about those functions. A pointer into
a growable vector is a position together with the size the vector had when the address was
taken (`RequestHandler.Ptr`). Every access through a pointer goes through `StaticAt`,
`DynamicAt`, `PutStatic` or `PutDynamic`, which ask that the vector still has that size; so
the proofs also say that no pointer is followed after its vector grew, and that the code
needs the new ones it takes at `src/api/asio/request_handler.cpp:188` and `:209`.
`handle_request` grows no vector, and its nodes are positions.

`RouteTable.WellFormed` is the domain of the routing theorems: sorted distinct keys; every
path starts with `/`, is longer than that, has no trailing `/` and starts with a static segment; at
each shared prefix either no path goes on with a parameter or all go on with the same one;
methods are 0 to 255; node positions stay below the unset link. Compiling is proved free of
stale pointers and of links out of bounds for every table with room for its nodes,
well-formed or not.

## Where the code departs from its intent

The code is modelled as written. For each departure there is an input that shows it and, for
all inputs, the exact condition.

1. *The method scan runs past its group.* The guard at `src/api/asio/request_handler.cpp:324`
   tests the index for the tag, not the word at that index, so the scan goes on to the end of
   the array; line 325 then compares the whole word, so only untagged words of later groups
   match. `RouterDepartures.ScanRunsIntoNextGroup`: with `GET /a`, `GET /b` and `POST /b`, a
   `POST /a` runs the callback of `POST /b`.
2. *A parent answers for a pending parameter.* The tail at
   `src/api/asio/request_handler.cpp:311` uses the last static node even when the walk ended
   on a dynamic one. `RouterDepartures.ParentAnswersForChild`: with `GET /p` and
   `GET /p/a/:x`, a `GET /p/a` runs the callback of `/p`.
   `RouterTheorems.AgreeUnlessOverrun` says for every request whether 1 or 2 happens, in
   terms of the table and the URI alone; `WrittenAnswer` says which route runs then, and
   `WrittenNotFound` when none does. Neither happens with the shipped table
   (`ShippedRoutes.ShippedRouter`).
3. *The session id is read at a fixed offset of the cookie header.*
   `src/api/auth.hpp:102` and `:146` add the length of the name to the start of the value
   instead of to the place of the match. `Cookies.SecondPairNotReadBack`: with another cookie
   in front, what is read is not the id. `Cookies.ReadBackIff` gives the exact condition.
4. *The page for status 204 is headed "204 Content"* (`src/api/asio/response.cpp:148`), while
   its title and the status line (`:24`) say "No Content". No call in the repository asks for
   this page. `ResponseFraming.NoContentPage` shows it, and `ResponseFraming.StockPageIff`:
   of the pages that are not empty, exactly that of 204 is not the one its status line calls
   for.
5. *`set_tags` adds to the positions of an earlier call* (`test/test.hpp:154-164`). The
   harness calls it once on a fresh object (`test/unit/main.cpp:17`), so it does not meet
   this. `TestTags.Data.SetTags`: the recorded positions are those of the list if and only
   if none were recorded before. `TestTags.SecondSetFails`: when `[a]` is set twice, a case
   tagged `[a]` does not pass; `TestTags.SetTwiceNeverPasses`: no list set twice lets any
   case pass.
6. *A write that the session store refuses passes for a success*
   (`src/repo/valkey.cpp:43-56` does not look at the kind of the answer, as `:69` does for a
   read). `AuthService.RefusedLoginLost`: the login succeeds and its session is not there.
   `AuthService.LoginHeldIff`: a login that is told it succeeded has a session if and only if
   the store did not refuse it.

7. *A username may be wider than its column.* Usernames of up to 60 bytes are accepted
   (`src/entity/user.cpp:69`), and the column holds 50 characters
   (`sql/dataset/tables/users.sql:3`). `AuthService.WideNameRefused`: 51 letters are a valid
   username and cannot be registered. `AuthService.RegisterIff`: an accepted username that is
   new is registered if and only if it fits.

8. *The path `/` is never served.* `finalize` compiles it under the empty segment of the root
   (`src/api/asio/request_handler.cpp:147-160`), and `handle_request` seeks it at the root
   itself (`:243-250`). `RootPath.SlashRegistered`: with `GET /` registered a `GET /` is not
   found. `RootPath.SlashNeverServed`: for every table, well-formed or not, a request for `/`
   is not found.

## Model

| member | source | states |
|---|---|---|
| RouteTable.KeyOrder | src/api/asio/request_handler.cpp:50-54 | the comparator is a strict total order on keys, zero only for equal keys, and a path between two equal paths is equal to them |
| RouteTable.InsertSorted | src/api/asio/request_handler.cpp:56-64 | registering a new key keeps the table in comparator order and adds that route and nothing else |
| RouteTable.PutSorted | src/api/asio/request_handler.cpp:59-62 | whatever the map does with a key it already has, the table stays sorted, no key moves, and no other route changes |
| RouteTable.SortedUnique | src/api/asio/request_handler.cpp:144 | the order in which the map is iterated is determined by the routes in it |
| RouteTable.RegisterSorted | src/api/asio/request_handler.cpp:56-64 | after any sequence of registrations with distinct keys the table is sorted and holds exactly those routes |
| RouteTable.RegistrationOrderIrrelevant | src/api/asio/request_handler.cpp:50-64 | two orders of registering the same routes give the same table |
| RouteTable.Adjacent | src/api/asio/request_handler.cpp:50-54 | in a sorted table the routes of one path are contiguous, which is what makes their endpoints one group |
| RouteTable.CutGoesOn | src/api/asio/request_handler.cpp:154-157 | the in-place loop, begun at a piece of the mathematical split, skips exactly the characters of that piece; used for the loop of `finalize` and of `handle_request` |
| RouteTable.CutEnds | src/api/asio/request_handler.cpp:154-162 | where that loop stops it has cut that piece, the next one starts one further, it is over exactly after the last piece, and the look-ahead for `:` tells whether the next segment is a parameter |
| RouteTable.SameNodeSamePath | src/api/asio/request_handler.cpp:147-162 | two good paths have the same segments just when they are the same path |
| Text.SplitJoin | src/api/asio/request_handler.cpp:154-162 | a list of slash-free pieces is what the split of their join gives back |
| Text.JoinSplit | src/api/asio/request_handler.cpp:154-162 | the split of a path loses nothing |
| Compiler.VisitSegs | src/api/asio/request_handler.cpp:154-219 | for any segments, the loop keeps every link in bounds, the only unlinked dynamic node is the current one and then a parameter follows, and no vector grows faster than the segments |
| Compiler.AddEndpoint | src/api/asio/request_handler.cpp:76-105 | endpoints and callbacks grow together and every endpoint position stays in range |
| Compiler.EndsOnDynamic | src/api/asio/request_handler.cpp:221-228 | a path that ends on a dynamic node, off the well-formed tables, redirects that node to a fresh static one that gets the endpoint, and changes no other node |
| Compiler.VisitRoutes | src/api/asio/request_handler.cpp:144-229 | after any number of routes no link is out of bounds and no dynamic node is left unset, whatever `dptr` a route leaves behind |
| Compiler.Compile | src/api/asio/request_handler.cpp:131-237 | for every table with room: after `finalize` all links are in bounds, none is unset, and there is a root |
| GraphInvariant.GrewTree | src/api/asio/request_handler.cpp:164-211 | linking one fresh node under one prefix, also when a dynamic node is first linked to a static and then to a dynamic node, keeps the graph a tree with one node for each prefix and changes no endpoint |
| GraphInvariant.VisitTree | src/api/asio/request_handler.cpp:154-219 | one pass moves the cursor to the node of the longer prefix, placing it if it was new; `prev_id` names the current node afterwards |
| GraphInvariant.KnownValue | src/api/asio/request_handler.cpp:164-175 | the value found under a parameter is the one parameter all routes through it share |
| GraphInvariant.VisitKeeps | src/api/asio/request_handler.cpp:154-219 | on a well-formed table that pass moves no node placed before, and nodes are dynamic exactly where a parameter follows |
| CompilerCorrect.SegsKeep | src/api/asio/request_handler.cpp:154-219 | the whole segment loop ends on the node of the route's path, and every earlier prefix still has its node and its group |
| CompilerCorrect.HeadIffFirst | src/api/asio/request_handler.cpp:76-87 | a node has no endpoint yet just when the route before has another path, so a group is opened exactly once for each path |
| CompilerCorrect.RouteKeeps | src/api/asio/request_handler.cpp:144-229 | each pass of the route loop extends the invariant by its route, moves no earlier prefix, and leaves `dptr` null |
| CompilerCorrect.RoutesCompiled | src/api/asio/request_handler.cpp:144-229 | the invariant, and the null `dptr`, hold at every route boundary |
| CompilerCorrect.FinalizeCompiles | src/api/asio/request_handler.cpp:131-237 | the compiled graph of a well-formed table has exactly the edges between prefixes of its paths, and each path's node points at the first route of that path |
| Dispatch.ScanWritten | src/api/asio/request_handler.cpp:323-329 | what the scan as written finds: the first word in the rest of the whole array that equals the method, group or not |
| Dispatch.ScanGroup | src/api/asio/request_handler.cpp:316-329 | what it should find: the first method byte that matches before the next tagged word |
| RouterTheorems.WalkFinds | src/api/asio/request_handler.cpp:253-309 | the walk ends on the only placed prefix that matches the segments, with the parameters bound on the way, and is lost exactly when there is none |
| RouterTheorems.GroupHit | src/api/asio/request_handler.cpp:311-331 | both scans find a method that is registered in the group |
| RouterTheorems.GroupMissWritten | src/api/asio/request_handler.cpp:316-331 | the scan as written says not found exactly when neither the head nor any later route that is not first of its path has the method |
| RouterTheorems.ScansAgreeIff | src/api/asio/request_handler.cpp:316-331 | the two scans of a group agree exactly when the method is registered in the group or no later route strays in |
| RouterTheorems.AnswersUnique | src/api/asio/request_handler.cpp:239-332 | at most one registered route matches a URI and method segment by segment |
| RouterTheorems.WrittenCompleteness | src/api/asio/request_handler.cpp:131-332 | the code as written runs, for every request that a registered route matches, exactly that route's callback with the (name, segment) bindings in order |
| RouterTheorems.IntendedExact | src/api/asio/request_handler.cpp:239-332 | with the intended tail a callback runs if and only if a registered route matches, and it is that one with its bindings; otherwise the answer is not found |
| RouterTheorems.AgreeUnlessOverrun | src/api/asio/request_handler.cpp:311-331 | the code as written and as intended answer alike if and only if the request does not overrun, a condition on table and URI |
| RouterTheorems.OverrunsDiffer | src/api/asio/request_handler.cpp:311-331 | on a request that overruns, the code as written runs a callback where none should run |
| RouterTheorems.WrittenAnswer | src/api/asio/request_handler.cpp:311-331 | which route the code as written runs, right or wrong, with which parameters |
| RouterTheorems.WrittenNotFound | src/api/asio/request_handler.cpp:243-331 | exactly when the code as written says not found |
| RouterTheorems.GroupRuns | src/api/asio/request_handler.cpp:76-105 | endpoints and callbacks list the table in order, and from a tagged word up to the next lie exactly the routes of one path |
| RouterTheorems.RootHasNoEndpoint | src/api/asio/request_handler.cpp:243-250 | a well-formed table answers `/` with not found |
| RootPath.SlashNeverServed | src/api/asio/request_handler.cpp:131-250 | whatever is registered, a request for `/` is not found |
| RootPath.SlashRegistered | src/api/asio/request_handler.cpp:147-250 | a table that holds `/`, for which that is wrong |
| RootPath.RootAnswers | src/api/asio/request_handler.cpp:243-250 | on any graph, a root that were an endpoint would answer `/` whatever the method |
| Dispatch.BodyOfPath | src/api/asio/request_handler.cpp:252-264 | a path is sought under its own segments, with or without one slash behind it |
| Dispatch.UriOfSegs | src/api/asio/request_handler.cpp:252-264 | every list of slash-free segments that does not end in an empty one is the split of a URI, so every instance of a path can be asked for |
| RouterDepartures.TrailingSlashIgnored | src/api/asio/request_handler.cpp:252-264 | on any graph a URI without a trailing slash is answered like the same URI with one |
| RouterDepartures.RegistrationOrderUnobservable | src/api/asio/request_handler.cpp:56-237 | routers that got the same routes in any two orders answer every request alike |
| RouterDepartures.Serve | src/api/asio/server.cpp:46-60 | register in any order, finalize, ask: a matching route runs with its bindings, and outside the overruns nothing else does |
| RouterDepartures.OneMethodNoParamsAgrees | src/api/asio/request_handler.cpp:311-331 | on a table with one method for each path and no parameters the code as written is the intended one for every request |
| RouterDepartures.ScanRunsIntoNextGroup | src/api/asio/request_handler.cpp:323-329 | a concrete table and request for which the scan answers from the next path's group |
| RouterDepartures.ParentAnswersForChild | src/api/asio/request_handler.cpp:311-321 | a concrete table and request for which the parent of a pending parameter answers |
| ShippedRoutes.SetupOrdered | src/api/auth.hpp:175-204 | the four shipped registrations give a table of four routes in path order |
| ShippedRoutes.ShippedRouter | src/api/auth.hpp:175-204 | for every URI and method the shipped server as written runs a route's callback if and only if the URI spells its path, up to a trailing slash and a first character that is not looked at, with its method, and else says not found |
| RequestHandler.RequestHandler.AddRoute | src/api/asio/request_handler.cpp:56-64 | a new route is at its place in the order; a key that is there stays, with the old callback or the new one; the graph is untouched |
| RequestHandler.RequestHandler.CreateStaticRoute | src/api/asio/request_handler.cpp:66-69 | a fresh node at the end, its position as an untagged link |
| RequestHandler.RequestHandler.CreateDynamicRoute | src/api/asio/request_handler.cpp:71-74 | a fresh unset node at the end, its position as a tagged link |
| RequestHandler.RequestHandler.CreateEndpoint | src/api/asio/request_handler.cpp:89-97 | a tagged word and its callback at the same position |
| RequestHandler.RequestHandler.AppendEndpoint | src/api/asio/request_handler.cpp:99-105 | an untagged word and its callback at the same position |
| RequestHandler.RequestHandler.AddEndpoint | src/api/asio/request_handler.cpp:76-87 | through a live pointer, what the specification function says of the node, the words and the callbacks |
| RequestHandler.StaleAfterGrowth | src/api/asio/request_handler.cpp:188 | no address outlives the growth of its vector |
| RequestHandler.RequestHandler.VisitDynamic | src/api/asio/request_handler.cpp:164-199 | the branch for a dynamic node takes the specified step, and the pointers it leaves are live although vectors grew |
| RequestHandler.RequestHandler.VisitStatic | src/api/asio/request_handler.cpp:201-218 | the branch for a static node takes the specified step, and the pointers it leaves are live although vectors grew |
| RequestHandler.RequestHandler.VisitPiece | src/api/asio/request_handler.cpp:161-218 | one pass for the characters just cut, with the look-ahead read behind them |
| RequestHandler.RequestHandler.VisitPieces | src/api/asio/request_handler.cpp:153-219 | the in-place segment loop visits exactly the segments of the split, each with the right look-ahead |
| RequestHandler.RequestHandler.EndRoute | src/api/asio/request_handler.cpp:221-228 | the endpoint goes to the current static node, or to a fresh one linked from a dynamic node left over |
| RequestHandler.RequestHandler.FinalizeRoutes | src/api/asio/request_handler.cpp:144-229 | the route loop visits the table in order, whatever `dptr` each route leaves behind |
| RequestHandler.RequestHandler.Finalize | src/api/asio/request_handler.cpp:131-237 | the vectors hold what the specification compiles from the whole table, and the table is empty |
| RequestHandler.RequestHandler.StepRequest | src/api/asio/request_handler.cpp:270-308 | one segment of the walk |
| RequestHandler.RequestHandler.RunGroup | src/api/asio/request_handler.cpp:311-331 | the tail as written answers as specified, all reads in range |
| RequestHandler.RequestHandler.HandleRequest | src/api/asio/request_handler.cpp:239-332 | the loop over the URI, as written, computes the specified answer for every graph and URI |
| RequestHandler.Boot | src/api/asio/server.cpp:46-51 | registering one by one and then running gives the compiled graph of the registered table |
| EventLoop.SoundStep | src/api/asio/connection.cpp:86-141 | every handler keeps: live connections are exactly those with an open socket, each has exactly one pending operation, and a pending write still refers to the current response |
| EventLoop.SoundAlways | src/api/asio/connection_manager.cpp:16-31 | that holds in every state of every run of accepts, reads, writes, errors, aborts and the signal |
| EventLoop.OpenUntilSignal | src/api/asio/server.cpp:62-85 | the acceptor is open, and the stop handler armed, exactly until the signal |
| EventLoop.AcceptedLives | src/api/asio/server.cpp:68-75 | until the signal an accept may always succeed, and then one new connection is live with an open socket and a pending read, the others untouched |
| EventLoop.ConnectionsAreAccepted | src/api/asio/server.cpp:62-78 | in every run there are exactly as many connections as successful accepts before the signal |
| EventLoop.ReadGoesOn | src/api/asio/connection.cpp:91-116 | a live read may bring anything, and is followed by another read, by the write of the response, or by that of the stock page for 400 |
| EventLoop.WriteCloses | src/api/asio/connection.cpp:128-139 | a write that ends, well or not, closes its connection and leaves nothing pending |
| EventLoop.ReadCloses | src/api/asio/connection.cpp:117-119 | so does a read that fails |
| EventLoop.ClientServed | src/api/asio/connection.cpp:86-141 | until the signal, whoever connects and sends a request is sent its response, and the connection ends |
| EventLoop.OneAnswer | src/api/asio/connection.cpp:86-122 | in every run each connection starts at most one response write, and from then on its response stays the one that was started |
| EventLoop.DispatchedOnce | src/api/asio/connection.cpp:101-114 | in every run each connection is handed to the router at most once |
| EventLoop.WriteSendsAnswer | src/api/asio/connection.cpp:124-141 | the buffers of a write that ends are those of the one response its connection was answered with |
| EventLoop.DrainStep | src/api/asio/connection.cpp:90-139 | after the stop signal every step lowers the measure on pending operations, whatever completes and how, and nothing is live or accepted |
| EventLoop.Drains | src/api/asio/server.cpp:62-85 | any continuation after the stop is at most two handlers for each connection and one more long |
| EventLoop.SignalStops | src/api/asio/server.cpp:80-85 | the stop handler closes every socket and empties the live set |
| EventLoop.StoppedRunDrains | src/api/asio/server.cpp:62-85 | any run, then the signal, then any run: nothing is ever live again and the rest is bounded |
| EventLoop.QuietIffDrained | src/api/asio/server.cpp:54 | after the stop the loop can return just when the measure is zero, and until then some operation can end |
| Server.Server.constructor | src/api/asio/server.cpp:20-44 | one accept and the stop handler are pending, nothing is live |
| Server.Server.OnAccept | src/api/asio/server.cpp:62-78 | the accept handler takes the step of the system, which by `EventLoop.AcceptedLives` is one new live connection for a success |
| Server.Server.OnRead | src/api/asio/connection.cpp:90-120 | the read handler takes the step of the system, the other connections untouched |
| Server.Server.OnWrite | src/api/asio/connection.cpp:128-139 | the write handler takes the step of the system, the other connections untouched |
| Server.Server.OnSignal | src/api/asio/server.cpp:80-85 | the stop handler takes the step of the system |
| Server.ConnectionManager.StopAll | src/api/asio/connection_manager.cpp:27-31 | every member of the live set is closed, in whatever order, and the set is empty |
| Server.ConnectionManager.Stop | src/api/asio/connection_manager.cpp:22-25 | exactly this connection leaves the set and is closed |
| RequestAssembly.AssembledWhole | src/api/asio/connection.cpp:35-71 | however its bytes are cut, a request is assembled as its whole tokens, header names in lower case, each value with its own name, the fields behind a chunked body after those before it |
| RequestAssembly.FragmentationIrrelevant | src/api/asio/connection.cpp:35-71 | two ways of cutting the same tokens, with names that agree letter by letter but for their case (they are case-insensitive by section 3.2 of RFC 7230), give the same request |
| RequestAssembly.LowerMeans | src/api/asio/connection.cpp:55-57 | each capital becomes the small letter at its place in the alphabet, every other character stays, no capital is left |
| RequestAssembly.LowerForgetsCase | src/api/asio/connection.cpp:55-57 | two names are the same in lower case if and only if they agree letter by letter but for case |
| RequestAssembly.FlatAppend | src/api/asio/connection.cpp:35-39 | a token cut in two is its pieces one behind the other |
| RequestAssembly.PipelinedMerged | src/api/asio/connection.cpp:35-71 | what becomes of a request when the parser goes on to a second one in the same read: the target of the second with the headers and bodies of both |
| RequestAssembly.Assemble | src/api/asio/connection.cpp:35-76 | the object driven by any callbacks the parser may make holds the specified draft |
| RequestAssembly.Assembler.OnHeaderFieldComplete | src/api/asio/connection.cpp:50-59 | the gathered token becomes a lower-case header name, the scratch string is empty |
| RequestAssembly.Assembler.OnHeaderValueComplete | src/api/asio/connection.cpp:61-65 | the gathered token becomes the value of the last header |
| RequestAssembly.Assembler.Dispatch | src/api/asio/connection.cpp:35-71 | every callback takes the specified step |
| Bytes.StrNCpyText | src/types.hpp:207-211 | what `strncpy` leaves behind a terminator is the text cut at the limit |
| Uuid.CopyInto | src/types.hpp:207-211 | copies into a fixed buffer at an offset, padding with NULs, and touches nothing else |
| Uuid.Uuid.constructor | src/types.hpp:169-171 | a new id is empty and terminated |
| Uuid.Uuid.CopyFrom | src/types.hpp:184-194 | a copied id reads as the other one and stays terminated |
| Uuid.Uuid.Assign | src/types.hpp:207-211 | an id assigned from text reads as that text cut at 36 characters, terminated |
| Uuid.EmptyText | src/types.hpp:232-234 | looking at the first byte decides whether the id is empty |
| Uuid.WholeId | src/types.hpp:207-211 | an id of 36 characters is read whole whatever follows it in the source |
| SessionStore.StrNLen | src/entity/user.cpp:69 | the length of the text, cut at the bound |
| SessionStore.User.SetUsername | src/entity/user.cpp:64-74 | accepted exactly for 1 to 60 characters, and otherwise the old name stays |
| SessionStore.User.SetPassword | src/entity/user.cpp:94-111 | accepted exactly for 8 to 60 characters that are hashed, and otherwise the old password stays |
| SessionStore.UsernameIff | src/entity/user.cpp:64-74 | accepted if and only if it has 1 to 60 characters, and which error otherwise |
| SessionStore.PasswordIff | src/entity/user.cpp:94-106 | accepted if and only if it has 8 to 60 characters, and which error otherwise |
| SessionStore.KeysDistinct | src/repo/session/valkey.cpp:41-42 | two ids have the same key just when they are the same id |
| SessionStore.KeyIs | src/repo/session/valkey.cpp:14-42 | the key of an id, as text |
| SessionStore.RecordIs | src/repo/session/valkey.cpp:31-36 | the record, as text |
| SessionStore.RecordRoundTrip | src/repo/session/valkey.cpp:31-71 | cutting the record with a NUL and reading at fixed offsets gives back the id and username that were written, quotes and backslashes included |
| SessionStore.CutRecord | src/repo/session/valkey.cpp:60-69 | a NUL two before the end leaves both fields at their offsets, whatever stands around them |
| SessionStore.RefinesSet | src/repo/session/valkey.cpp:44 | storing a record under the key of an id is storing the session, and disturbs no other id |
| SessionStore.RefinesRemove | src/repo/session/valkey.cpp:81 | removing the key of an id removes that session and no other, whatever follows the id in the buffer |
| SessionStore.SessionValkey.MakeKey | src/repo/session/valkey.cpp:41-42 | the zeroed buffer filled by two copies reads as the prefix and the id |
| SessionStore.SessionValkey.SetSession | src/repo/session/valkey.cpp:25-46 | the byte store still stands for the abstract sessions, now with this one for an hour if the write was applied; what the caller is told about each way it can fare |
| SessionStore.SessionValkey.Encode | src/repo/session/valkey.cpp:31-36 | the text appended piece by piece is the record, and no NUL cuts it short |
| SessionStore.SessionValkey.Decode | src/repo/session/valkey.cpp:57-71 | from a record the user gets exactly the id and name that were written |
| SessionStore.SessionValkey.GetUser | src/repo/session/valkey.cpp:48-72 | a user is found exactly for a live session when the store serves, and is the one it was stored for; otherwise the error of the way it failed |
| SessionStore.SessionValkey.RemoveSession | src/repo/session/valkey.cpp:74-82 | a live session is removed if the command was applied, no other is touched, and the error of each way it can fare |
| SessionStore.Valkey.SetString | src/repo/valkey.cpp:43-56 | the entry and its deadline if the command was applied; an error only when no answer comes |
| SessionStore.Valkey.GetString | src/repo/valkey.cpp:60-83 | an entry is found exactly before its deadline when the command is served; no answer, and any answer but a string, are errors |
| SessionStore.Valkey.Remove | src/repo/valkey.cpp:87-98 | an expired entry counts as not there; a removal whose answer is lost may have taken place |
| AuthService.UserTable.AddUser | src/repo/user/pg.cpp:19-44 | usernames stay unique and within the width of the column; each way the query can fail has its error, and a row may be in although its result was lost |
| AuthService.UserTable.GetUserByUsername | src/repo/user/pg.cpp:52-85 | the user found is the account of that name; each way the query can fail has its error |
| AuthService.Auth.RegisterUser | src/service/auth.hpp:90-101 | one step of the abstract service, with its errors in their order |
| AuthService.Auth.Login | src/service/auth.hpp:64-86 | one step of the abstract service, with its errors in their order (`AuthService.LoginTold`) |
| AuthService.Auth.Logout | src/service/auth.hpp:105-108 | one step of the abstract service, whose answer `AuthService.LogoutTold` states |
| AuthService.Auth.GetUser | src/service/auth.hpp:111-114 | one step of the abstract service, which changes nothing |
| AuthService.UsersAreRegistered | src/service/auth.hpp:90-101 | in every run the accounts are exactly the registrations that went in, the first for each name |
| AuthService.LoginIff | src/service/auth.hpp:64-86 | after any run a login gets to the session store if and only if the name was registered with a password that verifies and the query ran; it is told it succeeded if and only if moreover the store answered |
| AuthService.LoginTold | src/service/auth.hpp:64-86 | after any run, what a login is told: the first empty field, then the query, an unknown name, a password that is not the registered one, and then the answer of the store |
| AuthService.MismatchIff | src/utils/crypto/password.cpp:60-68 | a login is refused for its password if and only if the first 60 bytes of it are not the password that was registered |
| AuthService.LoginStores | src/repo/session/valkey.cpp:44 | an accepted login has a session exactly when its write was applied, whatever it is told |
| AuthService.RegisteredCanLogin | src/service/auth.hpp:64-101 | whoever registers an unused name that fits its column can log in with the same name and password, the cut at 60 bytes notwithstanding |
| AuthService.RegisterIff | sql/dataset/tables/users.sql:3 | after any run, an accepted registration that reaches the database succeeds if and only if the name is new and fits the column |
| AuthService.RegisterTold | src/service/auth.hpp:90-101 | after any run, what a registration is told: the first fault of its fields, then the hash, then the query, then whether the name is new and fits |
| AuthService.RegisterEnters | src/repo/user/pg.cpp:29-43 | an acceptable registration is in exactly when its row was inserted, told or not, under its own name with its own password, and no other account changes |
| AuthService.ColumnIff | sql/dataset/tables/users.sql:3 | names without bytes above 127 fit up to 50 of them, and a character of two bytes counts once |
| AuthService.WideNameRefused | sql/dataset/tables/users.sql:3 | a valid username of 51 letters, which no run registers |
| AuthService.SessionsAreHeld | src/service/auth.hpp:64-114 | in every run the state has, for each id, the session that the events alone say was issued and not logged out, or else no live one |
| AuthService.ClockIsNow | src/repo/session/valkey.cpp:44 | the time of the store is the time that passed in the run |
| AuthService.LookupIff | src/service/auth.hpp:111-114 | after any run a lookup that is served finds a person if and only if, by the events of the run alone, a session was stored for that person under the id, no logout of it took effect after that, and less than 3600 seconds have passed |
| AuthService.LookupTold | src/service/auth.hpp:111-114 | after any run, what a lookup is told: the holder of an id that is current, and otherwise which error |
| AuthService.LogoutTold | src/repo/valkey.cpp:87-98 | after any run, a served logout succeeds if and only if the id was issued, not logged out since, and is less than 3600 seconds old; any other id has nothing to delete |
| AuthService.SecondLogoutTold | src/repo/valkey.cpp:95-97 | a second logout of the same id has nothing to delete |
| AuthService.NoRevival | src/service/auth.hpp:105-114 | a session that is over stays over in every continuation that does not issue its id again |
| AuthService.LoginHeldIff | src/repo/valkey.cpp:43-56 | a login that is told it succeeded has a session if and only if the store did not refuse the write |
| AuthService.RefusedLoginLost | src/repo/valkey.cpp:43-56 | a concrete run with a successful login and no session |
| AuthService.Replay | src/service/auth.hpp:64-114 | the objects, driven through any list of events, end in the state that the abstract run ends in |
| Cookies.Scan | src/api/auth.hpp:93-105 | the loop as written reads an id exactly when the name was matched, at the fixed offset |
| Cookies.MatchedMeans | src/api/auth.hpp:95-101 | what the counter `k` means at every position |
| Cookies.BlockedIff | src/api/auth.hpp:95-101 | the loop is inside a partial match exactly where an unblocked beginning of the name ends |
| Cookies.MatchIff | src/api/auth.hpp:95-105 | the name is matched if and only if it occurs at a place that is not blocked |
| Cookies.ReadIdIff | src/api/auth.hpp:93-105 | the text at the fixed offset is read if the name occurs at a place that is not blocked, and nothing otherwise |
| Cookies.FreePlaces | src/api/auth.hpp:95-99 | the start, and any place after a character that the name lacks, is not blocked |
| Cookies.FirstPairReadBack | src/api/auth.hpp:87-107 | the id of the first pair is read back, whatever follows |
| Cookies.ReadBackIff | src/api/auth.hpp:101-103 | for a pair after a character that the name lacks: its id is read if and only if it is the first pair or an earlier cookie holds the same id at the fixed offset |
| Cookies.SecondPairNotReadBack | src/api/auth.hpp:101-103 | behind another cookie the name is matched and the id is not read |
| Cookies.FindSession | src/api/auth.hpp:87-107 | only the first header named cookie is scanned |
| Cookies.NamedCookie | src/api/auth.hpp:89 | a cookie header is found whatever the case of its name |
| Cookies.NoCookieUnread | src/api/auth.hpp:87-109 | a request without such a header carries no id |
| Cookies.LoginReachesLogout | src/api/auth.hpp:58-107 | the pair login writes, sent back first in the first cookie header of a request, however that is cut and in whatever case its name is, is read as the id login issued |
| AuthApi.PostRegister | src/api/auth.hpp:68-82 | one registration of the service, told by the reply that `Site.RegisterReplied` states |
| AuthApi.PostLogin | src/api/auth.hpp:44-66 | one login of the service; the cookie goes out exactly when it succeeds |
| AuthApi.PostLogout | src/api/auth.hpp:84-125 | without an id the service is not asked; else one logout of it, told by the reply |
| AuthApi.GetUser | src/api/auth.hpp:128-173 | the page names the user of the live session, and nobody else's |
| AuthApi.CookieUnbroken | src/api/auth.hpp:58-64 | the cookie of a generated id meets what framing asks of a header |
| AuthApi.LogoutEndsSession | src/api/auth.hpp:44-173 | within the hour the cookie of a login shows the page of that user and logs out, and then the session is gone |
| AuthApi.SessionLife | src/api/auth.hpp:44-173 | the same for one session on any state |
| Site.RouterFindsTarget | src/api/auth.hpp:175-204 | the router as written sends every URI and method to the endpoint that the shipped table names for it, or to none |
| Site.NowhereIff | src/api/auth.hpp:175-204 | the requests that have no endpoint are exactly those with another path or method than the four |
| Site.Route | src/api/asio/connection.cpp:106 | the compiled router object picks that endpoint |
| Site.RunEndpoint | src/api/asio/request_handler.hpp:62-65 | the endpoint does what its target asks of the service, at most once |
| Site.Serve | src/api/asio/connection.cpp:86-141 | one request, however it is cut: the service takes the step its URI, method and cookie ask for, and the bytes written are those of the reply |
| Site.RepliesFramed | src/api/asio/response.cpp:105-133 | every reply of the site meets what framing asks of its headers |
| Site.WireFramed | src/api/asio/response.cpp:105-133 | in the bytes of every reply the first CRLFCRLF ends the head, the content follows, and the last line of the head announces its length |
| Site.Live | src/api/asio/server.cpp:46-60 | after any run of requests and waiting, the service is in the state of the events that were asked of it |
| Site.AfterAsks | src/api/auth.hpp:44-173 | what a request does to the state of a run is the event it asks for |
| Site.RegisterReplied | src/api/auth.hpp:68-82 | a POST to /api/auth/register is answered 200 if and only if the fields are accepted, the name is new and fits, and hash and query succeed, and then the account is in; otherwise 400 |
| Site.LoginReplied | src/api/auth.hpp:44-66 | a POST to /api/auth/login is answered 200 with the cookie if and only if the name is registered with that password, the query ran and the store answered; otherwise 401 |
| Site.LogoutReplied | src/api/auth.hpp:84-125 | a POST to /api/auth/logout is answered 401 without an id, 200 for an id that is current, 400 for any other |
| Site.UserReplied | src/api/auth.hpp:128-173 | a GET of /api/user shows the holder of an id that is current, and is answered 401 otherwise |
| Site.NowhereReplied | src/api/asio/request_handler.cpp:298-332 | any other request is answered with the stock page for 404, and the service is not asked |
| Site.RegisterThenLogin | src/api/auth.hpp:44-82 | whoever is answered 200 at registration gets a cookie for the same name and password |
| Site.LogoutTwice | src/api/auth.hpp:84-125 | a second logout with the same cookie is a bad request |
| Site.SessionOverSite | src/api/auth.hpp:44-173 | after any run: a login request of a registered user gets a cookie, within the hour a request with that cookie shows that user, a logout request with it succeeds, and after that the cookie is unauthorized |
| Traffic.RunsOfBoth | src/api/asio/connection.cpp:90-114 | every interleaving of completions, requests and waiting is a run of the event loop and a run of the service |
| Traffic.StartedBy | src/api/asio/connection.cpp:95-114 | the response that the event loop counts for a connection is the only one any happening of the run starts on it |
| Traffic.OwnReply | src/api/asio/connection.cpp:86-141 | under any interleaving, a write that ends sent the site's reply to the one request of its own connection, in the state the service was in when that request was handed over, or the reply to malformed bytes |
| Traffic.ClientServed | src/api/asio/connection.cpp:86-141 | until the signal, whoever connects and sends a request, however the others interleave, is sent the reply to it in the state the service is in then |
| ResponseFraming.DecimalRoundTrip | src/api/asio/response.cpp:120-126 | a written length reads back as the length |
| ResponseFraming.DecimalPlain | src/api/asio/response.cpp:120-126 | a length is written in digits, without leading zeros |
| ResponseFraming.ToBuffers | src/api/asio/response.cpp:105-133 | the concatenated buffers are the status line, the header lines, the length, an empty line and the content |
| ResponseFraming.FirstBlank | src/api/asio/response.cpp:105-133 | after any lines without breaks the first empty line is the one behind them |
| ResponseFraming.Framing | src/api/asio/response.cpp:105-133 | if no header holds CR or LF, the first CRLFCRLF ends the head, the rest is the content, and the last line before it announces its length (section 10.4 of RFC 1945) |
| ResponseFraming.ClientReads | src/api/asio/response.cpp:105-133 | a client that cuts the bytes at line breaks reads the status line, each header as its name and its value, in order, and the length |
| ResponseFraming.PhraseNumber | src/api/asio/response.cpp:54-92 | the status line begins with the number of the status, or with 500 for an unknown one |
| ResponseFraming.StockResponse | src/api/asio/response.cpp:242-254 | the page and headers of the status; the length it announces is that of its content and its headers are fit for framing |
| ResponseFraming.StockPageIff | src/api/asio/response.cpp:137-238 | each page, read off the switch, has the phrase of its status line as heading and the phrase without its number as title, if and only if the status is not 204; that of 200 is empty |
| ResponseFraming.ErrorPages | src/api/asio/response.cpp:163-178 | the pages for 400 and 404, as text |
| ResponseFraming.NoContentPage | src/api/asio/response.cpp:146-149 | the page for 204, whose heading leaves out a word |
| TestTags.EndsAreEnds | test/test.hpp:156-162 | the positions are, in order, every comma and the closing bracket |
| TestTags.EndIsTag | test/test.hpp:183-199 | what lies between two positions is a whole tag |
| TestTags.TagsAreNumbered | test/test.hpp:183-199 | every tag of the list lies between two of the positions |
| TestTags.IndexTags | test/test.hpp:173-181 | the loop finds those positions |
| TestTags.FindTag | test/test.hpp:188-200 | found if and only if the list has the characters asked for as a tag; a size that wrapped around is never found |
| TestTags.Data.SetTags | test/test.hpp:154-164 | the positions are appended to those already there; they are those of the list if and only if there were none |
| TestTags.Data.TestTags | test/test.hpp:166-211 | whatever positions are recorded: OK if and only if no tags were set or every stretch between two positions is a tag of the case |
| TestTags.PassesIff | test/test.hpp:166-211 | with the positions of one list, that is that every tag asked for is one of the case's |
| TestTags.TestTagsOnce | test/test.hpp:154-211 | a fresh object, one list set, one test: OK if and only if every tag asked for is one of the case's |
| TestTags.SetTwiceNeverPasses | test/test.hpp:183-207 | after a list was set twice no case passes |
| TestTags.SecondSetFails | test/test.hpp:154-211 | a concrete list for which that is wrong |

## Left out

- Route tables that mix static and dynamic siblings, start with a parameter, or repeat a path by a trailing slash: compiled safely in the model, but no routing theorem covers them.
- RequestHandler.RequestHandler.HandleRequest: the URI is not empty; for an empty one the code reads the character before the first, and nothing in the repository rules it out. Positions beyond 2^31 would overflow a signed integer and are not modelled. Both segment loops read the character at the end before they test the bound, where a string of the library keeps its terminator; the model tests first. The first character of the URI is not looked at, in the code as in the model.
- Vectors, strings, hash maps and the ordered map of the `ds` library are sequences and maps; nodes are values in a sequence, so aliasing appears only as stale addresses.
- Allocation failures and the 500 answers they lead to.
- Lengths are unbounded integers: paths, URIs and buffers longer than a 32-bit index can count are not modelled. Links, tags and endpoint words are 32 bits wide.
- asio, llhttp, libpq, valkey and argon2 themselves: which operation completes and how, what the parser makes of the bytes, the ids that are generated, whether hashing succeeds, and how each query and command fares are inputs.
- SessionStore.User.SetPassword: a hash is an opaque value that stands for the password it was made from, the salt being fixed (`src/utils/crypto/password.cpp:17`); that two passwords never share a hash is assumed of argon2.
- SessionStore.SessionValkey.SetSession: the generated id is an input of 36 characters without NUL.
- SessionStore.User.SetId: the id is kept as its text; the buffer behind it is the class `Uuid.Uuid`.
- AuthService.NoRevival: that ids are never issued twice is a condition on the run and not a property of the generator.
- AuthService.Auth.Login: a select that fails changes nothing, so only its error is modelled.
- RequestAssembly.AssembledWhole: one request; whether the parser goes on to a second one that arrived in the same read is the parser's affair, and `PipelinedMerged` says what happens then.
- Site.Serve: the target is not empty, as for `RequestHandler.RequestHandler.HandleRequest`; the fields of the body are inputs, since the JSON parser is not modelled.
- Traffic.OwnReply: a request is what the parser made of the reads of its connection; the reads before the last are completions without a request.
- RouteTable.KeyOrder: stated for methods as integers; the code subtracts 32-bit numbers, which overflows for methods about 2^31 apart. Methods from 0 to 255, as in well-formed tables, are far from that.
- AuthService.UserTable.AddUser: names that do not fit only because of blanks at their end, which the database would cut off, are refused; a name is taken to be in UTF-8.
- Comparisons of ids with strings, moves of ids, the overloads of setters and of `login` for strings.
- TestTags.Data.SetTags: tag lists of fewer than two characters are not modelled, as the code subtracts one from their length; positions are 32 bits wide, so lists of more than 2^32 characters are not modelled either.
- TestTags.Data.TestTags: lists of fewer than two or more than 2^32 characters, and positions behind the end of the list, which the code would read beyond its end.
- Progress before the stop signal: a connection that neither sends nor closes is never timed out, in the code as in the model.
- The logger, the mime table, the JSON body parser, `main` and the harness around the tag filter: plumbing.
