# A verified model of an HTTP interception proxy

The program intercepts HTTP traffic, learns API descriptions from it, throttles, caches,
rewrites and pauses it, and converts it to and from other formats. This project models its
cores in Dafny and proves what they are for, over every input, every run or every
interleaving. `dafny verify dfyconfig.toml` checks all of it.

## What is modelled

- **Schema learning.** `SchemaInference` infers a nested schema from JSON samples with the
  mutual recursion over objects and arrays of the original; `LearnedSpec` groups observations
  into a specification. The reference is a function of the *set* of samples, so order and
  repetition cannot matter; types are judged by the program's own `valueType`, in which null is
  a "string" and "integer" and "number" exclude each other.
- **Token buckets.** `TokenBucket` is the bucket over real time, with the sliding-window bound
  and greedy optimality. `ProxyLimiter` is the proxy's per-client limiter, `RateLimiter` the
  plugin that asks a list of rules in order and may spend tokens on requests that a later rule
  rejects.
- **Contracts and OpenAPI 3.1.** `ContractModel` and `ContractValidation` say what a valid
  contract is, `OpenApiDocument` and `OpenApiLoops` export and import it through a JSON tree,
  `OpenApiRoundTrip` computes the normal form of a contract, and `OpenApiTheorems` has the exact
  condition of the round trip and its idempotence. `OpenApiRules` states the rules of OpenAPI on
  the JSON document itself and when a contract is exported to a document that obeys them;
  `OpenApiImport` says what import makes of any document.
- **Concurrent protocols.** `PluginRuntime` (register, drain, unregister, hook runs),
  `Breakpoints` with `PauseOutcome` (pause, resume, and what the engine makes of a decision) and
  `WebSocketRelay` (two relay loops, once-guards, error channel, shutdown) are step relations:
  one action per mutex section or channel operation, in any interleaving.
- **Caches.** `RecencyList` is the map-plus-list structure with elements on the heap, `CertLru`
  the certificate cache against the list of most recently used hosts, `ResponseCache` the cache
  with expiry against the plain history of replies.
- **Formats and filters.** `GrpcFrames` (length-prefixed messages), `RewriteRules`,
  `CircuitBreaker` (against the history of responses), `CurlCommand` (against a shell
  tokenizer), `Har` with `Base64` (export and import of recorded traffic).
- `Wrappers`, `Collections`, `Octets`, `Ordering`, `Text` and `JsonTree` hold what several of these share.

Objects that the program updates in place are classes whose methods are proved against
functions on values; the properties are then proved of those functions over whole runs.

## Where a promised property needs a condition

- Two observations share a slot of the learned specification when their keys "method path"
  coincide. `LearnedSpecSound` shows that every body is described at its own path, method and
  status if and only if no keys clash; methods without a space never clash, and `KeysCanClash`
  has two observations that do.
- A contract comes back from OpenAPI unchanged (endpoints sorted) if and only if it is
  canonical: current schema version, non-blank title, version and server URLs, upper-case method
  keys, no endpoint without operations, explicit content types, auth in normal form, and equal
  schemes at equal list positions across operations, because scheme names carry only the
  position. Without the last, operations exchange their schemes. This is stated for contracts
  with distinct paths and the auth types that validation accepts; idempotence needs only the
  latter.
- A valid contract is exported to a document that obeys the rules of OpenAPI 3.1 if and only if
  its method keys are method names in some case, without the white space around them that
  validation allows (`DocumentOkIff`).
- Two overlapping `Unregister` calls for one name can remove a plugin registered later. From
  every safe state an overlap has a continuation, of running hooks, waiting calls and one
  registration, to a listed plugin that the table has lost (`OverlapLosesAPlugin`), and
  `PromisedIffSerialized` shows that what callers rely on outlives an action if and only if the
  action does not overlap a pending call for its name.
- A second `Resume` that finds the same entry can close its channel twice: from every safe state
  there is a continuation to the panic (`SecondResumeCanPanic`), and in any run at all a panic is
  just that (`PanicsIffClosedTwice`). Two paused requests with one ID strand each other
  (`SharedIdStrandsAPause`). `PromisedIffGuarded` shows that what callers rely on outlives an
  action if and only if it does neither.
- Response-cache keys join method and URL by a colon. Every hit is the latest unexpired reply for
  its method and URL if and only if no cached method is another one followed by a colon and more
  (`HitsAreLatestIffNoClash`); `WrongHit` serves the reply of one method to the other.
- Rules of equal priority run in an order that sorting leaves open (`EqualPrioritiesMatter`). It
  leaves one order if and only if rules of equal priority are equal (`OneOrderIffTiesAgree`).
- The inferred schema is the least one that accepts the samples if and only if no array is
  without elements in all samples, at any depth (`LeastIffDetermined`): such arrays are given
  elements of type "string".
- The curl printer does not quote the method. For methods of token characters the shell gives the
  intended arguments back if and only if the upper-cased method needs no quotes
  (`UndoneIffSafe`): `&`, `|`, `$`, backquote, `*`, `'` and a leading `#` or `~` are token
  characters that do.
- HAR cannot represent everything: a record is restored if and only if its URL, method and header
  names are non-empty, its duration is a float64 value, its status text is present or has no
  standard text, and a response shows itself by a positive status, a header, a body or a status
  text (`EntryRoundTripIff`, `RoundTripIff`).
- A certificate cache of capacity zero or less keeps one certificate, so it behaves as one of
  capacity one (`CacheIsMostRecent`).

## Model

| member | source | states |
|---|---|---|
| SchemaInference.InferredSchemaIsSound | internal/learn/openapi.go:238-320 | every sample conforms to the schema inferred from the set of samples, at every depth, with oneOf meaning exactly one |
| SchemaInference.InferredSchemaIsTight | internal/learn/openapi.go:238-320 | the schema is an object (array) schema exactly when all samples are; a key is required exactly when every sample has it, and every listed type has a witness |
| SchemaInference.LeastIffDetermined | internal/learn/openapi.go:238-320 | the inferred schema accepts nothing that another schema of the samples rejects, at every depth, if and only if the samples have a value wherever it speaks |
| SchemaInference.UndeterminedIsNotLeast | internal/learn/openapi.go:310-315 | arrays empty in all samples, at any depth, let a value through that another schema of the samples rejects |
| SchemaInference.Kinds | internal/learn/openapi.go:242-251 | the loop finds whether all samples are objects and whether all are arrays |
| SchemaInference.ValueTypeMeans | internal/learn/openapi.go:366-384 | what each type name stands for: integers are the values of a signed 64-bit integer, other numbers are "number", nil is a "string" |
| SchemaInference.UniqueTypes | internal/learn/openapi.go:353-364 | the types of the samples, each once, sorted, whatever the order of the samples |
| SchemaInference.CollectProperties | internal/learn/openapi.go:269-285 | the loop gathers, per key, exactly the values found under it and whether every object had it |
| SchemaInference.InferSchemaValue | internal/learn/openapi.go:238-267 | the inferred schema depends only on the set of samples |
| SchemaInference.InferObjectSchema | internal/learn/openapi.go:269-302 | the object branch gives the schema of the sample set, required keys included |
| SchemaInference.InferArraySchema | internal/learn/openapi.go:304-320 | the array branch gives the schema of the sample set, pooling the elements of all arrays |
| SchemaInference.InferSchemaFromSamples | internal/learn/openapi.go:225-236 | nil samples are dropped; none left gives a bare object schema |
| LearnedSpec.LearnedSpecSound | internal/learn/openapi.go:33-131 | every observation with a method is described at its own path and method, its response at its recorded status or at 200 without one, if and only if no two observations clash on their key |
| LearnedSpec.OperationsAreObserved | internal/learn/openapi.go:33-117 | an operation is there exactly if its method and path were observed, and its count, security and request schema are those of just these observations |
| LearnedSpec.ResponsesAreObserved | internal/learn/openapi.go:61-67 | an operation has a status exactly if a body was recorded with it, and its schema is that of exactly the bodies so recorded |
| LearnedSpec.SpacelessMethodsDoNotClash | internal/learn/openapi.go:36-41 | methods without a space never clash |
| LearnedSpec.SecondIsLost | internal/learn/openapi.go:41-52 | of any two observations that share a key but not method and path, the second is not described at its own place |
| LearnedSpec.KeysCanClash | internal/learn/openapi.go:41 | a method with a space can share its key with another method and path, and then one observation is not described |
| LearnedSpec.Aggregated | internal/learn/openapi.go:34-66 | the grouping loop files every observation under its key, with all non-null bodies by status |
| LearnedSpec.BuildResponses | internal/learn/openapi.go:184-211 | each status gets the schema of exactly its own bodies, nil ones dropped, and no content without bodies |
| LearnedSpec.BuildOperation | internal/learn/openapi.go:92-116 | an operation describes its whole group: count, security, request and responses |
| LearnedSpec.Assemble | internal/learn/openapi.go:81-117 | the second loop places one operation per group and notes whether any is secured |
| LearnedSpec.BuildOpenAPISpec | internal/learn/openapi.go:33-131 | the specification has exactly the operations of the groups, each describing its group, and security exactly if some request was authorized |
| TokenBucket.Bucket.Allow | internal/proxy/ratelimit.go:29-45 | the bucket refills, caps and spends as its level function says |
| TokenBucket.BucketIsWithinWindows | internal/proxy/ratelimit.go:29-45 | between any two arrivals the bucket admits at most capacity plus rate times elapsed time |
| TokenBucket.SurplusWithinLead | internal/proxy/ratelimit.go:29-45 | a rival's token surplus never exceeds the bucket's lead in admissions |
| TokenBucket.BucketIsOptimal | internal/proxy/ratelimit.go:29-45 | no policy within all windows has admitted more at any prefix of any arrival sequence |
| RateLimiter.BucketKeyInjective | internal/pluginrt/builtins/rate_limiter.go:150-165 | bucket keys tell rules and derived keys apart |
| RateLimiter.Limiter.GetBucket | internal/pluginrt/builtins/rate_limiter.go:100-114 | a bucket is created full at first use and never shared |
| RateLimiter.Limiter.OnRequest | internal/pluginrt/builtins/rate_limiter.go:150-179 | rules are asked in order up to the first that rejects; the answer has its status, 429 by default, with Retry-After and text |
| RateLimiter.RunEffect | internal/pluginrt/builtins/rate_limiter.go:150-179 | one request has on one bucket the effect of a single allow, or none |
| RateLimiter.BucketFollowsTouches | internal/pluginrt/builtins/rate_limiter.go:52-71 | each bucket in the map is a token bucket over just the requests that reached it |
| RateLimiter.ForwardedWithinWindow | internal/pluginrt/builtins/rate_limiter.go:52-179 | for every rule, derived key and stretch of arrivals, the forwarded requests number at most burst plus rate times duration |
| RateLimiter.SameBucketIff | internal/pluginrt/builtins/rate_limiter.go:117-147 | with a rule per address two known addresses share a bucket exactly if they are equal, with a rule per path two paths; a global rule has one bucket |
| RateLimiter.SameHeaderBucketIff | internal/pluginrt/builtins/rate_limiter.go:132-138 | with a rule per header two requests that have it share a bucket exactly if its values are equal |
| RateLimiter.AppliesIff | internal/pluginrt/builtins/rate_limiter.go:154-156 | a rule applies to just the paths in which its filter stands |
| RateLimiter.HostWithinWindow | internal/pluginrt/builtins/rate_limiter.go:117-179 | a rule per address keeps each host by itself to the burst and what the rate gives in the time |
| RateLimiter.OtherHostsDoNotCount | internal/pluginrt/builtins/rate_limiter.go:117-179 | a request from another host leaves a host's bucket as it is |
| ProxyLimiter.Limiter.Allow | internal/proxy/ratelimit.go:68-83 | answers come from the client's own bucket, created at first use; everything passes without a rate |
| ProxyLimiter.Limiter.Acquire | internal/proxy/ratelimit.go:85-98 | a slot is taken exactly while fewer than the maximum are held |
| ProxyLimiter.Limiter.Release | internal/proxy/ratelimit.go:100-112 | a slot is given back and the client forgotten at zero |
| ProxyLimiter.Limiter.Update | internal/proxy/ratelimit.go:114-125 | new limits start with no buckets and no held slots |
| ProxyLimiter.ClientRunIsOptimal | internal/proxy/ratelimit.go:20-45 | between updates a client's answers stay within the limit and the limit again for each second of a window, and are greedily optimal |
| ContractValidation.CheckParameters | internal/contracts/validate.go:137-162 | no diagnostic exactly when the parameters are valid and their keys distinct |
| ContractValidation.CheckOperation | internal/contracts/validate.go:106-176 | no diagnostic exactly on valid operations |
| ContractValidation.CheckEndpoints | internal/contracts/validate.go:75-96 | no diagnostic exactly when all endpoints are valid and their paths distinct |
| ContractValidation.Validate | internal/contracts/validate.go:51-104 | no diagnostic exactly on the valid contracts; a nil contract has one |
| OpenApiDocument.SchemeNamesDiffer | internal/contracts/openapi.go:273 | scheme names of different list positions differ |
| OpenApiRules.ExportedSchemeOk | internal/contracts/openapi.go:274-290 | every exported scheme is well-formed and asks for the credential meant: the header X-API-Key, the HTTP scheme or bearer, a token, a certificate |
| OpenApiRules.TableOk | internal/contracts/openapi.go:65-77 | every entry of the exported scheme table is well-formed |
| OpenApiRules.SecurityResolves | internal/contracts/openapi.go:265-298 | every name in a security requirement of the document is in its table |
| OpenApiRules.ParameterOkIff | internal/contracts/openapi.go:199-215 | a parameter is valid exactly when its exported form obeys the rules |
| OpenApiRules.KeysDifferIff | internal/contracts/validate.go:150-155 | the keys "in:name" tell valid parameters apart exactly when place and name do |
| OpenApiRules.PathParamsIff | internal/contracts/validate.go:107-113 | the names required of a path are exactly those that stand in it in braces |
| OpenApiRules.StatusCodeIff | internal/contracts/validate.go:24 | the status pattern is that of the numbers from 100 to 599, or "default" |
| OpenApiRules.ExportedRequestBodyOk | internal/contracts/openapi.go:217-234 | an exported request body is required and has content by media type |
| OpenApiRules.OperationOkIff | internal/contracts/openapi.go:43-70 | an exported operation obeys the rules exactly when its parameters and responses are valid |
| OpenApiRules.OptionalParts | internal/contracts/openapi.go:28-36 | servers and components are written only when there are some |
| OpenApiRules.OptionalOperationParts | internal/contracts/openapi.go:44-69 | so are an operation's texts, parameters, body, examples and security |
| OpenApiRules.ExportedContentOk | internal/contracts/openapi.go:217-228 | content is under the type of the body, or under JSON if it names none |
| OpenApiRules.MethodKeyIff | internal/contracts/validate.go:117-122 | a method key is valid exactly when import knows it in lower case, white space around it aside |
| OpenApiRules.DocumentOkIff | internal/contracts/openapi.go:13-80 | a valid contract is exported to a document that obeys the rules exactly when its method keys are clean |
| OpenApiImport.EndpointsRead | internal/contracts/openapi.go:162-196 | of any document, the endpoints are the paths whose items are objects with a supported method, with the operations found there |
| OpenApiImport.OperationsRead | internal/contracts/openapi.go:180-188 | a path item gives an operation for just the supported methods that it has, each from its own key |
| OpenApiImport.LeastTypeRead | internal/contracts/openapi.go:380-395 | of several media types the least one is read |
| OpenApiImport.MediaRead | internal/contracts/openapi.go:395-413 | a schema is read if it is an object, and of the examples the objects |
| OpenApiImport.ParameterRead | internal/contracts/openapi.go:314-331 | missing or ill-typed texts read as empty, and a parameter is required only if the document says true |
| OpenApiImport.OperationRead | internal/contracts/openapi.go:300-313 | texts are read from their keys, and what is no object reads as an empty operation |
| OpenApiImport.ReadsInOrder | internal/contracts/openapi.go:314-333 | list items are read one by one, in order |
| OpenApiImport.RequirementRead | internal/contracts/openapi.go:417-453 | a named requirement is read through the scheme's type, and only four types are known |
| OpenApiImport.ServerRead | internal/contracts/openapi.go:130-147 | a server is read exactly if it is an object with a URL that is not blank |
| OpenApiImport.HeadRead | internal/contracts/openapi.go:111-129 | whatever the document, version, title and API version are there and not blank |
| OpenApiLoops.ExportSecurityLoop | internal/contracts/openapi.go:265-298 | the loop gives the requirements in order and the schemes by position |
| OpenApiLoops.ExportEndpoint | internal/contracts/openapi.go:38-72 | one path item, its schemes added to the document's |
| OpenApiLoops.ExportOpenAPI31 | internal/contracts/openapi.go:13-80 | the exported document, scheme table included |
| OpenApiLoops.ImportPathItemLoop | internal/contracts/openapi.go:179-188 | the operations found under the supported methods |
| OpenApiLoops.ImportPathsLoop | internal/contracts/openapi.go:168-196 | the endpoints in path order, those without operations dropped |
| OpenApiLoops.ImportOpenAPI31 | internal/contracts/openapi.go:97-197 | the imported contract; a missing document is an error |
| OpenApiRoundTrip.ImportOfExport | internal/contracts/openapi.go:13-453 | import of export is the contract's normal form, whatever schemes collide or method keys differ in case |
| OpenApiTheorems.RoundTripIffCanonical | internal/contracts/openapi.go:13-453 | the contract comes back with sorted endpoints if and only if it is canonical |
| OpenApiTheorems.ValidRoundTrip | internal/contracts/validate.go:51-176 | a valid canonical contract comes back and validates again |
| OpenApiTheorems.SortedIsPermutation | internal/contracts/openapi.go:168-196 | sorting endpoints by path loses and adds none |
| OpenApiTheorems.ExportImportIdempotent | internal/contracts/openapi.go:13-453 | applying export and import twice equals applying it once |
| PluginRuntime.Runtime.Register | internal/pluginrt/runtime.go:37-47 | a new name gets a fresh entry at the end of the list; a known one changes nothing |
| PluginRuntime.Runtime.StartDrain | internal/pluginrt/runtime.go:49-64 | the entry is marked draining and its name leaves the list; an unknown name changes nothing |
| PluginRuntime.Runtime.TryFinish | internal/pluginrt/runtime.go:65-69 | the name is deleted exactly when nothing is in flight |
| PluginRuntime.Runtime.BeginUse | internal/pluginrt/runtime.go:152-161 | a use begins exactly when the plugin is there and not draining |
| PluginRuntime.Runtime.EndUse | internal/pluginrt/runtime.go:163-174 | the count goes down, and waiters are woken exactly when a draining entry reaches zero |
| PluginRuntime.StepKeepsSafe | internal/pluginrt/runtime.go:37-175 | every action of serialized callers keeps counts, listing, waiters and finished entries right |
| PluginRuntime.ReachableIsSafe | internal/pluginrt/runtime.go:37-175 | in every run the in-flight count equals the uses not yet done, the list is exactly the non-draining plugins in registration order, and no waiter sleeps over an idle entry |
| PluginRuntime.UnregisterReturns | internal/pluginrt/runtime.go:65-69 | an Unregister that leaves its wait has finished an entry that nobody uses |
| PluginRuntime.UnregisterReturnsAtOnce | internal/pluginrt/runtime.go:49-70 | an Unregister returns without waiting exactly when nobody uses the entry |
| PluginRuntime.NoHookAfterUnregister | internal/pluginrt/runtime.go:93-175 | once Unregister has returned, no run is ever again inside a hook of that entry |
| PluginRuntime.DrainOnlyShrinks | internal/pluginrt/runtime.go:152-175 | the uses of a draining entry only shrink, and each done shrinks them |
| PluginRuntime.IdleWaiterReturns | internal/pluginrt/runtime.go:65-69 | a waiter over an idle entry is awake and returns with its next step |
| PluginRuntime.VisitsSnapshot | internal/pluginrt/runtime.go:93-120 | over every run, after k turns the names from position k of the list at the snapshot are left, and the hooks entered are, in order, those of the visited names that were registered and not draining at their turn |
| PluginRuntime.ReturnsWhenVisited | internal/pluginrt/runtime.go:99-120 | a run returns only when it has visited every name or a hook has failed, and can always go on until then |
| PluginRuntime.OverlapLosesAPlugin | internal/pluginrt/runtime.go:49-70 | from every safe state, an overlapping Unregister has a continuation that leaves a listed plugin missing from the table |
| PluginRuntime.PromisedIffSerialized | internal/pluginrt/runtime.go:49-70 | listing, counts, finished entries and waiters stay right in every continuation of an action if and only if it does not overlap a pending Unregister of its name |
| PluginRuntime.OverlappingUnregistersLoseAPlugin | internal/pluginrt/runtime.go:68 | one running hook and two calls are enough for it |
| Breakpoints.StepKeepsSafe | internal/breakpoints/manager.go:286-332 | every guarded step keeps table, entries, pauses and resumes consistent and closes no channel twice |
| Breakpoints.RunKeepsSafe | internal/breakpoints/manager.go:286-332 | the invariant holds in every interleaving |
| Breakpoints.ReturnsOnce | internal/breakpoints/manager.go:306-318 | a Pause that returned stays returned with its result, and its entry stays gone |
| Breakpoints.ReturnedDecision | internal/breakpoints/manager.go:306-332 | a returned decision is that of the one Resume that found the entry |
| Breakpoints.NothingLeftBehind | internal/breakpoints/manager.go:306-318 | when every Pause has returned the table is empty |
| Breakpoints.ResultFollowsWake | internal/breakpoints/manager.go:306-318 | a Pause that woke to a closed channel returns the decision, one whose context ended returns that error |
| Breakpoints.ResumeReachesPause | internal/breakpoints/manager.go:286-332 | from every safe state a Resume for a waiting Pause finds it and can hand its decision over |
| Breakpoints.PauseProgress | internal/breakpoints/manager.go:306-318 | a Pause whose channel is closed can always go on and returns after at most three steps of its own |
| Breakpoints.PanicsIffClosedTwice | internal/breakpoints/manager.go:321-332 | in every run, guarded or not, a closed channel is closed again exactly if two Resumes closed it |
| Breakpoints.SecondResumeCanPanic | internal/breakpoints/manager.go:321-332 | from every safe state, a second Resume that finds an entry has a continuation to the panic |
| Breakpoints.PromisedIffGuarded | internal/breakpoints/manager.go:286-332 | table, pauses and freedom from panic last through every continuation of an action if and only if it keeps IDs distinct and entries reached once |
| Breakpoints.SecondResumePanics | internal/breakpoints/manager.go:330 | two Resumes that reach one entry close its channel twice |
| Breakpoints.SharedIdStrandsAPause | internal/breakpoints/manager.go:286-332 | with a shared ID one Pause takes the other's entry away |
| PauseOutcome.PauseRequest | internal/engine/engine.go:219-279 | drop and respond need an explicit decision; on expiry or no decision the request goes on unchanged; edits and synthetic responses are exactly the decision's |
| PauseOutcome.PauseResponse | internal/engine/engine.go:282-328 | the same for responses, where forwarding edits nothing |
| PauseOutcome.OutcomeIsTheUsers | internal/engine/engine.go:219-328 | over every interleaving, a request is dropped, answered or edited only if the one Resume that found it said so |
| WebSocketRelay.StepKeepsSafe | internal/proxy/websocket.go:102-187 | every step keeps both lanes, both once-guards, the error channel and shutdown consistent |
| WebSocketRelay.RecordedAsReceived | internal/proxy/websocket.go:121-171 | frames are offered for recording as delivered, in order, short of at most one |
| WebSocketRelay.RelayedInOrder | internal/proxy/websocket.go:154-173 | close frames aside, the frames written are a prefix of those recorded, short of at most one |
| WebSocketRelay.AtMostOneClose | internal/proxy/websocket.go:132-141 | at most one close frame is forwarded in the relay's life |
| WebSocketRelay.ReportNeverBlocks | internal/proxy/websocket.go:145-152 | a lane about to report its error finds room in the channel |
| WebSocketRelay.StopWakesMain | internal/proxy/websocket.go:177-184 | when a lane has stopped the main routine can leave its select |
| WebSocketRelay.ReturnsAfterBothStop | internal/proxy/websocket.go:184-186 | the relay returns only after both lanes stopped |
| WebSocketRelay.StopsSoon | internal/proxy/websocket.go:154-186 | after shutdown a lane makes at most seven more steps of its own |
| WebSocketRelay.NoDeadlock | internal/proxy/websocket.go:145-173 | a lane waits only for the other one, and then that one can move |
| WebSocketRelay.MainFollows | internal/proxy/websocket.go:177-186 | with both lanes stopped the main routine runs to its end |
| WebSocketRelay.FailureEndsLane | internal/proxy/websocket.go:145-186 | in every run, after a failed read or write a lane neither reads, records nor writes again, is stopped after at most three more steps, and then the relay is cancelled and the main routine can leave its select |
| WebSocketRelay.FailureCanEndRelay | internal/proxy/websocket.go:145-187 | from the failure of a lane the relay can run to its end without its peers, whatever else is going on |
| WebSocketRelay.NothingAfterClose | internal/proxy/websocket.go:130-142 | a lane reads nothing after a close frame |
| WebSocketRelay.CancelledReadsOne | internal/proxy/websocket.go:156-160 | once the relay is cancelled a lane takes at most the data message that it is already reading |
| WebSocketRelay.FrameCanPass | internal/proxy/websocket.go:121-171 | while the connections are open any frame can be recorded and written to the peer |
| RecencyList.Recency.Find | internal/proxy/cert_lru.go:29-38 | a key leads to its element exactly when the list holds it |
| RecencyList.Recency.MoveToFront | internal/proxy/cert_lru.go:36 | the element moves to the front, the others keep their order, map and list stay in bijection |
| RecencyList.Recency.Remove | internal/pluginrt/builtins/caching.go:112-114 | exactly that key leaves list and map |
| RecencyList.Recency.Store | internal/proxy/cert_lru.go:40-57 | a known key is updated in place and promoted, else the oldest makes room at capacity |
| RecencyList.LookupPut | internal/proxy/cert_lru.go:40-57 | storing answers the new key and changes no other answer except by eviction |
| CertLru.CertLru.Get | internal/proxy/cert_lru.go:29-38 | the cached certificate, promoted, or none and no change |
| CertLru.CertLru.Put | internal/proxy/cert_lru.go:40-57 | the certificate is stored in front, with eviction at capacity |
| CertLru.CertLru.CertForHost | internal/proxy/cert.go:133-176 | a hit returns the cached certificate, a miss issues and stores one, a failure changes nothing |
| CertLru.LatestIsNewestFirst | internal/proxy/cert_lru.go:29-57 | the reference list is ordered by decreasing time of last use |
| CertLru.LatestMembers | internal/proxy/cert_lru.go:29-57 | the reference list holds each used host once |
| CertLru.CacheIsMostRecent | internal/proxy/cert.go:133-176 | after any calls the cache holds exactly the most recently served distinct hosts up to capacity, in order |
| CertLru.CachedWasReturned | internal/proxy/cert.go:133-176 | a cached certificate is the one its host was last served |
| CertLru.HitIff | internal/proxy/cert_lru.go:29-57 | a call is a hit exactly when fewer distinct hosts than the capacity were served since the host's last use |
| CertLru.SmallerIsPrefix | internal/proxy/cert_lru.go:29-57 | when no issuing fails, a smaller cache's hosts are a prefix of a larger one's on the same calls |
| ResponseCache.CachingPlugin.MethodAllowed | internal/pluginrt/builtins/caching.go:71-85 | the loop finds exactly the configured methods, GET and HEAD by default |
| ResponseCache.CachingPlugin.OnRequest | internal/pluginrt/builtins/caching.go:98-133 | a live entry is promoted and served, an expired one removed |
| ResponseCache.CachingPlugin.OnResponse | internal/pluginrt/builtins/caching.go:135-183 | a 2xx response of an allowed method is stored with its expiry, anything else changes nothing |
| ResponseCache.KeysTellApartIffNoClash | internal/pluginrt/builtins/caching.go:94-96 | cache keys tell requests apart exactly when no cached method extends another by a colon |
| ResponseCache.CachedIsLatest | internal/pluginrt/builtins/caching.go:98-183 | whatever is cached for a request is its latest storable reply |
| ResponseCache.HitIsLatestAndFresh | internal/pluginrt/builtins/caching.go:98-133 | every hit is the latest 2xx reply for that method and URL and has not expired |
| ResponseCache.HitMeans | internal/pluginrt/builtins/caching.go:57-133 | every hit answers a cacheable method with the last reply of status 200 to 299 received for that very method and URL, within the configured time or five minutes |
| ResponseCache.SuccessIsServed | internal/pluginrt/builtins/caching.go:57-183 | such a reply is served from then on, just as long as it lives |
| ResponseCache.OthersAreNotStored | internal/pluginrt/builtins/caching.go:135-141 | other methods and other statuses leave the cache as it was |
| ResponseCache.WrongHit | internal/pluginrt/builtins/caching.go:94-133 | with clashing methods, a reply for one of them is served to the other |
| ResponseCache.HitsAreLatestIffNoClash | internal/pluginrt/builtins/caching.go:94-183 | every hit of every run is the latest unexpired reply for its method and URL if and only if no cached method extends another by a colon |
| ResponseCache.SizeWithinCapacity | internal/pluginrt/builtins/caching.go:162-176 | the cache never exceeds its capacity |
| ResponseCache.AnswersLikeUnbounded | internal/pluginrt/builtins/caching.go:98-183 | if all keys ever stored fit, the cache answers exactly as a map that forgets only by time |
| GrpcFrames.FirstOfEncoded | internal/proxy/grpc.go:87-101 | an encoded message is read back, whatever follows it |
| GrpcFrames.FirstEncodes | internal/proxy/grpc.go:87-101 | what is read as a message is its encoding |
| GrpcFrames.ParsedIsLongest | internal/proxy/grpc.go:86-110 | any messages that encode to a prefix of the body are the first of those parsed |
| GrpcFrames.DecompositionIsUnique | internal/proxy/grpc.go:86-110 | a body has at most one decomposition into messages |
| GrpcFrames.WellFormedIff | internal/proxy/grpc.go:86-110 | a body is a concatenation of messages exactly when parsing leaves nothing over |
| GrpcFrames.ReadHeader | internal/proxy/grpc.go:87-101 | the checks of one turn accept exactly a complete message with a valid flag |
| GrpcFrames.LengthsAt | internal/proxy/grpc.go:106-108 | the recorded lengths are those of the messages |
| GrpcFrames.StoredAre | internal/proxy/grpc.go:106-108 | the first sixteen lengths are kept, or all if there are fewer |
| GrpcFrames.Summarize | internal/proxy/grpc.go:77-112 | count, compressed count and first sixteen lengths describe the longest well-formed prefix; the error is empty exactly on well-formed bodies and names the byte where the prefix ends |
| RewriteRules.RequestEdits | internal/rewrite/rules.go:94-106 | what add, remove and replace do to the values of every header, whose token names count regardless of case |
| RewriteRules.ResponseEdits | internal/rewrite/rules.go:159-171 | the same for response headers |
| RewriteRules.BodyEdits | internal/rewrite/rules.go:107-112 | a body is replaced by a template that is not empty, and by nothing else |
| RewriteRules.CanonicalForm | internal/rewrite/rules.go:97 | the stored form of a header name: a capital at the start and after each hyphen |
| RewriteRules.NoCriteria | internal/rewrite/rules.go:15-21 | a rule without criteria matches whenever it is enabled |
| RewriteRules.UrlCriterion | internal/rewrite/rules.go:22-24 | a rule on a URL pattern matches exactly the URLs in which the pattern stands, in both phases |
| RewriteRules.MethodCriterion | internal/rewrite/rules.go:25-27 | a rule on a method matches it in any case, and no other |
| RewriteRules.StatusCriterion | internal/rewrite/rules.go:58-60 | a rule on a status matches that status in the response phase, and any request |
| RewriteRules.HeaderCriterion | internal/rewrite/rules.go:28-36 | a rule on a header matches exactly if its first value is there and not empty and has the wanted text somewhere in it |
| RewriteRules.BodyCriterion | internal/rewrite/rules.go:37-39 | a rule on a body pattern matches exactly the bodies in which the pattern stands |
| RewriteRules.CriteriaTogether | internal/rewrite/rules.go:14-71 | a rule with several criteria matches exactly when each alone would |
| RewriteRules.BlocksUrl | internal/rewrite/rules.go:88-150 | a request is blocked with 403 by a rule on a URL pattern exactly when the pattern stands in its URL |
| RewriteRules.TerminalAnswers | internal/rewrite/rules.go:113-145 | the answer of the rule that fires: 302 with Location, 403, or the configured status, 200 by default, with body and content type |
| RewriteRules.HeaderNamesIgnoreCase | internal/rewrite/rules.go:95-106 | token names mean the same header exactly when they differ in case only |
| RewriteRules.SortedRules | internal/rewrite/rules.go:182-189 | a permutation ascending by priority |
| RewriteRules.ApplyRequestRule | internal/rewrite/rules.go:91-147 | one rule edits the request or answers it, if it matches the request as edited so far |
| RewriteRules.ApplyRequestRules | internal/rewrite/rules.go:88-150 | the rules run in a sorted order up to the first that answers |
| RewriteRules.ApplyResponseRules | internal/rewrite/rules.go:153-179 | the response rules run in a sorted order, editing headers and body |
| RewriteRules.AnswersIff | internal/rewrite/rules.go:88-150 | a synthetic response comes exactly from the first rule that, reached by the edits before it, is terminal |
| RewriteRules.RequestInert | internal/rewrite/rules.go:14-17 | disabled rules and response rules change nothing in the request phase |
| RewriteRules.ResponseInert | internal/rewrite/rules.go:44-47 | disabled rules and request rules change nothing in the response phase |
| RewriteRules.OneOrderIffTiesAgree | internal/rewrite/rules.go:182-189 | sorting leaves one order exactly when rules of equal priority are equal |
| RewriteRules.OutcomeOrderIndependent | internal/rewrite/rules.go:88-189 | if rules of equal priority are equal, as with distinct priorities, the outcome is the same for every permutation of the rules |
| RewriteRules.DeletionHarmless | internal/rewrite/rules.go:88-189 | for either phase, deleting rules that do nothing in it or come after one that answered changes no outcome |
| RewriteRules.RequestDeletionHarmless | internal/rewrite/rules.go:88-150 | a request is treated alike without its disabled rules, its response rules and the rules after the one that answered |
| RewriteRules.ResponseDeletionHarmless | internal/rewrite/rules.go:153-179 | a response is treated alike without its disabled rules and its request rules |
| RewriteRules.EqualPrioritiesMatter | internal/rewrite/rules.go:182-189 | rules of equal priority can run in two orders with different results |
| CircuitBreaker.Breaker.OnRequest | internal/pluginrt/builtins/circuit_breaker.go:122-145 | who gets through, and the state after it |
| CircuitBreaker.Breaker.OnResponse | internal/pluginrt/builtins/circuit_breaker.go:161-193 | the state after a response |
| CircuitBreaker.Plugin.OnRequest | internal/pluginrt/builtins/circuit_breaker.go:112-146 | only the breaker of a covered host moves; other hosts pass, and a blocked request gets the synthetic 503 |
| CircuitBreaker.Plugin.OnResponse | internal/pluginrt/builtins/circuit_breaker.go:151-194 | only the breaker of a covered host moves |
| CircuitBreaker.HostsAreIndependent | internal/pluginrt/builtins/circuit_breaker.go:95-107 | a host's breaker is what its own events make it |
| CircuitBreaker.HistoryHolds | internal/pluginrt/builtins/circuit_breaker.go:112-194 | in every run the counters equal what happened since the phase began and stay below their thresholds |
| CircuitBreaker.OpensExactly | internal/pluginrt/builtins/circuit_breaker.go:164-173 | a closed breaker opens exactly when the trailing run of 5xx responses reaches the threshold |
| CircuitBreaker.ClosesExactly | internal/pluginrt/builtins/circuit_breaker.go:175-191 | a probing breaker closes exactly at the threshold of consecutive other responses and reopens at any 5xx |
| CircuitBreaker.OpenRejectsUntilTimeout | internal/pluginrt/builtins/circuit_breaker.go:123-132 | an open breaker admits exactly from the timeout after the failure that opened it |
| CircuitBreaker.OpenStaysOpen | internal/pluginrt/builtins/circuit_breaker.go:112-194 | nothing before the deadline moves an open breaker, and every request is rejected |
| CircuitBreaker.ResponseBetweenProbes | internal/pluginrt/builtins/circuit_breaker.go:134-142 | any two requests admitted in one probing phase have a response between them |
| CircuitBreaker.NeverOpensWithoutErrors | internal/pluginrt/builtins/circuit_breaker.go:161-175 | while no response is a server error a breaker stays closed and lets everything pass |
| CircuitBreaker.ErrorsAddUp | internal/pluginrt/builtins/circuit_breaker.go:60-75 | a breaker that sees only server errors is closed until their number reaches the limit, five by default |
| CircuitBreaker.LimitOpens | internal/pluginrt/builtins/circuit_breaker.go:60-80 | the error that reaches the limit opens it, and it rejects for just the timeout, thirty seconds by default |
| CircuitBreaker.LimitCloses | internal/pluginrt/builtins/circuit_breaker.go:67-72 | from the first probe on, as many successes as the limit says, two by default, close it |
| CircuitBreaker.SuccessesAddUp | internal/pluginrt/builtins/circuit_breaker.go:175-191 | and no fewer do |
| CurlCommand.HeaderParts | apix-vscode/src/trafficFormats.ts:56-62 | every header but Content-Length is printed, in the order given |
| CurlCommand.BuildCurlCommand | apix-vscode/src/trafficFormats.ts:48-71 | the command is the intended arguments, printed and joined |
| CurlCommand.QuotedIsOneWord | apix-vscode/src/trafficFormats.ts:3-5 | a quoted value is one shell word with exactly its characters, quotes and newlines included |
| CurlCommand.SplitJoined | apix-vscode/src/trafficFormats.ts:70 | splitting the joined command gives the arguments back |
| CurlCommand.SafeIsUndone | apix-vscode/src/trafficFormats.ts:48-71 | with a safe method, printing is undone for every URL, header map and body |
| CurlCommand.UndoneIffSafe | apix-vscode/src/trafficFormats.ts:52-54 | for methods of token characters, printing is undone exactly when the method needs no quotes |
| CurlCommand.CommandSays | apix-vscode/src/trafficFormats.ts:48-71 | the shell gets curl, the method unless it is GET, the headers, the body unless it is empty, and the URL, in that order |
| CurlCommand.HeaderPairs | apix-vscode/src/trafficFormats.ts:56-62 | each kept header is a flag and its name, a colon, a space and its value |
| CurlCommand.AmpersandIsLost | apix-vscode/src/trafficFormats.ts:52-54 | a method with an ampersand never comes back as intended |
| Base64.DecodeEncode | internal/har/har.go:309-311 | base64 decoding undoes encoding, and only no bytes give the empty text |
| Base64.Alphabet | internal/har/har.go:309 | the digits are those of standard base64 |
| Base64.DecodesIff | internal/har/har.go:327 | a text can be decoded exactly if it is well padded and has no foreign character |
| Base64.NewlinesIgnored | internal/har/har.go:327 | line ends anywhere in a base64 text do not matter |
| Base64.IsUtf8Iff | internal/har/har.go:305 | a body counts as text exactly if it is the encoding of some scalar values |
| Har.MapToHar | internal/har/har.go:248-262 | the headers as pairs in name order |
| Har.MapFromHar | internal/har/har.go:264-276 | later pairs win and nameless ones are skipped |
| Har.HeaderValue | internal/har/har.go:336-343 | some value under a name that differs in case only, else empty |
| Har.SetMissingHeader | internal/har/har.go:345-355 | a header is added exactly if none of that name is there |
| Har.BodyRoundTrip | internal/har/har.go:300-334 | every body is restored, as text or as base64 |
| Har.BodyExported | internal/har/har.go:300-312 | a valid text is exported as it is and anything else in base64, so that the exported text is always valid |
| Har.BodyDecoded | internal/har/har.go:322-334 | a body is decoded if its encoding reads base64 in any case, failing exactly on bad base64, and taken as it is otherwise |
| Har.HeadersRoundTrip | internal/har/har.go:248-276 | every header with a name is restored |
| Har.NoHeaderInvented | internal/har/har.go:203-227 | the Content-Type fill-in adds nothing, whichever spelling was exported |
| Har.ExportEntry | internal/har/har.go:136-185 | the entry of a pair of records |
| Har.ParseEntry | internal/har/har.go:187-242 | the records of an entry, or the error for a missing URL or bad base64 |
| Har.EntryRoundTripIff | internal/har/har.go:136-276 | a pair of records comes back under its new identifier if and only if it is restorable |
| Har.MarshalTransactions | internal/har/har.go:89-113 | unequal counts are an error; else the entries of the requests that are there, in order |
| Har.ParseTransactions | internal/har/har.go:116-134 | a missing version is an error; else entries are imported in order up to the first that fails |
| Har.RoundTripIff | internal/har/har.go:89-134 | all records come back, in order and under new linked identifiers, if and only if each is restorable |

## Left out

- User interface panels, terminal interface, command line and RPC plumbing: input and output.
- Sockets, TLS, HTTP/2, certificate cryptography, JWT validation, metrics, logging and audit: foreign calls; issued certificates are abstract values.
- SQLite storage and migrations: SQL semantics outside the code.
- Regular expressions, URL parsing, `NormalizePath`, and the text syntax of JSON, YAML and RFC 3339: the models start from their results.
- Rule management of the breakpoint manager (AddRule, RemoveRule, evaluate): validation and matching are settled branch by branch, and matching is by regular expression; `PauseRequest` takes its result as a parameter.
- Delivery of paused entries to subscribers, liveness of a probe whose upstream never answers, and concurrency counts across a limiter update: the code does not guarantee these.
- Config loading, header editor, mock response, environment substitution, policy engine, fault injection, latency modifier and GraphQL metadata: easy members only.
- internal/server/ratelimit.go is a copy of the proxy's token bucket.
- Wall clocks and rounding: times are parameters and token counts are reals. One clock reading serves all rules that a request asks, and one the creation and first use of a bucket.
- ProxyLimiter.Limiter.Allow: takes the client as `normalizeClientIP` gives it, because splitting an address is library code; a nil limiter, which lets everything pass, is not modelled.
- ProxyLimiter.Limiter.Acquire: takes the client as `normalizeClientIP` gives it; a nil limiter is not modelled.
- ProxyLimiter.Limiter.Release: takes the client as `normalizeClientIP` gives it; a nil limiter is not modelled.
- RateLimiter.Limiter.OnRequest: does not model the standard text of the rejection status, which is a library table.
- LearnedSpec.Aggregated: does not keep path parameters and query samples, because no schema of a body depends on them.
- LearnedSpec.BuildOperation: does not model parameters and the summary text, for the same reason.
- LearnedSpec.BuildOpenAPISpec: does not model path and query parameters, nor the fixed texts of title, summary and security scheme, because they are filled in branch by branch.
- SchemaInference.UniqueTypes: the conversion of a float64 beyond the int64 range is taken not to give the number back, which is how amd64 behaves; the language leaves it open.
- OpenApiLoops.ExportOpenAPI31: does not model diagnostics, because they do not influence the document; conversions of single elements (parameters, examples, media types) are functions of `OpenApiDocument`.
- OpenApiLoops.ImportOpenAPI31: does not model diagnostics; the names of a security requirement with several schemes, which the program visits in map order, are visited in sorted order.
- OpenApiLoops.ExportSecurityLoop: does not model the diagnostic for a dropped auth type.
- OpenApiLoops.ImportPathsLoop: does not model the diagnostics for skipped paths.
- ContractValidation.CheckParameters: states whether there is a diagnostic, not which, because validity is what the round trip needs.
- ContractValidation.CheckOperation: states whether there is a diagnostic, not which.
- ContractValidation.CheckEndpoints: states whether there is a diagnostic, not which.
- ContractValidation.Validate: states whether there is a diagnostic, not which; their sorting and exact texts are not modelled.
- Nil and empty slices or maps are one value.
- Case mapping and folding are exact for ASCII and the few other characters that map to ASCII letters.
- CertLru.CertLru.CertForHost: models calls one after another; two concurrent misses for one host, each issuing a certificate, are not modelled.
- ResponseCache.CachingPlugin.OnResponse: does not model a failing read of the response body, which returns an error and stores nothing.
- PluginRuntime.ReachableIsSafe: the work inside a hook, its result and recovered panics are not modelled; a run may return between any two hooks, which covers hook errors.
- WebSocketRelay.StopsSoon: takes from the library that writes to a closed connection fail and that reads and timed control writes return.
- GrpcFrames.Summarize: the error is a value naming the kind and the byte, not its text.
- RewriteRules.ApplyRequestRules: takes the position of equal priorities from its own stable sort, while its contract promises any order that sorting allows, as the original's unstable sort does.
- CurlCommand.BuildCurlCommand: takes the header names already in the order of `localeCompare`, and the body already as text.
- Har.ExportEntry: does not model sizes, query string, timings and redirect URL, which import does not read.
- Har.MarshalTransactions: version strings, sizes, query string, timings and redirect URL, which import does not read, are not in the tree; `http.StatusText` and the nearest float64 are parameters; the protocol and the stored body size have no place in the format and come back empty.
- Har.ParseEntry: an unreadable startedDateTime, which is an error, is not modelled.
