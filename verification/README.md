# Verification of ingress2gateway

A Dafny 4.11 model of the parts of ingress2gateway whose correctness is not visible in any one
function, with machine-checked proofs of what they promise. `dafny verify dfyconfig.toml` checks
everything. The model takes the form of the Go code: loops are loops proved against a specification,
objects that are updated in place are classes, and values are datatypes. Wherever Go ranges over a
map the model picks the elements in any order, so every result holds for all orders.

## What is modelled

- **Reference-counted resources** (`resource_protocol.dfy`, `resource_manager.dfy`). The goroutines of
  the test framework's ResourceManager as a transition system whose steps are the critical sections, the
  channel closes and the two callbacks, with an inductive invariant over all interleavings, and the
  shared object itself, each of whose methods is one step of that system.
- **OpenAPI 3.x** (`openapi_*.dfy`). The worklist that expands server templates, the grouping of matchers
  by listeners, its inversion and the cutting into routes and rules, and what the routes then serve of
  what the operations ask for, over which schemes.
- **Kong header matching** (`numbers.dfy`, `kong_header_matching.dfy`). The nested loops with rotating
  indices; which combinations of values they emit is the Chinese remainder theorem for any moduli.
- **ingress-nginx** (`nginx_*.dfy`). The chain of passes over rules and their parallel list of sources,
  the conversion that runs it, and the split into a port-80 and a port-443 route with trailing-slash
  redirects.
- **Conversion of plain ingresses** (`common_*.dfy`). Two groupings, conservation of routing through
  both, when the conversion fails, and the merge of listeners.
- **Envoy Gateway and generic emitters** (`envoy_iprange.dfy`, `backend_dedup.dfy`). Collapsing per-rule
  controls, the policy cache, first-match evaluation, and merging weighted backends.
- **Istio** (`istio_hosts.dfy`, `istio_rewrite.dfy`). Overlap of host patterns as intersection of
  languages, and the rewrite split on slices with shared arrays.

`backend_sources.dfy`, `grouping.dfy`, `sorting.dfy`, `strings.dfy`, `numerals.dfy`, `optional.dfy` and
`gateway.dfy` hold what the others share.

The parts meet. `NginxConverter.Convert` calls `CommonIR.ToIR`, whose routes have freshly aligned sources
of the ingresses given, and runs `NginxPipeline.RunFeatures` on them; `NginxWeights.FeaturesMergeSafely`
follows the weights of `NginxCanary` through that chain to the merge of `BackendDedup`; the aligned routes
that it leaves are what `NginxSslRedirect` splits; and `CommonIR.LookedUpRouteExists` is what the Kong
feature relies on.

## Results that hold only under a condition

Each is proved with its exact condition where the table says "if and only if", and with a concrete
counterexample or the failing family otherwise.

- Kong: OR of values and AND of names is what comes out exactly when every choice of values can be made at
  places that agree modulo the common divisors of the numbers of values. Where no header lists a value
  twice, that is when these numbers are pairwise coprime; two headers with two different values each lose
  half of the combinations. A header annotation without any value removes all matches of the rule, so that
  it takes every request, as a rule without matches does whatever the annotations are. Of several ingress
  rules that share a route the last one decides about the headers of all.
- OpenAPI: a host with a comma is taken apart by the separator of the listener groups, a header or query
  name with a comma by that of the names, and a single empty name is lost. A route for several listeners
  names none and is attached to all of the gateway, so it also serves over the scheme of another listener
  whose host overlaps with one of its own. A server template with a brace inside braces expands differently
  from run to run. Two matchers with the same listeners that agree on path and method may come in either
  order.
- Conversion: `NameFromHost` gives `a.b` and `a-b` one name, so route names and listener names can
  coincide; a route is then replaced by a later one, and a hostname has no listener of its own. A class
  that comes from an annotation and contains a slash makes the conversion fail.
- ingress-nginx: rule groups that share a route name send it through the canary pass twice. That indexes
  a backend that is not there exactly when some rule of the route has a canary that is chosen by header;
  otherwise the second run changes nothing. A rule without a source, such as the one that an app root
  adds, is missing on port 80. A route that is named like the port-80 half of another is lost if that
  other one splits. An empty prefix, which an ImplementationSpecific path can be, makes the trailing-slash
  pass read before its start unless a prefix before it settles the test.
- IP ranges: a route that is named like another plus "-" and a rule index shares its policy.
- Istio: when a rewrite splits a route in two and the filter slice has spare capacity, the second
  append overwrites the first route's rewrite.
- Weights: merging backends keeps the share of a key only if all of them have weights with a sum that fits
  32 bits, or the first has none and the others have zero.

## Where the code and its documentation differ

The model follows the code.

- The notification says that a canary total that does not parse defaults to 100; a total beyond 32 bits
  becomes 2147483647 (`canary.go:84-96`).
- A canary is an ingress whose annotation is exactly "true" for the canary pass, and anything that parses
  as true for the choice of the primary ingress.
- An ssl-redirect value that does not parse switches the redirect off (`redirect.go:280-282`).
- Stripping passthrough backends also drops rules that had no backends before, such as redirects
  (`ssl_passthrough.go:143-147`).
- For an Istio route without matches the comment announces a full-path rewrite; the code emits a prefix
  rewrite (`converter.go:755-758` and `811-820`).
- The key by which backends are merged has a namespace, which is never set (`emitters/utils/utils.go:49-81`).
- `pathPrefixCovers` reads the last character of a prefix also when the prefix is empty.

## Model

| member | source | states |
|---|---|---|
| `ResourceProtocol.StepKeepsInv` | e2e/framework/resource_manager.go:47-141 | one inductive invariant over callers, generations and handles is kept by every step of every goroutine: critical sections, wake-ups, install, cleanup, delete and channel closes |
| `ResourceProtocol.RunKeepsInv` | e2e/framework/resource_manager.go:47-141 | every interleaving from the empty manager keeps it |
| `ResourceProtocol.Safety` | e2e/framework/resource_manager.go:47-141 | in every interleaving a generation's count is the number of its handles that have not released; its cleanup runs at most once, after install and with nobody using it; a key has one live generation; release finds the generation of its own handle although it looks up by key |
| `ResourceProtocol.InUsePins` | e2e/framework/resource_manager.go:104-118 | a handle in use keeps its generation in the map, out of cleanup and counted |
| `ResourceProtocol.CleanupFindsIdleGeneration` | e2e/framework/resource_manager.go:118-128 | when the cleanup function is about to run, install has finished, no handle is in use and it has not run before |
| `ResourceProtocol.CleanedUpIsIdle` | e2e/framework/resource_manager.go:118-134 | nobody uses a generation whose cleanup has run |
| `ResourceProtocol.ResultIsStable` | e2e/framework/resource_manager.go:67-75 | no step changes the result of a ready generation, and ready implies that install stored it: `err` and `cleanup` are never read early |
| `ResourceProtocol.FailedInstallIsReported` | e2e/framework/resource_manager.go:67-75 | in every run in which the install of a generation returns an error, the generation has that error at the end, nothing is ever cleaned up, and no install returns for it a second time |
| `ResourceProtocol.SuccessfulInstallIsCleanedUp` | e2e/framework/resource_manager.go:67-133 | in every run in which it succeeds there is no error, and the cleanup function that it returned, if any, has run exactly once when `cleaningUp` is closed |
| `ResourceProtocol.InstalledHasReturned` | e2e/framework/resource_manager.go:67-75 | a generation that is installed had its install return in the run |
| `ResourceProtocol.CallersAreServed` | e2e/framework/resource_manager.go:47-99 | in every interleaving each caller is still after the key that it called Acquire with or has a handle of its own, of a generation of that key, and every handle belongs to one caller |
| `ResourceProtocol.EnterServesUnlessCleaningUp` | e2e/framework/resource_manager.go:48-98 | in the critical section a caller waits for the generation under cleanup, shares the one that is there, or gets a new one |
| `ResourceProtocol.FinishedForGood` | e2e/framework/resource_manager.go:130-134 | once `cleaningUp` is closed the generation is out of the map, and its cleanup, if any, has run exactly once |
| `ResourceProtocol.FinishedIsFrozen` | e2e/framework/resource_manager.go:130-134 | no later step changes such a generation: no channel is closed twice |
| `ResourceProtocol.BlockedCallerCanProgress` | e2e/framework/resource_manager.go:51-57 | from every reachable state with a caller blocked on `cleaningUp`, either the channel is closed or the one cleaner has an enabled step that lowers the rank |
| `ResourceProtocol.NextStepLowersRank` | e2e/framework/resource_manager.go:107-138 | each step of the cleaner lowers the rank of its phase |
| `ResourceProtocol.RankNeverRises` | e2e/framework/resource_manager.go:107-138 | no step of anybody else undoes that |
| `ResourceProtocol.BlockedCallerWaitIsBounded` | e2e/framework/resource_manager.go:51-57 | after five steps of the cleaner, in whatever company, everyone blocked can go on |
| `ResourceProtocol.CleanerEndsByClosing` | e2e/framework/resource_manager.go:130-138 | a cleaner that has no step left has closed the channel |
| `ResourceProtocol.SecondReleaseCleansUpUnderUser` | e2e/framework/resource_manager.go:81-93 | without the `sync.Once` of each handle: a run of the system from the empty manager, two callers and one release, after which a second release of the first handle starts the cleanup under the user of the second |
| `SharedResources.ResourceManager.Enter` | e2e/framework/resource_manager.go:49-78 | the critical section of Acquire on the shared object is exactly the protocol's Enter step: retry, share or create |
| `SharedResources.ResourceManager.Wake` | e2e/framework/resource_manager.go:55-56 | waking from `cleaningUp` is the protocol's Wake step |
| `SharedResources.ResourceManager.InstallReturns` | e2e/framework/resource_manager.go:67-75 | what install returned is stored as the protocol's InstallReturns step stores it; FailedInstallIsReported and SuccessfulInstallIsCleanedUp say what that is |
| `SharedResources.ResourceManager.CloseReady` | e2e/framework/resource_manager.go:68-68 | closing `ready`, once |
| `SharedResources.ResourceManager.Wait` | e2e/framework/resource_manager.go:94-97 | after any run of the protocol Wait returns the error of the install that returned for the generation in that run, and no error if it succeeded; some install did return |
| `SharedResources.ResourceManager.CallCleanup` | e2e/framework/resource_manager.go:85-93 | only the first call of a handle's Cleanup starts a release |
| `SharedResources.ResourceManager.Release` | e2e/framework/resource_manager.go:110-137 | the first critical section of release is the protocol's Release step: decrement, and become the cleaner at zero |
| `SharedResources.ResourceManager.SeeReady` | e2e/framework/resource_manager.go:125-126 | the cleaner goes on only when `ready` is closed |
| `SharedResources.ResourceManager.RunCleanup` | e2e/framework/resource_manager.go:126-128 | the cleanup function runs outside the lock |
| `SharedResources.ResourceManager.Delete` | e2e/framework/resource_manager.go:131-134 | the second critical section removes this handle's generation and closes `cleaningUp`, once |
| `SharedResources.ResourceManager.CloseReleased` | e2e/framework/resource_manager.go:105-108 | the channel that release returned is closed |
| `SharedResources.ResourceManager.CloseDone` | e2e/framework/resource_manager.go:87-90 | the handle's own channel is closed last |
| `OpenAPIServers.ExpandServerVariables` | pkg/i2gw/providers/openapi3/converter.go:602-641 | whichever variable each round picks, the worklist ends with one server for each total choice of enumeration values, each exactly once, and for flat templates its URL is the template with all placeholders replaced at once |
| `OpenAPIServers.ExpandNonEnumServerVariables` | pkg/i2gw/providers/openapi3/converter.go:582-600 | in any order of the variables: defaults substituted at once, enumerated variables kept |
| `OpenAPIServers.ExpandOne` | pkg/i2gw/providers/openapi3/converter.go:612-634 | one server, one picked variable: one server per value, in order |
| `OpenAPIServers.Round` | pkg/i2gw/providers/openapi3/converter.go:606-635 | a round keeps the list a partition of all choices and leaves one variable fewer in every server |
| `OpenAPIServers.BranchingKeepsCover` | pkg/i2gw/providers/openapi3/converter.go:612-634 | every total choice still extends exactly one entry after one entry has been branched on one variable |
| `OpenAPIServers.ChoicesAreProduct` | pkg/i2gw/providers/openapi3/converter.go:602-641 | the number of servers is the product of the enumeration sizes, in whatever order it is taken |
| `OpenAPIServers.ExpansionIsConfluent` | pkg/i2gw/providers/openapi3/converter.go:602-641 | for a flat template, the servers that two runs of the expansion return, with whatever picks, have the same URLs, each as often |
| `OpenAPIServers.ReplaceIsSubst` | pkg/i2gw/providers/openapi3/converter.go:594-594 | textual replacement of one placeholder in a flat template is substitution for its name |
| `OpenAPIServers.SubstTwice` | pkg/i2gw/providers/openapi3/converter.go:618-621 | two successive substitutions are one: values without braces cannot make or break a placeholder |
| `OpenAPIServers.OrderMattersWhenNested` | pkg/i2gw/providers/openapi3/converter.go:582-600 | for a template with nested braces two orders of the variables give two URLs: a concrete server |
| `OpenAPIRoutes.ToHTTPMatcher` | pkg/i2gw/providers/openapi3/converter.go:542-577 | every matcher has protocol http or https and a non-empty host without slashes |
| `OpenAPIOperations.MatcherSaysWhatIsAsked` | pkg/i2gw/providers/openapi3/converter.go:542-577 | for every operation: the scheme and host that its URI names, or any host over http, the base path, unless it is only a slash, before its own path, its method, and its header and query names, joined |
| `OpenAPIOperations.NamesComeBackIff` | pkg/i2gw/providers/openapi3/converter.go:466-481 | joined names come back from the split if and only if none contains a comma and they are not one empty name |
| `OpenAPIRoutes.HostOfListener` | pkg/i2gw/providers/openapi3/converter.go:168-168 | the host can be read back from the listener that a matcher is grouped by |
| `OpenAPIRoutes.MatchOfInjective` | pkg/i2gw/providers/openapi3/converter.go:458-482 | different matchers give different matches: joined header and parameter names are split again without loss |
| `OpenAPIRoutes.ListenersByMatcher` | pkg/i2gw/providers/openapi3/converter.go:166-170 | under every matcher its listeners, in the order of the matchers |
| `OpenAPIRoutes.Invert` | pkg/i2gw/providers/openapi3/converter.go:172-181 | in any order of the map: each matcher is in the one group of its joined listeners, once, and no group is empty |
| `OpenAPIRoutes.ToHTTPRouteRules` | pkg/i2gw/providers/openapi3/converter.go:442-487 | rule `i` is made of matchers 8i to 8i+7 with the one backend of the configuration; OperationsAreServedIff says what their matches ask for |
| `OpenAPIRoutes.ToHTTPRoute` | pkg/i2gw/providers/openapi3/converter.go:336-366 | the route under its namespace, name, gateway and section; hostnames are left out exactly for the lone wildcard |
| `OpenAPIRoutes.ToHTTPRoutes` | pkg/i2gw/providers/openapi3/converter.go:165-276 | the routes are those of a sorted grouping of the matchers, cut at 128 matchers, and the gateway has the listeners of the groups |
| `OpenAPIRoutes.DeclareListeners` | pkg/i2gw/providers/openapi3/converter.go:201-211 | the listeners of all groups, each at its first occurrence |
| `OpenAPIRouting.DeclaredAreAsked` | pkg/i2gw/providers/openapi3/converter.go:201-211 | for hosts without commas the gateway declares exactly one listener for each protocol and host that some matcher has |
| `OpenAPIOperations.ListenersAreAsked` | pkg/i2gw/providers/openapi3/converter.go:201-211 | the same in terms of operations: one listener for each scheme and host that some operation asks for, and no other |
| `OpenAPIOperations.ListenerIsNamed` | pkg/i2gw/providers/openapi3/converter.go:312-334 | a listener is named after its host and scheme, or its scheme alone when it is for all hosts |
| `OpenAPIRouting.SectionsAreDeclared` | pkg/i2gw/providers/openapi3/converter.go:235-243 | a route that names a section names a listener of its gateway, and serves the host of that listener |
| `OpenAPIRouting.RoutingIsKeptIffHostsAreCommaFree` | pkg/i2gw/providers/openapi3/converter.go:165-273 | for every order of the maps, the routes serve exactly the pairs of host and match that the spec asks for if and only if no host contains a comma |
| `OpenAPIOperations.OperationsAreServedIff` | pkg/i2gw/providers/openapi3/converter.go:148-276 | from operations to routes, for every order of the maps: on every host exactly the paths, methods, header names and query names that the operations ask for there are served, if and only if no host and no name contains a comma and no operation has a single empty name |
| `OpenAPIRouting.RoutesBelongToSpec` | pkg/i2gw/providers/openapi3/converter.go:336-366 | every route is in the namespace, under the gateway and named after the prefix of its spec, and every rule leads to the one backend |
| `OpenAPIAttachment.AskedIsServed` | pkg/i2gw/providers/openapi3/converter.go:235-243 | every request that an operation asks to serve over a scheme comes in through a listener of that scheme to which a route with its match is attached |
| `OpenAPIAttachment.SchemesAreKeptIff` | pkg/i2gw/providers/openapi3/converter.go:235-243 | over each scheme exactly the requests asked for are served if and only if matchers with several listeners ask for the scheme of every other listener wherever the hosts overlap |
| `OpenAPIAttachment.OperationsAreServedOverSchemesIff` | pkg/i2gw/providers/openapi3/converter.go:148-276 | the same in terms of operations |
| `OpenAPIAttachment.MixedSchemesDisagree` | pkg/i2gw/providers/openapi3/converter.go:235-243 | a spec of three operations where this fails: a GET at two hosts over http and a POST at one of them over https |
| `OpenAPIRouting.MatchesAreInPathOrder` | pkg/i2gw/providers/openapi3/converter.go:426-431 | within a route matches come by path, and on one path by method |
| `OpenAPIRouting.EachMatchOnce` | pkg/i2gw/providers/openapi3/converter.go:233-273 | a match is in one place of one rule of one route only |
| `OpenAPIRouting.RoutesKeepLimits` | pkg/i2gw/providers/openapi3/converter.go:442-487 | no route has more than 16 rules, no rule more than 8 matches, and neither is empty |
| `OpenAPIRouting.RouteNamesAreDistinct` | pkg/i2gw/providers/openapi3/converter.go:256-264 | the routes of a spec have pairwise distinct names, whether or not the two counters are there |
| `OpenAPIRouting.OutputIsDeterministicIff` | pkg/i2gw/providers/openapi3/converter.go:183-184 | all orders of the maps give the same groups with the same order of matchers if and only if no two matchers with the same listeners agree on path and method |
| `Sorting.CompactSorted` | pkg/i2gw/providers/openapi3/converter.go:247-248 | compacting sorted hosts leaves none twice |
| `Strings.SplitJoin` | pkg/i2gw/providers/openapi3/converter.go:176-176 | joined listeners can be split again exactly when none contains the separator |
| `KongHeaderMatching.PatchMatches` | pkg/i2gw/providers/kong/header_matching.go:61-84 | the nested loops with their rotating indices compute one block of n copies per match, n the product of the list lengths, although each visit rewrites earlier blocks: copy t of match i, at place i*n+t, is match i with value t mod L of each list |
| `KongHeaderMatching.PatchIsExactIff` | pkg/i2gw/providers/kong/header_matching.go:39-84 | the patched rule takes exactly the requests that some original match meets and the annotations allow, if and only if it had matches, every header has a value and every choice of values is reachable, or it had none and there are no annotations |
| `KongHeaderMatching.PopulateAll` | pkg/i2gw/providers/kong/header_matching.go:69-82 | the inner loop over all new matches: position j carries header value j mod L for each list |
| `KongHeaderMatching.FillHeaders` | pkg/i2gw/providers/kong/header_matching.go:71-81 | one visit: the values at the current indices, and every index advanced by one, wrapping |
| `KongHeaderMatching.GetNumberOfMatches` | pkg/i2gw/providers/kong/header_matching.go:132-138 | the product of the list lengths |
| `KongHeaderMatching.HTTPRoute.PatchHeaderMatching` | pkg/i2gw/providers/kong/header_matching.go:59-89 | every rule of the route gets its patched matches |
| `KongHeaderMatching.HeadersRepeat` | pkg/i2gw/providers/kong/header_matching.go:69-82 | a rotating index is back at its start after each block |
| `KongHeaderMatching.PatchedHeaders` | pkg/i2gw/providers/kong/header_matching.go:59-89 | copy t of every match carries value t mod L of each header |
| `KongHeaderMatching.CopiesAreSound` | pkg/i2gw/providers/kong/header_matching.go:39-40 | what a copy accepts the annotations asked for: names ANDed, values ORed |
| `KongHeaderMatching.MeaningIsExactIff` | pkg/i2gw/providers/kong/header_matching.go:39-40 | the copies accept exactly the requests asked for if and only if every choice of values can be made at places that agree modulo the common divisors of the list lengths |
| `KongHeaderMatching.MeaningIsExactIffCoprime` | pkg/i2gw/providers/kong/header_matching.go:39-40 | where no header lists a value twice: if and only if the numbers of values are pairwise coprime |
| `KongHeaderMatching.CoprimeIsComplete` | pkg/i2gw/providers/kong/header_matching.go:39-40 | pairwise coprime numbers are enough even with repeated values |
| `KongHeaderMatching.RepeatedValueHelps` | pkg/i2gw/providers/kong/header_matching.go:39-40 | they are not necessary: x = v,v and y = b,c is served exactly |
| `KongHeaderMatching.EmittedIffCompatible` | pkg/i2gw/providers/kong/header_matching.go:59-89 | which combinations are emitted: those whose indices agree modulo the common divisors of their lengths |
| `KongHeaderMatching.AllCombinationsIffCoprime` | pkg/i2gw/providers/kong/header_matching.go:59-89 | all combinations of values are emitted exactly when the lengths are pairwise coprime |
| `KongHeaderMatching.EachCombinationOnce` | pkg/i2gw/providers/kong/header_matching.go:59-89 | then none is emitted twice |
| `KongHeaderMatching.DistinctCombinationsAreLcm` | pkg/i2gw/providers/kong/header_matching.go:59-89 | in general the number of distinct combinations is the least common multiple of the lengths |
| `KongHeaderMatching.MissingCombination` | pkg/i2gw/providers/kong/header_matching.go:59-89 | two lengths with a common factor: the pair that never occurs |
| `KongHeaderMatching.NoMatchesIffSomeHeaderHasNoValue` | pkg/i2gw/providers/kong/header_matching.go:132-138 | all matches vanish exactly when some header has no value, which a Gateway reads as matching everything |
| `KongHeaderMatching.LastPatchWins` | pkg/i2gw/providers/kong/header_matching.go:43-55 | when several ingress rules share a route, the headers of the last patch are all that is left, with as many copies as all of them multiply to |
| `Numbers.GeneralRemainder` | pkg/i2gw/providers/kong/header_matching.go:59-89 | the Chinese remainder theorem for any lengths: indices that agree modulo the common divisors are those of some copy |
| `Numbers.ChineseRemainder` | pkg/i2gw/providers/kong/header_matching.go:59-89 | pairwise coprime lengths, any indices: some copy has them all |
| `Numbers.LcmAllDivides` | pkg/i2gw/providers/kong/header_matching.go:59-89 | the common multiples of all lengths are the multiples of their least common multiple |
| `CommonIR.LookedUpRouteExists` | pkg/i2gw/providers/kong/header_matching.go:46-50 | the route that a rule's own group computation names is always in the representation: the branch for a missing route is dead |
| `NginxTrailingSlash.CoversIffSegmentsStart` | pkg/i2gw/providers/ingressnginx/redirect.go:477-486 | a non-empty prefix covers a path exactly when its '/'-separated segments start those of the path |
| `NginxTrailingSlash.PathPrefixCoveredByAny` | pkg/i2gw/providers/ingressnginx/redirect.go:465-472 | some prefix of the list covers the path, if every empty prefix comes after one that settles the test |
| `NginxTrailingSlash.TestFailsIff` | pkg/i2gw/providers/ingressnginx/redirect.go:465-486 | that is exactly when the code does not read before the start of a prefix |
| `NginxTrailingSlash.ReadsOutOfRangeIff` | pkg/i2gw/providers/ingressnginx/redirect.go:383-461 | so for the whole pass: it is in bounds if and only if the source of every slashed path is matched already or can be tested |
| `NginxTrailingSlash.EmptyPrefixMayFail` | pkg/i2gw/providers/ingressnginx/redirect.go:477-486 | an empty prefix is fatal on its own, and harmless behind a prefix that covers the path |
| `NginxTrailingSlash.CollectPaths` | pkg/i2gw/providers/ingressnginx/redirect.go:384-398 | the first pass knows exactly the Exact values and prefixes of the rules |
| `NginxTrailingSlash.BuildTrailingSlashRedirectRules` | pkg/i2gw/providers/ingressnginx/redirect.go:383-461 | one redirect rule for each target, in order of first occurrence |
| `NginxTrailingSlash.TargetsAreExact` | pkg/i2gw/providers/ingressnginx/redirect.go:402-457 | a path is a target exactly when it is an eligible path of the rules whose source nothing serves yet |
| `NginxTrailingSlash.RedirectsShadowNothing` | pkg/i2gw/providers/ingressnginx/redirect.go:383-461 | no path that an existing match selects is the source of a redirect |
| `NginxTrailingSlash.RedirectsDoNotChain` | pkg/i2gw/providers/ingressnginx/redirect.go:383-461 | every redirect leads to a path that an existing match selects and no redirect leaves from |
| `NginxTrailingSlash.OneRedirectPerPath` | pkg/i2gw/providers/ingressnginx/redirect.go:383-461 | each eligible path has exactly one redirect |
| `NginxSslRedirect.CollectTLSHosts` | pkg/i2gw/providers/ingressnginx/redirect.go:223-239 | the hosts with TLS; a block without hosts stands for all rule hosts and ends the reading of its ingress |
| `NginxSslRedirect.HostHasTLSIff` | pkg/i2gw/providers/ingressnginx/redirect.go:223-239 | a host has TLS if and only if some TLS block of some ingress names it, or names no host and it is a host of the rules, with no block without hosts before |
| `NginxSslRedirect.BuildHttpRules` | pkg/i2gw/providers/ingressnginx/redirect.go:266-302 | port 80 gets one rule for each rule with a source, in order, and knows whether any redirects |
| `NginxSslRedirect.SplitRoute` | pkg/i2gw/providers/ingressnginx/redirect.go:241-352 | one round: untouched without TLS or redirect, otherwise a port-80 copy and a main route pinned to 443 |
| `NginxSslRedirect.SplitsIff` | pkg/i2gw/providers/ingressnginx/redirect.go:253-308 | a route splits if and only if one of its hosts has TLS and the primary ingress of some rule does not switch the redirect off |
| `NginxSslRedirect.HalvesAreBound` | pkg/i2gw/providers/ingressnginx/redirect.go:318-350 | the port-80 route has the hosts and, at port 80, the parents of the original; a main route that splits is at port 443, at the https listener of its first host |
| `NginxSslRedirect.EmitterIR.ProcessRoute` | pkg/i2gw/providers/ingressnginx/redirect.go:241-352 | one round on the map of the emitter's routes |
| `NginxSslRedirect.EmitterIR.AddSSLAndTrailingSlashRedirects` | pkg/i2gw/providers/ingressnginx/redirect.go:220-352 | one round for each route, in some order, whatever the names |
| `NginxSslRedirect.FreeNamesSplitAlone` | pkg/i2gw/providers/ingressnginx/redirect.go:241-352 | for any order: if no route that splits gives its port-80 half the name of another, each route and its half end up as one round makes them from the original, and nothing else changes |
| `NginxSslRedirect.ClashesIff` | pkg/i2gw/providers/ingressnginx/redirect.go:318-336 | in whatever order, some half takes the name of another route if and only if names are not free in that sense |
| `NginxSslRedirect.TakenNameLosesRoute` | pkg/i2gw/providers/ingressnginx/redirect.go:333-336 | then that other route is lost: in its place stands the half, gone through the pass itself if its turn comes later |
| `NginxSslRedirect.PortsSelectAlikeIffSourced` | pkg/i2gw/providers/ingressnginx/redirect.go:266-328 | ports 80 and 443 have the same matches at the same positions if and only if every rule has a source |
| `NginxSslRedirect.PortEightyServes` | pkg/i2gw/providers/ingressnginx/redirect.go:269-302 | each original rule is on port 80 a 308 to https without backends exactly when its primary ingress has no ssl-redirect annotation or one that reads as true, and itself otherwise |
| `NginxSslRedirect.SlashRedirectsUpgrade` | pkg/i2gw/providers/ingressnginx/redirect.go:309-316 | after these, port 80 has for each trailing-slash redirect a 301 to the same path over https |
| `NginxSslRedirect.PinnedIffSplit` | pkg/i2gw/providers/ingressnginx/redirect.go:304-352 | the main route is bound to port 443 exactly when the port-80 route was made |
| `NginxSslRedirect.SplitIsWithoutEmptyPrefix` | pkg/i2gw/providers/ingressnginx/redirect.go:241-352 | both halves of a route without empty prefixes have none, so that they can go through the pass |
| `NginxCanary.ParseCanaryConfig` | pkg/i2gw/providers/ingressnginx/canary.go:45-105 | the configuration read from the annotations |
| `NginxCanary.WeightsAreShares` | pkg/i2gw/providers/ingressnginx/canary.go:45-105 | for any annotation strings 0 <= weight <= total and 1 <= total < 2^31 |
| `NginxCanary.UnreadableTotalIsHundredUnlessTooLarge` | pkg/i2gw/providers/ingressnginx/canary.go:84-96 | an unreadable total becomes 100, but one that is too large becomes 2^31-1, whatever the notification says |
| `NginxCanary.FindBackends` | pkg/i2gw/providers/ingressnginx/canary.go:223-253 | the indices of the first canary and the first other source, and failure exactly when there is a second of either kind |
| `NginxCanary.FirstsAreFirst` | pkg/i2gw/providers/ingressnginx/canary.go:223-253 | nothing before them is of their kind |
| `NginxCanary.GetCanaryInfo` | pkg/i2gw/providers/ingressnginx/canary.go:217-270 | the two weights add up to the total, the indices are those, and it fails exactly when there is a second of a kind or a canary alone |
| `NginxCanary.CanaryOneRule` | pkg/i2gw/providers/ingressnginx/canary.go:136-188 | one rule: weights set, header rules added, the canary dropped from a header-only rule; CanaryDecides says what that means for requests |
| `NginxCanaryRouting.AddedRulesSend` | pkg/i2gw/providers/ingressnginx/canary.go:107-172 | an added rule selects exactly the requests with the path of the original rule and the configured header at the configured value, and sends them to the canary; without a value there are two, for "always" to the canary and for "never" to the other backend |
| `NginxCanaryRouting.AddedRulesSplitRule` | pkg/i2gw/providers/ingressnginx/canary.go:107-172 | of a rule with one match they select exactly those requests that the rule selects and that carry that header value |
| `NginxCanaryRouting.RuleSharesOut` | pkg/i2gw/providers/ingressnginx/canary.go:141-186 | in the rule itself the canary gets the weight of its annotation, at most the total and nothing if it cannot be read, and the other backend the rest; a canary chosen by header alone is gone from it |
| `NginxCanaryRouting.CanaryDecides` | pkg/i2gw/providers/ingressnginx/canary.go:136-190 | where each request goes: by header first, and everything else by weight, or past a canary that is chosen by header alone |
| `Numerals.ParseInt32Is` | pkg/i2gw/providers/ingressnginx/canary.go:71-96 | a numeral is digits, maybe after a sign; it stands for its number, cut off at the bounds of 32 bits, and is an error otherwise and when cut off |
| `NginxCanary.DropBackend` | pkg/i2gw/providers/ingressnginx/canary.go:173-185 | exactly the canary goes, from the backends and from the sources |
| `NginxCanary.WeighedRuleSplitsTotal` | pkg/i2gw/providers/ingressnginx/canary.go:141-146 | the two weights given out add up to the configured total; nothing but weights changes |
| `NginxCanary.HeaderOnlyRuleMovesCanary` | pkg/i2gw/providers/ingressnginx/canary.go:148-186 | the backend that a header-only rule loses is the one of the added rule, and the others stay in order |
| `NginxCanary.CanaryKeepsAlignment` | pkg/i2gw/providers/ingressnginx/canary.go:136-190 | on a freshly converted route every index is in bounds, and rules and sources, the added ones included, are aligned afterwards |
| `NginxCanary.OutcomeAgain` | pkg/i2gw/providers/ingressnginx/canary.go:136-188 | a second run on what one made of a rule changes nothing, unless the canary is chosen by header: then it indexes a backend that is not there |
| `NginxPipeline.SecondRunIsInRangeIff` | pkg/i2gw/providers/ingressnginx/canary.go:125-192 | a second run on a route is in range if and only if none of its rules has a canary chosen by header, and then changes nothing |
| `NginxPipeline.CanaryIsInRangeIff` | pkg/i2gw/providers/ingressnginx/canary.go:125-192 | on freshly converted routes the whole pass, group by group, is in range if and only if rule groups share a route key only where there is no such canary |
| `NginxSharedRoutes.SharedRouteKeyBreaksCanary` | pkg/i2gw/providers/ingressnginx/canary.go:129-132 | two ingresses for hosts a.b and a-b, one a canary chosen by header: their two groups share a key, and the pass runs out of range on whatever the plain conversion makes of them |
| `NginxRedirects.TemporalTakesPrecedence` | pkg/i2gw/providers/ingressnginx/redirect.go:60-150 | a temporal redirect annotation makes the permanent one irrelevant, and the status is one that a Gateway accepts |
| `NginxRedirects.RedirectInFull` | pkg/i2gw/providers/ingressnginx/redirect.go:75-184 | which annotation the URL comes from, which codes it may have and which is the default, and when there is no redirect at all |
| `NginxRedirects.RedirectRules` | pkg/i2gw/providers/ingressnginx/redirect.go:50-200 | every rule after the pass |
| `NginxRedirects.RedirectsKeepAlignment` | pkg/i2gw/providers/ingressnginx/redirect.go:192-198 | backends are kept or cleared, and cleared exactly with a redirect; alignment is kept |
| `NginxRedirects.AppRootIndex` | pkg/i2gw/providers/ingressnginx/approot.go:41-75 | the first rule with a usable app root, if there is one |
| `NginxRedirects.AppRoot` | pkg/i2gw/providers/ingressnginx/approot.go:36-117 | the rule that becomes the redirect, or the rule without a source that is added for it |
| `NginxSources.GetNonCanaryIngress` | pkg/i2gw/providers/ingressnginx/utils.go:29-45 | the first ingress that is no canary; a canary only if all are |
| `BackendSources.SameBackendsKeepAlignment` | pkg/i2gw/providers/ingressnginx/converter.go:41-51 | a pass that leaves backends alone keeps the alignment |
| `NginxSslPassthrough.CollectPassthrough` | pkg/i2gw/providers/ingressnginx/ssl_passthrough.go:42-55 | the keys of the ingresses whose annotation parses as true |
| `NginxSslPassthrough.WaysInFull` | pkg/i2gw/providers/ingressnginx/ssl_passthrough.go:42-148 | a backend of a known ingress is taken, and not kept, exactly when an ingress of that name has the annotation with a value that reads as true |
| `NginxSslPassthrough.StripRule` | pkg/i2gw/providers/ingressnginx/ssl_passthrough.go:120-148 | one rule: the backends that stay, in order, with their sources |
| `NginxSslPassthrough.StripPassthroughRules` | pkg/i2gw/providers/ingressnginx/ssl_passthrough.go:116-152 | all rules; those left without backends are dropped |
| `NginxSslPassthrough.StripKeepsOrderAndSources` | pkg/i2gw/providers/ingressnginx/ssl_passthrough.go:116-152 | what remains is exactly the backends that stay, in order, each still with its own source; the result is aligned |
| `NginxSslPassthrough.BuildTLSRoute` | pkg/i2gw/providers/ingressnginx/ssl_passthrough.go:193-226 | the backends that pass, the first of each name and port |
| `NginxSslPassthrough.TLSBackendsAreThosePassing` | pkg/i2gw/providers/ingressnginx/ssl_passthrough.go:193-226 | every backend that passes is there, once per name and port, and no other |
| `NginxSslPassthrough.StaysXorPasses` | pkg/i2gw/providers/ingressnginx/ssl_passthrough.go:116-226 | with known sources every backend goes exactly one way |
| `NginxSslPassthrough.SslPassthroughFeature` | pkg/i2gw/providers/ingressnginx/ssl_passthrough.go:40-110 | for any order of the routes: which are stripped, which deleted, and which TLSRoutes appear |
| `NginxSslPassthrough.DeletedIffAllPassthrough` | pkg/i2gw/providers/ingressnginx/ssl_passthrough.go:93-107 | a route is deleted exactly when all its sources are passthrough ones |
| `NginxPipeline.CanaryFeature` | pkg/i2gw/providers/ingressnginx/canary.go:125-192 | every route of a rule group ends up as one run of the pass makes it, whatever the order of the groups, and also when groups share a route without a canary chosen by header |
| `NginxPipeline.RedirectFeature` | pkg/i2gw/providers/ingressnginx/redirect.go:47-200 | every route, and its sources untouched |
| `NginxPipeline.OtherFeature` | pkg/i2gw/providers/ingressnginx/converter.go:41-51 | the frame of the passes that leave backends alone: what becomes of a rule may depend on its route, its place and all sources |
| `NginxPipeline.AppRootFeature` | pkg/i2gw/providers/ingressnginx/approot.go:36-117 | every route |
| `NginxPipeline.RunFeatures` | pkg/i2gw/providers/ingressnginx/converter.go:41-51 | the whole chain: what each pass makes of the routes of the one before, no index out of bounds, no missing port read, and rules and sources aligned at the end |
| `NginxConverter.FilterHTTP` | pkg/i2gw/providers/ingressnginx/converter.go:64-81 | the ingresses that are converted to HTTPRoutes |
| `NginxConverter.Convert` | pkg/i2gw/providers/ingressnginx/converter.go:57-139 | from ingresses to the end of the chain: it fails exactly when some HTTP ingress cannot be converted; otherwise the plain routes give exactly what the HTTP ingresses ask for, the passes run on them in their order, every rule keeps a source list that names the origin of its backends, and no merge of backends wraps around |
| `NginxWeights.OutcomeAddsUp` | pkg/i2gw/providers/ingressnginx/canary.go:136-188 | the weights that the canary pass gives out in a rule add up to at most the configured total, and the rules that it adds have none |
| `NginxWeights.CanaryWeightsNeverWrap` | pkg/i2gw/emitters/utils/utils.go:83-89 | for every key of the merge the weights of a canary rule sum to between 0 and its total, at most 2^31-1: the 32-bit addition is exact |
| `NginxWeights.FeaturesMergeSafely` | pkg/i2gw/emitters/utils/utils.go:58-96 | the same for every rule at the end of the chain, after redirects, passthrough and app roots |
| `NginxPipeline.NewAppRootIsMissingOnPortEighty` | pkg/i2gw/providers/ingressnginx/approot.go:92-117 | where the passes meet: an app-root rule of its own has no source and so no counterpart on port 80 |
| `CommonIngress.KeysAgree` | pkg/i2gw/providers/common/converter.go:203-203 | on rules of one protocol the aggregator's key and that of GetRuleGroups tell the same rules apart |
| `CommonIngress.KeyTellsApart` | pkg/i2gw/providers/common/utils.go:69-69 | for namespaces and hosts without slashes the key is one namespace, class and host |
| `CommonIngress.SlashesConfuse` | pkg/i2gw/providers/common/utils.go:69-69 | in general it is not: a concrete pair |
| `CommonIngress.MatchKeyTellsApart` | pkg/i2gw/providers/common/converter.go:488-494 | the match key is one path type and path, so that the first path of a group may speak for all |
| `CommonIngress.ToHTTPRouteMatch` | pkg/i2gw/providers/common/converter.go:496-528 | exactly which path types fail, and the match of each other |
| `CommonIngress.ToBackendRef` | pkg/i2gw/providers/common/utils.go:112-144 | none exactly when a named port is not in the table of the service; otherwise the service at the port of the table or the given one, without group or kind, or the object of the resource, without port |
| `CommonIngress.GetIngressClass` | pkg/i2gw/providers/common/utils.go:33-45 | the class field unless absent or empty, then the annotation, then nothing |
| `CommonRuleGroups.GetRuleGroups` | pkg/i2gw/providers/common/utils.go:61-92 | the groups of all rules by key |
| `CommonRuleGroups.GroupMapHas` | pkg/i2gw/providers/common/utils.go:61-92 | adding rules one by one gives under each key its rules in order, named after the first |
| `CommonRuleGroups.GroupInFull` | pkg/i2gw/providers/common/utils.go:61-92 | a group has the namespace, class and host of its rules, the name of the first one's ingress, its rules in order and the TLS blocks of all their ingresses |
| `CommonRuleGroups.IngressAggregator.AddIngressRule` | pkg/i2gw/providers/common/converter.go:202-222 | one more rule in the group of its key |
| `CommonRuleGroups.IngressAggregator.AddIngress` | pkg/i2gw/providers/common/converter.go:186-200 | all rules of an ingress, and its default backend |
| `CommonRuleGroups.GroupingsAgree` | pkg/i2gw/providers/common/utils.go:61-92 | each group of GetRuleGroups is the aggregator's group of the same rules |
| `CommonRoutes.GroupIngressPathsByMatchKey` | pkg/i2gw/providers/common/utils.go:150-177 | keys in order of first occurrence, and under each its paths in order |
| `CommonRoutes.ConfigureBackendRef` | pkg/i2gw/providers/common/converter.go:464-486 | backends and sources side by side; complete exactly when all paths resolve |
| `CommonRoutes.AllConvertByKey` | pkg/i2gw/providers/common/converter.go:440-459 | testing the first path of each key for its type finds every path that cannot be converted |
| `CommonRoutes.ToHTTPRoute` | pkg/i2gw/providers/common/converter.go:414-462 | fails exactly when some path has no translation; rules and sources are aligned even then, and otherwise each source is the ingress of its path |
| `CommonConservation.RouteConserves` | pkg/i2gw/providers/common/converter.go:414-462 | the route of a group gives what its paths ask for, each as often |
| `CommonConverter.AggregationConserves` | pkg/i2gw/providers/common/converter.go:202-462 | for any order of the groups: the multiset of namespace, class, host, match and backend that the rules ask for is that which the routes give |
| `CommonConverter.ToDefaultRoute` | pkg/i2gw/providers/common/converter.go:286-326 | the route of a default backend asks for no match |
| `CommonConverter.GatewayKeySplitsIff` | pkg/i2gw/providers/common/converter.go:330-334 | a gateway key splits in two exactly when the class has no slash |
| `CommonConverter.ToGateways` | pkg/i2gw/providers/common/converter.go:328-404 | for any order: one gateway per key, with the merged listeners of its groups |
| `CommonIR.GroupsFailIff` | pkg/i2gw/providers/common/converter.go:414-486 | the groups convert exactly when everything that the rules ask for is complete |
| `CommonIR.ToRoutesAndGateways` | pkg/i2gw/providers/common/converter.go:234-412 | succeeds exactly when paths, backends and classes translate; then it conserves routing, aligns sources and makes the gateways of all rules |
| `CommonIR.ToIR` | pkg/i2gw/providers/common/converter.go:47-102 | the whole conversion, in terms of the ingresses: it succeeds if and only if each of them converts, and then the routes send exactly the requests of each path and default backend to the service port or object that the ingress means, each as often; the routes are under the names of groups and default backends, beside the ingresses that asked for their backends |
| `CommonIR.CollectingKeepsAsks` | pkg/i2gw/providers/common/converter.go:186-222 | the rules and default backends that the aggregator collects ask for what the ingresses ask for, in order |
| `CommonIR.ConvertibleIff` | pkg/i2gw/providers/common/converter.go:234-412 | everything collected converts if and only if every ingress does: its paths, its default backend and its class |
| `CommonIR.RepresentationConserves` | pkg/i2gw/providers/common/converter.go:66-73 | with distinct names the routes of the map, in any order, give exactly what the ingresses ask for |
| `CommonIR.LastRouteStays` | pkg/i2gw/providers/common/converter.go:66-73 | of several routes with one name the last stays |
| `CommonIR.NoRouteIsLostIff` | pkg/i2gw/providers/common/converter.go:66-73 | no route is lost in the map if and only if the rule groups and default backends of the ingresses give pairwise different names |
| `CommonIR.MapConserves` | pkg/i2gw/providers/common/converter.go:66-73 | then the routes of the map, in any order, give exactly what the ingresses ask for, each as often |
| `CommonIR.DotAndDashLoseARoute` | pkg/i2gw/providers/common/converter.go:66-73 | one ingress with hosts a.b and a-b: two routes are made, one is left |
| `CommonIR.DistinctRoutesAreFound` | pkg/i2gw/providers/common/converter.go:66-73 | routes with distinct names are all found under them |
| `CommonNames.PlainHostsHaveTheirNames` | pkg/i2gw/providers/common/utils.go:94-106 | hosts of letters, digits and single dots have different names |
| `CommonNames.NamesInFull` | pkg/i2gw/providers/common/utils.go:94-110 | the name of a route: that of the ingress, a dash, and all-hosts, or for a host of letters, digits and single dots the host with dashes for dots |
| `CommonNames.DotAndDashShareAName` | pkg/i2gw/providers/common/utils.go:94-106 | in general they do not: a dot and a dash |
| `CommonNames.WildcardSharesAName` | pkg/i2gw/providers/common/utils.go:94-106 | nor does a wildcard from its domain |
| `CommonListeners.ToGroupListener` | pkg/i2gw/providers/common/converter.go:252-272 | the host of a group, or of its only TLS block if that names one host, and its secrets, each once |
| `CommonListeners.MergeListeners` | pkg/i2gw/providers/common/converter.go:349-403 | one listener per name, in order of first offer, with the certificates of all offers deduplicated |
| `CommonListeners.ListenerInFull` | pkg/i2gw/providers/common/converter.go:352-390 | every listener is HTTP on port 80 without certificates or HTTPS on port 443 with them, for the host of a group and under the name of that host |
| `CommonListeners.UniqueRefs` | pkg/i2gw/providers/common/converter.go:392-400 | the certificates in order of first occurrence |
| `CommonListeners.ListenerNamesAreDistinct` | pkg/i2gw/providers/common/converter.go:349-403 | no two listeners of a gateway share a name |
| `CommonListeners.OneListenerPerHostname` | pkg/i2gw/providers/common/converter.go:349-403 | at most one listener per hostname and protocol |
| `CommonListeners.HttpListenersAreCompleteIff` | pkg/i2gw/providers/common/converter.go:352-368 | every hostname has its HTTP listener if and only if the names tell the hostnames apart |
| `CommonListeners.HttpsListensIffTLS` | pkg/i2gw/providers/common/converter.go:370-385 | then a hostname has an HTTPS listener exactly when some group for it has TLS |
| `CommonListeners.CertificatesAreTheUnion` | pkg/i2gw/providers/common/converter.go:383-401 | and its certificates are the union of those groups' secrets, without duplicates |
| `EnvoyIPRange.MergeIPRangeControlIR` | pkg/i2gw/emitters/envoygateway/utils.go:46-65 | in any order of the map: collapsed exactly when there are as many entries as rules and all are equal; only the case of neither is excluded, in which the source stores nil |
| `EnvoyIPRange.CollapsingKeepsControlsIffInRange` | pkg/i2gw/emitters/envoygateway/utils.go:46-65 | collapsing changes no rule's control if and only if every entry is for a rule that exists |
| `EnvoyIPRange.FirstMatchMeansControl` | pkg/i2gw/emitters/envoygateway/iprange.go:55-69 | first-match evaluation of the emitted list lets a client in exactly when it is not denied and the allow list is empty or contains it |
| `EnvoyIPRange.PolicyKeysMeetIff` | pkg/i2gw/emitters/envoygateway/builder.go:82-94 | two controls share a policy name exactly when they are the same or one route is named like another plus "-" and a rule index |
| `EnvoyIPRange.EmissionInFull` | pkg/i2gw/emitters/envoygateway/builder.go:82-115 | the name, the target and the section of a policy, for a rule and for the route |
| `EnvoyIPRange.Emitter.GetOrBuildSecurityPolicy` | pkg/i2gw/emitters/envoygateway/builder.go:82-120 | the cached policy, untouched, or a new one for the section |
| `EnvoyIPRange.Emitter.EmitOne` | pkg/i2gw/emitters/envoygateway/iprange.go:47-69 | the authorization of one policy is replaced, and nothing else |
| `EnvoyIPRange.Emitter.EmitIPRangeControl` | pkg/i2gw/emitters/envoygateway/iprange.go:39-76 | for any order of both maps: every due control is emitted once, and the tables are cleared |
| `EnvoyIPRange.PoliciesAreIntendedIffNamesAreFree` | pkg/i2gw/emitters/envoygateway/builder.go:82-120 | for every order, every control ends up in the policy meant for it if and only if no route has the name of another route's rule policy |
| `EnvoyIPRange.EmittedPoliciesMeanControls` | pkg/i2gw/emitters/envoygateway/iprange.go:39-76 | end to end: a rule has a governing policy exactly when it had a control, and each lets in exactly the clients of that control |
| `BackendDedup.CollectUnique` | pkg/i2gw/emitters/utils/utils.go:58-90 | the references merged by key, with weights added as 32-bit integers |
| `BackendDedup.SameKeyIff` | pkg/i2gw/emitters/utils/utils.go:49-81 | two references are merged exactly when name, port, group and kind are the same, where absent ones stand for 0, the core group and Service |
| `BackendDedup.MergedInFull` | pkg/i2gw/emitters/utils/utils.go:83-89 | everything but the weight comes from the first reference |
| `BackendDedup.RemoveBackendRefsDuplicates` | pkg/i2gw/emitters/utils/utils.go:58-96 | in any order of the map: one reference per key |
| `BackendDedup.ShareIsKeptIff` | pkg/i2gw/emitters/utils/utils.go:83-89 | the share of a key survives if and only if all its references have weights whose sum fits 32 bits, or the first has none and the others have zero |
| `BackendDedup.MergeNeverWraps` | pkg/i2gw/emitters/utils/utils.go:83-89 | weights that are not negative and add up to less than 2^31 are merged exactly, key by key |
| `BackendDedup.NamespacesAreMerged` | pkg/i2gw/emitters/utils/utils.go:49-81 | the namespace field of the key is never set: backends of two namespaces become one |
| `IstioHosts.MatchesIffOverlap` | pkg/i2gw/providers/istio/converter.go:1243-1269 | the test holds exactly when the languages of the two patterns intersect |
| `IstioHosts.MatchesIsSymmetric` | pkg/i2gw/providers/istio/converter.go:1243-1265 | it is symmetric despite its asymmetric length test |
| `IstioHosts.MatchesIsMonotone` | pkg/i2gw/providers/istio/converter.go:1243-1265 | a narrower pattern overlaps with nothing more |
| `IstioHosts.MatchAny` | pkg/i2gw/providers/istio/converter.go:1220-1241 | some pattern of the list overlaps, in whatever order they are |
| `IstioRewrite.Append` | pkg/i2gw/providers/istio/converter.go:774-827 | Go's append: in place when the array has room, to a copy otherwise |
| `IstioRewrite.SplitMatches` | pkg/i2gw/providers/istio/converter.go:776-790 | the prefix matches and the others, each in order |
| `IstioRewrite.SplitIsPartition` | pkg/i2gw/providers/istio/converter.go:776-790 | together a permutation of the input |
| `IstioRewrite.KindsAre` | pkg/i2gw/providers/istio/converter.go:776-790 | prefix matches are those without a path, with a path of no type, and prefixes; the others are exact paths and regular expressions |
| `IstioRewrite.CreateRoutesWithRewrite` | pkg/i2gw/providers/istio/converter.go:759-827 | which routes are emitted with which matches; when two are, the first keeps its full-path rewrite exactly when the incoming filter slice has no spare capacity |

## Left out

- gRPC routes and mixed protocols: they go through the same groupings, with matches and filters of their own, and canary weights without header rules.
- OpenAPIAttachment.SchemesAreKeptIff: of host patterns only the lone wildcard covers other hosts; `*.example.com` is a host like any other there.
- OpenAPIOperations.OperationsAreServedIff: operations are taken at their expanded servers, with the names of their required parameters; which servers and parameters an operation inherits from its path item is left out.
- KongHeaderMatching.PatchIsExactIff: header matches are compared as whole strings, and the annotations are taken as parsed into names and values.
- NginxCanaryRouting.CanaryDecides: one rule and the rules added for it; how a Gateway ranks them among rules for other paths is left out.
- OpenAPIRoutes.ToHTTPRoutes: ports and TLS settings of the gateway's listeners are left out, as are reference grants and resource kinds.
- OpenAPIServers.ExpandServerVariables: for templates with nested braces, or values with braces, the URLs are not characterised; which choices are expanded still is.
- NginxPipeline.OtherFeature: the passes for header modifiers, regular-expression paths, backend TLS and session affinity are any change of rules that leaves backends alone; what they write elsewhere is left out.
- NginxPipeline.RunFeatures: every source of a passthrough ingress is asked for a port, also where an earlier redirect has removed its backend.
- NginxConverter.Convert: gRPC ingresses take part in the grouping of the canary pass, but their own routes and gateways are not converted.
- NginxSslRedirect.EmitterIR.AddSSLAndTrailingSlashRedirects: where names are taken, routes are required to be without empty prefixes altogether, since a port-80 half may have lost the rule that settled a test.
- CommonIngress.ToHTTPRouteMatch: a path type that does not exist is excluded, because the code then reads through a nil pointer.
- CommonConverter.ToGroupListeners: the source collects listeners and routes in one loop; here they are two, since neither reads what the other writes.
- EnvoyIPRange.Emitter.EmitIPRangeControl: an empty table of controls stands for an absent one.
- Body sizes in the Envoy Gateway emitter are merged by the same loop as IP ranges, into the other cache.
- TLS passthrough listeners and the www redirect of ingress-nginx: one-branch additions beside the passes.
- Channels of the ResourceManager are modelled by the phases of the generation or handle that owns them; install and cleanup functions may do anything but end.
- `url.Parse` is a parameter of the redirect and OpenAPI models; regular expressions appear as the functions they stand for.
- Notifications, field-error paths, resource readers, printing, cluster access: inputs and outputs without a property of their own; that an error occurred is a boolean.
- Kubernetes defaults such as the ports of resource backends, and Gateway implementations beyond path selection and first-match evaluation.
- Traefik, nginx.org, GCE, APISIX and Cilium features: copies of single fields, or results that depend on the order of a map.
