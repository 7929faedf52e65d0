# cppmhd: routes, connections and the start barrier

cppmhd is a C++ HTTP server library on top of libmicrohttpd. This project models its three stateful parts
and proves what they promise.

**The router** (`lib/src/router.cc`, `lib/src/router.h`). A route such as `/user/{[0-9]+:id}/{**:rest}` is
parsed into a path in which every wildcard is a `:` that ends its segment, and a queue of the wildcards
themselves. Each HTTP method has a compressed radix tree that insertion changes in place: edges are split,
handles move down, children are appended, and one parameter is popped from the queue for every `:` written.
The finished trees are copied into immutable nodes, which the lookup loop walks.

- `Text` has the string helpers, `Patterns`, `PatternProofs` and `PathParsing` the parser, its printer and
  the splitting of paths.
- `RouteTree` has the tree as a value, the structural invariant (`Plain`, `Wildcard`, `Valid`) and insertion
  as a function. `Reg(n, t)` is the controller registered for exactly the pattern `t`, a sequence of
  characters, parameters and catch-alls; it looks at the tree's edges and never at the index strings, node
  types or wild flags that the code steers by.
- `RawTrees` has the linked nodes, insertion as the source's loops over them, and the freezing copy. A ghost
  shape records which references form the tree; it stays disjoint and linked, and the heap always holds the
  value that the functions of `RouteTree` compute.
- `RouteInsertion` and `RouteConflicts` say what an insertion registers, when it is accepted, and what it
  leaves in the queue; `RouteFiling` says under which pattern, in terms of the registered patterns alone.
  `RouteMap` lifts this to whole histories of additions, failing ones included, and `SharedParameters` runs
  through the smallest histories in which two routes share a parameter.
- `Lookup` has the loop of `forward`, `LookupProofs` its completeness, soundness and unambiguity with respect
  to `Reg`. `StaticTrees` and `StaticRoutes` treat routers without wildcards.
- `PatternGrammar` has the grammar of route texts, `RouteTexts` what a route text asks for.
- `Router` and `RouterBuild` put the methods together: one tree a method, sorting, building; `Declarations`
  states the result for each declaration. `Hints` and `WildHints` have the redirect hint. `Mounts` adds
  sub-builders under a static prefix, `ParameterMounts` static ones under a prefix with parameters,
  `MountedRoutes` those of a builder that has routes already, and `RouteOrders` says what the order of the routes changes.

**The connection callback** (`Connection`): the function libmicrohttpd calls for the first notice of a request,
for each piece of its body and for its end, as an object with the same branches, and its runs under an
environment that presents the unconsumed tail of the body again. `ConnectionRuns` says which answer of the code
outside causes which reply, over all runs.

**The barrier** (`Barrier`): the start-up barrier as a transition system over arbitrarily many threads, with
spurious wakeups.

Four notions recur in the statements.

- *Filed and spelled*: walking through an existing parameter node does not pop the queue, so a route that shares
  parameters with an earlier one is filed under the earlier route's names and expressions, and its later
  wildcards are read from the front of the queue, where the shared ones still stand. `FiledOf` is the finite map
  this makes of any history: a route goes along a registered pattern that shares most parameters with it, then
  reads the queue from its front. After every history the tree is exactly this map (`TreeIsFiled`), and all
  theorems about the router are stated for it, with no condition on the routes. `TableOf` is the map a reader of
  the route texts expects. The tree is that map, all along a history, if and only if every accepted route
  repeats the parameters it shares: its wildcards equal the shared ones, name by name and expression by
  expression, in a cycle (`TreeIsMap`, `AsSpelled`). `/u/{:id}/posts` and `/u/{:id}/comments` do;
  `/{p:x}/a` and `/{p:y}/b` do not (`SharedParameterMisbinds`), nor do `/{p:x}/a` and `/{p:x}/b/{r:y}`
  (`SharedParameterMistypes`).
- *The assertion of `addRoute`*: the queue is empty after an accepted route. `QueueEmpties` proves that this holds
  exactly when the route shares no parameter with a registered pattern and no wildcard follows a catch-all;
  routes that meet it are filed as spelled (`AssertedIsSpelled`), but not only those
  (`RepeatedParameterIsFiled`).
- *Fills* (`Fits`, `Fill`, `Bind`): one text for every wildcard of a pattern, nonempty; a parameter's text has no
  slash and is matched by its regular expression.
- *Explains*: how a served request relates to its pattern. It differs from an instance in what the code does
  with an empty parameter segment: its expression is not enforced, and when the parameter carries a handle the
  search ends there with the rest of the request unread.

## Model

| member | source | states |
|---|---|---|
| Text.FindLongestCommonPrefix | lib/src/router.cc:135-142 | the loop stops at the longest common prefix: everything before agrees, the next characters differ |
| Text.FindUntilSlash | lib/src/router.cc:128-134 | the length of the maximal slash-free prefix |
| Text.FindWildcard | lib/src/router.cc:144-153 | the first ':' of the path, or -1 when there is none |
| Patterns.Split | lib/src/utils.cc:217-236 | the shrinking loop yields the maximal nonempty slash-free runs, in order |
| Patterns.SegmentsOfJoin | lib/src/utils.cc:217-236 | splitting undoes joining with slashes, whatever follows |
| Patterns.RouteIsJoin | lib/src/utils.cc:217-236 | joining undoes splitting on accepted paths, up to one final slash |
| PatternProofs.FormatRoundTrip | lib/src/router.cc:279-299 | a completed wildcard that is printed and read back is itself, under any numbering |
| PatternProofs.PiecesRoundTrip | lib/src/router.cc:360-428 | the printed segments of an accepted route are runs and are parsed into the same pieces |
| PatternProofs.RoundTrip | lib/src/router.cc:338-452 | parsing the full path kept for an accepted route succeeds with the same wildcards and the same full path, and the same calculated path but for a final slash |
| PatternProofs.ParsedShape | lib/src/router.cc:434-446 | the calculated path starts with a slash, has one ':' for every queued wildcard, and every ':' ends its segment |
| PatternProofs.StaticParse | lib/src/router.cc:367-369 | a route of static segments is accepted, calculated as itself and queues nothing |
| PatternGrammar.RouteGrammar | lib/src/router.h:19-19 | a text is a route exactly when it is a slash, or nonempty slash-free runs with a slash before each, with or without one behind |
| PatternGrammar.PrefixGrammar | lib/src/router.h:21-21 | a prefix for sub-routes is the same without a slash behind |
| PatternGrammar.CatchAllGrammar | lib/src/router.h:13-13 | a segment is a catch-all with that prefix and name exactly when it spells them, and in one way only |
| PatternGrammar.ParamGrammar | lib/src/router.h:15-15 | the same for parameters: prefix, expression without a colon, optional name |
| PatternGrammar.ParseRefuses | lib/src/router.cc:338-432 | a text is refused exactly when it is no route or one of its segments is neither static nor a wildcard whose expression compiles |
| PatternGrammar.RouteDeclares | lib/src/router.cc:370-412 | the queue of an accepted route holds exactly its wildcard segments, in order, as declared; missing names are numbered from 1 on in order, missing expressions are the default |
| PatternGrammar.DecimalIsNumber | lib/src/router.cc:378-382 | the number in a missing name is written in decimal |
| RouteTexts.RouteTextFills | lib/src/router.cc:338-452 | a route stands for exactly the requests its text asks for: what is outside braces is copied, the final slash included, and each brace is replaced with the next text; this pins the calculated path, prefixes of wildcards included |
| RouteTexts.RouteTextIsServed | lib/src/router.cc:666-888 | an accepted declaration is served, at its own controller, for the requests that its route text asks for |
| PathParsing.PathParser.ParsePathSegment | lib/src/router.cc:338-452 | the in-place parser accepts exactly the paths the grammar accepts, appends exactly their wildcards to the queue, and keeps its texts on failure |
| PathParsing.PathParser.ReadSegments | lib/src/router.cc:360-428 | the loop over the segments: its texts and pushed wildcards are those of the whole list, and one bad segment fails it |
| PathParsing.ReadSegment | lib/src/router.cc:365-427 | one segment: static, catch-all before parameter, default pattern, numbering of missing names, uncompilable expressions refused |
| RouteInsertion.FreshBranch | lib/src/router.cc:550-630 | writing a route below an empty node succeeds, yields an ordinary node that holds exactly that route, and pops one parameter for every wildcard written |
| RouteInsertion.WildBranch | lib/src/router.cc:568-619 | the same for the node made for a wildcard: PARAM with path ":" or CATCH_ALL with a handle, and what follows a catch-all is dropped |
| RouteInsertion.Splitting | lib/src/router.cc:482-498 | a split keeps the invariant and every registered pattern |
| RouteInsertion.Growing | lib/src/router.cc:530-537 | a new static child adds exactly one pattern, which was free, and keeps all others |
| RouteInsertion.Hanging | lib/src/router.cc:553-566 | a wildcard hung below an ordinary node is refused when there are children and else adds exactly one pattern |
| RouteInsertion.InsertEffect | lib/src/router.cc:470-548 | for every pattern: an insertion registers one pattern that was free before, or none, keeps all others, and keeps the invariant also when it fails |
| RouteConflicts.StepDecides | lib/src/router.cc:479-547 | the outcome of an insertion is decided at each node by the conflict tests alone |
| RouteConflicts.AcceptedIsConflictFree | lib/src/router.cc:500-548 | an accepted route collides with no registered pattern: equal, or wildcard against something else at the first difference |
| RouteConflicts.RejectedHasConflict | lib/src/router.cc:500-566 | a rejected route collides with a registered pattern, which the proof exhibits |
| RouteConflicts.WalkDividesWilds | lib/src/router.cc:500-528 | the ':' left in the path plus the wildcard nodes walked through are the ':' of the whole path |
| RouteConflicts.QueueConservation | lib/src/router.cc:553-594 | the queue never underflows, and a successful insertion pops exactly the wildcards it writes |
| RouteConflicts.EffectiveIsRequested | lib/src/router.cc:500-528 | a route whose walk meets no wildcard node is registered as the pattern it spells |
| RouteFiling.SameLeads | lib/src/router.cc:500-528 | the walk goes on wherever the path goes on along a registered pattern |
| RouteFiling.WalkFollows | lib/src/router.cc:500-548 | no registered pattern shares more parameters with the route than the walk meets wildcard nodes, and along any that shares as many the route is filed |
| RouteFiling.WalkIsFollowed | lib/src/router.cc:503-508 | some registered pattern shares every wildcard node the walk meets |
| RouteFiling.SpelledAlong | lib/src/router.cc:503-594 | filing along a pattern gives the route as spelled if and only if its queue repeats the shared parameters in a cycle, catch-alls included |
| RawTrees.RawNode.FindIndice | lib/src/router.cc:169-179 | the child position under a character, or none |
| RawTrees.MoveBelow | lib/src/router.cc:482-498 | every field of the split node and of its new child |
| RawTrees.SplitNode | lib/src/router.cc:482-498 | the split on linked nodes is the split of the tree they hold; the nodes stay disjoint |
| RawTrees.InsertChildAt | lib/src/router.cc:550-630 | the loop over linked nodes computes the same tree, answer and queue as insertion on values, keeps the nodes disjoint and linked, and terminates because the path gets shorter |
| RawTrees.InsertLoop | lib/src/router.cc:479-547 | the same for the walk of an insertion |
| RawTrees.RawTree.Insert | lib/src/router.cc:470-548 | the same at the root, where the first route goes straight to the writing loop |
| RawTrees.RawTree.AddRoute | lib/src/router.cc:454-468 | adding a route text keeps the tree's invariant, failing or not, and its value, answer and leftover queue are those of the map's addition |
| RawTrees.InsertVia | lib/src/router.cc:479-547 | the loop's order, split first and then decide, gives the outcome of insertion |
| RawTrees.Regraft | lib/src/router.cc:529-538 | rewriting one subtree in place changes the whole tree at that position only, and keeps it disjoint and linked |
| RawTrees.BuildChild | lib/src/router.cc:212-226 | the immutable copy equals the tree before its handles and expressions are moved out |
| RouteMap.TreeIsValid | lib/src/router.cc:454-548 | after every sequence of additions, failing ones included, the structural invariant holds |
| RouteMap.AdditionEffect | lib/src/router.cc:454-468 | every addition registers at most one pattern, which was free, and a failed one changes none, shared wildcards included |
| RouteMap.AcceptsAgree | lib/src/router.cc:500-566 | the tree accepts a route if and only if it parses and collides with no pattern of the map |
| RouteMap.QueueEmpties | lib/src/router.cc:461-465 | the code's assertion: an accepted route leaves the queue empty if and only if it shares no parameter and no wildcard of it follows a catch-all; else the end of its queue is left |
| RouteMap.QueueLeft | lib/src/router.cc:461-465 | the exact number left in the queue: one for every shared parameter, and those that follow a catch-all |
| RouteMap.WalkedIsShared | lib/src/router.cc:503-508 | the walk meets a wildcard node if and only if the route shares a parameter with a registered pattern |
| RouteMap.Filing | lib/src/router.cc:479-594 | the tree files a route where the map says, whichever of the patterns that share most is taken |
| RouteMap.FiledAsSpelled | lib/src/router.cc:503-594 | a route is filed as spelled if and only if it repeats the parameters it shares with the map |
| RouteMap.SpelledStepIsExact | lib/src/router.cc:454-548 | one addition keeps the tree equal to the map of spelled routes if and only if the route is rejected or repeats what it shares |
| RouteMap.TreeIsFiled | lib/src/router.cc:454-594 | after every history the tree is the finite map of the accepted routes as filed, for every pattern |
| RouteMap.TreeIsMap | lib/src/router.cc:454-594 | the tree is the finite map of the accepted routes as spelled, all along a history, if and only if every accepted route repeats the parameters it shares with earlier ones |
| RouteMap.AssertedIsSpelled | lib/src/router.cc:461-465 | if the code's assertion never fails, every accepted route is filed as spelled |
| RouteMap.FreeAtFiling | lib/src/router.cc:540-546 | an accepted route is filed under a pattern that was free |
| RouteMap.FiledStays | lib/src/router.cc:454-548 | every accepted route keeps its filed pattern and its controller through all later additions, whatever they are |
| SharedParameters.SharedParameterMisbinds | lib/src/router.cc:503-508 | after "/{p:x}/a", the route "/{p:name}/b" with another name is accepted, leaves its parameter in the queue, and is found under the name x only; for every name and expression that a route can carry |
| SharedParameters.SharedParameterMistypes | lib/src/router.cc:559-578 | after "/{p:x}/a", the second wildcard of "/{p:x}/b/{r:y}" gets the name x and the expression p |
| SharedParameters.RepeatedParameterIsFiled | lib/src/router.cc:503-508 | after "/{p:x}/a", "/{p:x}/b" is filed as spelled although the assertion on the queue fails |
| Lookup.ForwardLoop | lib/src/router.cc:686-855 | the lookup loop terminates on every valid tree, never meets an unexpected node type below a wild node, and computes the recursive meaning of the lookup |
| LookupProofs.Completeness | lib/src/router.cc:666-860 | a request that fills a registered pattern reaches its controller, binds the fills and gives no redirect hint |
| LookupProofs.FirstFillBinds | lib/src/router.cc:717-731 | after such a lookup each name has its earlier value, or else the text of its first wildcard, and no other name is bound |
| LookupProofs.DistinctNamesBind | lib/src/router.cc:717-731 | with distinct names and an empty map exactly the fills are bound |
| LookupProofs.Soundness | lib/src/router.cc:686-855 | a served request has a registered pattern with that controller which explains it, with the bindings as returned; of all that explain it, it is the one that begins the others |
| LookupProofs.ExplainsOnce | lib/src/router.cc:686-855 | a registered pattern explains a request with one choice of texts and one unread rest only |
| LookupProofs.SamePatternsServe | lib/src/router.cc:686-855 | trees with the same patterns give the same answers and bindings, whatever their shapes are |
| LookupProofs.ExplainedIsServed | lib/src/router.cc:686-855 | the converse: whatever a registered pattern explains is served |
| LookupProofs.LooseIsFit | lib/src/router.cc:726-744 | when every text is nonempty the explanation is an instance of the pattern |
| LookupProofs.Unambiguous | lib/src/router.cc:500-566 | no request is an instance of two registered patterns, nor of one in two ways |
| LookupProofs.SplitServes | lib/src/router.cc:482-498 | a split changes the controller and bindings of no request |
| LookupProofs.FailedInsertServes | lib/src/router.cc:479-566 | a rejected insertion changes the controller and bindings of no request, even when it has split a node on the way |
| StaticTrees.StaticForward | lib/src/router.cc:690-715 | without wildcards the lookup is exactly the registered map and binds nothing |
| StaticTrees.TrailingSlash | lib/src/router.cc:827-851 | when only the request followed by a slash is registered, the lookup fails with the redirect hint, at a node or inside an edge |
| Hints.SlashHint | lib/src/router.cc:745-851 | in any tree, a refused request that fills a registered pattern but for its final slash, or for a slash and a catch-all behind text, is refused with the redirect hint |
| Hints.RouterSlashHint | lib/src/router.cc:745-851 | the same for the built router, whatever was declared |
| Hints.StaticExtraSlash | lib/src/router.cc:701-715 | in a static router, a registered route requested with a slash too many is refused with the hint exactly when no two routes branch right behind that slash |
| WildHints.ExtraSlashHint | lib/src/router.cc:701-760 | in any tree, a request that fills a registered pattern and has a slash too many is refused with the hint where nothing goes on with a slash or a wildcard |
| WildHints.SlashBeforeParam | lib/src/router.cc:804-825 | a refused request that ends with a slash where a parameter comes next is refused with the hint exactly when that parameter may not be empty |
| WildHints.BranchSlashHint | lib/src/router.cc:827-843 | a refused request that lacks the slash before a parameter that may be empty is refused with the hint where the routes branch right behind it |
| StaticTrees.CompressionBound | lib/src/router.cc:482-498 | a tree whose nodes all have a handle or two children has at most twice its handles minus one nodes |
| StaticTrees.StaticInsert | lib/src/router.cc:479-547 | a static insertion keeps the tree compressed, adds one handle or changes nothing, and leaves the queue alone |
| StaticRoutes.TreeHoldsTable | lib/src/router.cc:454-548 | after any sequence of static additions the tree holds exactly the first controller given for each path, one handle each, compressed |
| StaticRoutes.StaticAddition | lib/src/router.cc:540-546 | a static addition fails exactly for a path already there, and else adds that path |
| StaticRoutes.StaticRefinement | lib/src/router.cc:666-860 | static routers refine a finite map: lookups return its values and additions fail exactly for duplicates and malformed texts |
| StaticRoutes.StaticSize | lib/src/router.cc:482-498 | with n accepted static routes there are at most 2n-1 nodes |
| StaticRoutes.StaticTrailingSlash | lib/src/router.cc:827-851 | the redirect hint for every static router and every route registered only with a final slash |
| StaticRoutes.TableEntries | lib/src/router.cc:540-546 | with distinct paths the map holds exactly the declared routes |
| StaticRoutes.OrderIrrelevant | lib/src/router.cc:479-547 | lookups do not depend on the order of the additions |
| RouteOrders.SameMapServes | lib/src/router.cc:666-860 | histories that file the same patterns give the same answers |
| RouteOrders.SameMapsServe | lib/src/router.cc:666-888 | the same for whole routers |
| RouteOrders.SpelledTable | lib/src/router.cc:500-566 | without collisions the map of spelled routes holds exactly what is declared |
| RouteOrders.AnyOrder | lib/src/router.cc:479-566 | two orders of routes that collide nowhere, and repeat in both what they share, file alike and give the same answers |
| RouteOrders.OrderMatters | lib/src/router.cc:503-578 | repeating must hold in both orders: of two routes one order files both as spelled, the other does not |
| Router.MethodIsolation | lib/src/router.cc:686-688 | in whatever order the trees stand, a request is served by the routes of its own method alone |
| Router.RouterComplete | lib/src/router.cc:666-888 | completeness for the built router, whatever was declared: a request that fills a filed pattern of its method reaches its controller with those bindings |
| Router.RouterSound | lib/src/router.cc:666-888 | a served request is explained by a filed pattern of its method with that controller and those bindings, and this pattern begins every other one that explains it; with no empty text the request is an instance |
| Router.RouterServes | lib/src/router.cc:666-888 | a request is served if and only if some filed pattern of its method explains it, whatever was declared |
| Router.AcceptedIsOk | lib/src/router.cc:454-468 | accepted by the map means that addRoute returned true |
| Declarations.DeclarationIsEntry | lib/src/router.cc:862-880 | declaration k is, for its method, the addition after those of the earlier declarations for it, with the prefix before its path and its own controller |
| Declarations.EntryIsDeclaration | lib/src/router.cc:862-880 | and there are no other additions |
| Declarations.AcceptedByMap | lib/src/router.cc:877-882 | a declaration is accepted in its turn exactly when it parses and collides with nothing filed before for its method |
| Declarations.DeclaredIsServed | lib/src/router.cc:666-888 | every accepted declaration is served where it was filed, at its own controller, whatever else was declared |
| Declarations.DeclaredAlone | lib/src/router.cc:666-888 | every accepted declaration that repeats the parameters it shares with what was filed before it is served as spelled, whatever else was declared |
| Declarations.ServedIsDeclared | lib/src/router.cc:666-888 | whatever is served for a method is the controller of an accepted declaration for that method, whose filed pattern explains the request |
| Router.SameTableServes | lib/src/router.cc:666-860 | the answer to a request, and its bindings when there is one, is a function of the map of filed patterns, whatever shape the tree has |
| Router.RouterUnambiguous | lib/src/router.cc:500-566 | filed patterns of one method never compete for a request, whatever was declared |
| Router.FailedAdditionServes | lib/src/router.cc:454-566 | after any history, a failed addition changes the controller and bindings of no request |
| Mounts.PrefixedParse | lib/src/router.cc:338-452 | a static prefix before a route changes nothing in parsing but the start of the calculated path |
| Mounts.InsertLifts | lib/src/router.cc:479-548 | inserting under the prefix gives the same tree with a longer root path, the same answer and the same queue |
| Mounts.AdditionLifts | lib/src/router.cc:454-468 | the same for a whole addition, rejected ones included |
| Mounts.TreeLifts | lib/src/router.cc:912-926 | the tree of a mounted history is the sub-builder's tree with a longer root path |
| Mounts.MountedPatterns | lib/src/router.cc:912-926 | it holds each pattern of the sub-builder behind the prefix, and nothing else |
| Mounts.LiftServes | lib/src/router.cc:666-860 | lookups of prefix followed by p in it are those of p in the sub-builder's tree |
| Mounts.Mounting | lib/src/router.cc:912-926 | prefix followed by p is served by the mounted router as p is by the sub-router alone, wildcards and rejected routes included, for texts that begin with a slash |
| MountedRoutes.RouteBuilder.Add | lib/src/router.cc:896-899 | a declaration is appended |
| MountedRoutes.RouteBuilder.AddAll | lib/src/router.cc:912-926 | the routes of another builder are appended, each behind the prefix, or none if the prefix is bad |
| MountedRoutes.OwnAreFiled | lib/src/router.cc:912-926 | the builder's own routes are judged and filed as without the mounted ones |
| MountedRoutes.OwnAreServed | lib/src/router.cc:912-926 | every accepted route of the builder is still served, at its own controller, whatever is mounted |
| MountedRoutes.MountedIsAccepted | lib/src/router.cc:912-926 | a mounted route that parses behind the prefix and collides with nothing filed before is accepted there |
| MountedRoutes.MountedIsServed | lib/src/router.cc:912-926 | and is served behind the prefix, at its own controller, for the requests its text asks for there |
| MountedRoutes.BadPrefixMountsNothing | lib/src/router.cc:914-918 | a prefix that is no prefix for sub-routes changes no answer of the builder |
| Mounts.StepMounts | lib/src/router.cc:912-926 | for any route text, one addition keeps the mounted map behind the prefix if and only if the text begins with a slash or is refused behind the prefix too |
| Mounts.MountsExactly | lib/src/router.cc:912-926 | for any route texts, the mounted map is the sub-builder's behind the prefix, all along a history, if and only if every text without a leading slash is refused there |
| Mounts.MountedAnswers | lib/src/router.cc:912-926 | under that condition the mounted router answers prefix followed by p as the sub-router answers p |
| Mounts.MountedTextBecomesRoute | lib/src/router.cc:912-926 | the condition can fail: "b" is refused, and is accepted behind "/a" |
| ParameterMounts.MountedParse | lib/src/router.cc:338-452 | behind a prefix with parameters a static route queues the parameters of the prefix and only lengthens its calculated path |
| ParameterMounts.MountedMap | lib/src/router.cc:454-594 | a static builder mounted there is filed as spelled: exactly its routes behind the pattern of the prefix, first controllers first |
| ParameterMounts.ParameterMounting | lib/src/router.cc:912-926 | a request that fills the prefix and goes on with p is answered as p is by the static sub-router alone, with the parameters of the prefix bound |
| RouterBuild.RawBuilder.GetMethodTree | lib/src/router.cc:252-264 | at most one tree for a method; a new one is empty and the others are untouched |
| RouterBuild.RawBuilder.AddAt | lib/src/router.cc:266-270 | an addition changes the tree of its method only |
| RouterBuild.RawBuilder.Add | lib/src/router.cc:266-270 | every declaration keeps each method's tree equal to the history of its own additions |
| RouterBuild.SortedOrder | lib/src/router.cc:632-656 | sorting is a permutation in the order of the method ranks |
| RouterBuild.RankDispatches | lib/src/router.cc:634-650 | ranks order the methods as GET, POST, DELETE, PUT, OPTIONS, and all others behind them |
| RouterBuild.RawBuilder.Sort | lib/src/router.cc:632-656 | sorting permutes the trees, puts the methods in the order of dispatch and changes no tree |
| RouterBuild.BuildTree | lib/src/router.cc:862-888 | the frozen forest is that of the declarations, in the order of dispatch; success means that every declaration was accepted in its turn, and the controllers kept are those of KeptAreAccepted |
| RouterBuild.KeptAreAccepted | lib/src/router.cc:877-882 | the controllers kept are those of the accepted declarations, each in its turn, and no others |
| Connection.ConnectionObject.Callback | lib/src/http.cc:186-348 | one call: new state, remaining size, answer and user callbacks, in every branch |
| Connection.ConnectionObject.FirstRound | lib/src/http.cc:210-257 | the first call: unknown method, refused check, controller, redirect and not-found |
| Connection.ConnectionObject.MoreData | lib/src/http.cc:296-345 | a data call: refusals drain the buffer, a processor is believed up to the size of the chunk, the sentinel is an error |
| Connection.InvKept | lib/src/http.cc:186-348 | every call keeps the invariant of the protocol and never leaves more than it was given |
| Connection.BodyConservation | lib/src/http.cc:304-345 | over all runs chunks continue where the kept bytes end, the kept bytes are the consumed prefix of the body outside the error state, and they are the whole body at every end signal and request |
| Connection.PhasesOrder | lib/src/http.cc:210-295 | any log the phases accept is ordered, for any two of its events |
| Connection.CallbackOrder | lib/src/http.cc:210-323 | over all runs: onConnection once and first, then data, at most one finish, then requests; a finish precedes any request after data, and nothing follows an error |
| Connection.HandledRuns | lib/src/http.cc:296-345 | with an error handler that returns responses, no run queues a null response and the error state holds one |
| Connection.ErrorEntry | lib/src/http.cc:296-335 | the call that enters the error state answers nothing yet and holds the response its error handler made |
| Connection.ErrorStep | lib/src/http.cc:261-269 | a call in the error state stays there, calls no user code, drains all data, and queues the held response at the end |
| Connection.ErrorRuns | lib/src/http.cc:261-269 | over any run from an error on: at most one call a byte, and then exactly the held response |
| Connection.ErrorsAnswered | lib/src/http.cc:261-345 | every error of every run, in whatever pieces the rest of the body comes: it is drained without user code, and a run that goes on as long as it can queues exactly the response made by the call that failed |
| ConnectionRuns.FirstReply | lib/src/http.cc:210-257 | the first call: an unknown method or a missing route sends the error handler's response, a refused check its own, a response from onConnection that one, and only a routed request runs onConnection |
| ConnectionRuns.OpenRequest | lib/src/http.cc:210-257 | a request still open later was routed then, and goes by the method and the processor of its first call for good |
| ConnectionRuns.EndReply | lib/src/http.cc:274-295 | over all runs, a call after the whole body signals the end once if there was data, and else hands the request over and queues exactly the response that onRequest set |
| ConnectionRuns.DataReply | lib/src/http.cc:296-345 | over all runs, a call with data fails exactly in a GET request, without a processor, or when the processor refuses, and then drains the piece; else it advances by what the processor read, up to the piece |
| ConnectionRuns.OnlyReplies | lib/src/http.cc:186-348 | outside the error state nothing is queued but by the first call and by onRequest |
| ConnectionRuns.BytesRead | lib/src/http.cc:335-345 | over a run, the bytes kept add up to what the processor said it read of every piece, up to the piece, and outside the error state these are the bytes consumed |
| Barrier.StepKeeps | lib/src/utils.h:160-170 | every step of every thread keeps the invariant of counter, lock and sleepers |
| Barrier.BarrierSafety | lib/src/utils.h:140-171 | in every run nobody returns before all have arrived, the counter is the number missing, and sleepers after the last arrival have a waker |
| Barrier.StepDescends | lib/src/utils.h:160-170 | after the last arrival every step, spurious wakeups included, lowers a rank |
| Barrier.SomeStep | lib/src/utils.h:160-170 | and some thread can always step until all have returned |
| Barrier.AllReturn | lib/src/utils.h:160-170 | so every run that goes on as long as it can brings everybody back, with no lost wakeup |
| Barrier.ExtraArrivalNeverReturns | lib/src/utils.h:160-170 | an arrival after the counter reached 0 wraps it, and that thread never returns |
| Barrier.LaterArrivalPasses | lib/src/utils.h:163-164 | every arrival after the counter has wrapped passes at once and changes nothing |
| Barrier.ExtraArrivalIsReachable | lib/src/utils.h:153-170 | such an arrival can happen: after one thread has passed a barrier for one |

## Left out

- Mounts.Mounting: equates controllers and bindings, not the redirect hint, for route texts that begin with a slash; Mounts.MountsExactly and Mounts.MountedAnswers cover the others.
- Mounts.AdditionLifts: for a text that begins with a slash; for the others the exact condition is Mounts.StepMounts.
- Mounts.TreeLifts: for texts that begin with a slash; for the others the exact condition is Mounts.MountsExactly.
- ParameterMounts.ParameterMounting: static sub-builders and prefixes without catch-alls; routes with wildcards of their own share the parameters of the prefix, so RouteMap.FiledAsSpelled decides where they are filed, and what follows a catch-all is dropped.
- LookupProofs.FailedInsertServes: says nothing about the redirect hint.
- Router.FailedAdditionServes: says nothing about the redirect hint; nor does StaticRoutes.OrderIrrelevant, which equates controllers and bindings.
- StaticRoutes.StaticTrailingSlash: one direction, for a missing slash; the modules Hints and WildHints say more, but not when else the hint is given, in particular where a request ends in a parameter whose only continuation starts with a slash and a wildcard.
- RouteTexts.RouteTextFills: for routes with no catch-all but a last one; what follows an earlier catch-all is dropped.
- RouterBuild.BuildTree: one call on a new router; a second call appends its trees behind those of the first, which win.
- RouterBuild.SortedOrder: one of the orders that sorting may leave among methods of equal rank; MethodIsolation holds for all of them.
- Barrier.BarrierSafety: at most `total` arrivals; what one more does is ExtraArrivalNeverReturns. The stretches of `wait` under the lock are single steps.
- Barrier.AllReturn: stated for runs after the last arrival; fairness of the scheduler is the assumption that a run goes on while it can.
- Connection.BodyConservation: the environment is libmicrohttpd's calling contract, which presents the unconsumed tail again and makes no call after a response; bodies are shorter than the sentinel.
- Connection.HandledRuns: assumes that the error handler returns a response; without one the library would queue a null response, modelled as the reply Crash.
- PCRE2: the fixed URL patterns are written out as predicates on whole texts, users' expressions are deterministic oracles for compiling and matching, and the `$` that also matches before a final line break is ignored.
- The classes of characters are ASCII, and strings hold no NUL character.
- libmicrohttpd itself, sockets, response creation, the Location header of a redirect and connection logging: only the calling contract is modelled.
- Method names, the request check, user callbacks and response objects: their answers are parameters of a call; a data processor is set during onConnection or not at all.
- Ownership of nodes and controllers, destructors and the two halves of a handle: a handle is an optional controller number.
- Name resolution, socket addresses, signals and the application manager: calls into the operating system around a small list.
- Form parsing, response headers, status texts, the default error handler and the other printers: text output or code inside libraries.
- The comment at lib/src/router.cc:436 speaks of -1 as the wildcard mark; the code uses ':' and so does the model.
