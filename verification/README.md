# Verification of the embedded HTTP router and the placeholder rewriting

This project models the HTTP router in `internal/httprouter` (a mutable radix tree with wildcards and its
three lookups, the in-place path cleaner, the per-method router state, and the decision that combines them)
and the placeholder rewriting in `url.go`, and proves what they are for.

The main results:

- **Registration.** `addRoute` accepts a pattern exactly when it is well formed and compatible with every
  pattern already there (`Insertion.InsertAccepts`, `RouteTable.AddRouteSpec`); so a set of registrations is
  accepted in one order exactly when it is accepted in every order, and then the same requests are handled by
  the same handles with the same values (`Registry.RunOrderIrrelevant`). An accepted registration adds exactly
  one pattern, and no other path changes its handle or values (`Insertion.InsertGrows`,
  `RouteTable.AddRouteFrame`). Every node counts the handles below it, and siblings are sorted by that count
  (`Priorities.InsertPriorities`). One rejection is not meant as one: a `*` straight after a registered pattern makes
  the router look at a byte that is not there. `IndexFault.FaultsExactly` says exactly which patterns do that.
- **Patterns.** Patterns, matches and compatibility are byte-string functions; each is proved equal to what it means
  on lists of tokens: a match is a filling of the wildcards with values (`Tokens.WellFormedExactly`,
  `Tokens.MatchExactly`, `Tokens.CompatibleExactly`).
- **Lookup.** After any run of registrations a lookup is a linear scan of the registered patterns, and at most
  one of them matches (`RouteTable.LookupIsScan`, `RouteTable.MatchUnique`, `Registry.ServeIsScan`). No lookup
  in a reachable tree panics (`Lookup.GetSafe`).
- **The heap.** The nodes are objects that are updated in place. `NodeHeap.Node.AddRoute` splits edges, moves
  children and hangs new nodes on the heap, and is proved to compute the registration function; the two
  loops over the nodes, `NodeLookup.GetValue` and `NodeCaseLookup.FindRec`, are proved to compute the lookup
  functions, including every index, every slice of the parameter buffer and every append to the path buffer.
- **Trailing slashes.** The documentation says that a recommendation is made if and only if a handle exists
  with an extra, or without the, trailing slash. That is not what the code computes. `Advice.AdviceExact`, for paths
  without a trailing slash, and `AdviceSlash.AdviceExactSlash`, for all others, say exactly when the recommendation
  is made, `AdviceSlash.DocumentedExactly` says for every path exactly when it is the documented one, and module
  `AdviceExamples` has four families of routers for which it is not.
- **Case-insensitive lookup.** What it finds is dispatched and is the input up to case, with the wildcard values
  untouched; where a slash is dropped it may lead nowhere, but the values are still those of the input
  (`CaseLookup.FoundIsDispatched`, `Spelling.AgreeExactly`). It does not find everything that matches up to case: a
  catch-all at the root, or straight after a parameter, hangs below a node with an empty path, and the search leaves
  that node only if the last edge it took was a slash. `CaseLookup.FoundExactly` says exactly what is found, and
  `CaseSlash.FixedExactly` what is found when a slash may be added or dropped. Where several patterns match up to case,
  the lower-case spelling wins (`CaseOrder.LowerFirst`).
- **Cleaning.** The read/write-index algorithm computes the stack of path segments (`PathCleaner.CleanPath`); the
  result is canonical, and cleaning is idempotent (`CleanSpec.CleanCanonical`, `CleanSpec.CleanIdempotent`). It obeys
  the documented rules as laws about paths, and it is the only function that does (`CleanLaws.OnlyClean`).
- **Requests.** A run of calls is accepted exactly when each is well formed and no two conflict; a request is then
  handled by the handler of the call whose pattern matches it, and by no other (`Requests.RunAccepts`,
  `Requests.ServedExactly`, `Requests.FilledIsServed`).
- **Redirects.** Exactly when a request is redirected, where, and with which status (`Redirects.RedirectsExactly`,
  `Redirects.StripsSlash`, `Redirects.AddsSlash`); and every redirect chain ends (`Dispatch.RedirectsEnd`).
- **The router.** Registration on the router object, the cached Allow list, and the decision of `ServeHTTP`
  agree with their specification as functions (`RouterState.Router.Handle`, `Serving.ServeHTTP`); Allow lists
  do not depend on the order in which a map is walked, and the methods can be read back from the header
  (`AllowText.SpellsUnique`, `AllowText.SpellsReadable`). The buffers are as large as the most demanding call asks for
  (`Serving.SetUp`).
- **Parameter buffers.** In every interleaving of lookups no slice leaves its pooled buffer, no buffer is shared or put
  back twice, each handler reads the values of its own request, no lookup waits for another. A request that
  meets a wildcard and finds nothing does not put its buffer back; but for these, for panics, and for what the pool
  drops itself, no buffer is lost (`ParamPool.RunSafe`, `ParamPool.HandlerSeesOwn`, `ParamPool.NeverStuck`,
  `ParamPool.NoneLost`).
- **Placeholders.** Replacing the names one after the other in any order is the simultaneous substitution exactly
  when no name is another one with the prefix (`Placeholders.OrderIrrelevantExactly`).

A byte string is a `string`, one `char` for each byte. A handler is an opaque number. Where the router panics at
registration the model returns a rejection, and the tree or router is then abandoned, as the tests of the tree do.
Registration comes before serving. A client resolves the empty redirect target to `/`.

## Layout

| file | content |
|---|---|
| `Bytes.dfy`, `Pattern.dfy`, `Tokens.dfy` | byte strings; patterns: matching, well-formedness, compatibility; the same on lists of tokens |
| `RadixTree.dfy` | the tree as a value, its invariant, the patterns it holds, registration as a function |
| `Denotation.dfy`, `Registration.dfy`, `Insertion.dfy`, `Priorities.dfy`, `IndexFault.dfy` | registration is exact, keeps the invariant and the counts; its one index out of range |
| `Lookup.dfy`, `Capacity.dfy`, `RouteTable.dfy`, `Registry.dfy` | lookup; how many values it saves; runs of registrations for one method and for a router |
| `Advice.dfy`, `AdviceSlash.dfy`, `AdviceSeen.dfy`, `AdviceExamples.dfy` | the trailing-slash recommendation |
| `AsciiCase.dfy`, `CaseLookup.dfy`, `CaseSlash.dfy`, `CaseOrder.dfy`, `CaseExamples.dfy`, `Spelling.dfy` | the case-insensitive lookup |
| `ByteScan.dfy`, `WalkSpec.dfy`, `NodeHeap.dfy`, `NodeLookup.dfy`, `NodeCaseLookup.dfy` | the loops and the heap nodes, proved against the functions above |
| `CleanSpec.dfy`, `CleanLaws.dfy`, `PathCleaner.dfy` | canonical paths and cleaning with a stack; its laws; the in-place cleaner |
| `Dispatch.dfy`, `Requests.dfy`, `Redirects.dfy` | the decision and its redirect chains; what is handled and what is redirected, told by the registrations |
| `StringSort.dfy`, `AllowText.dfy`, `RouterState.dfy`, `Serving.dfy` | the sorted Allow list and its text; the router object; requests |
| `ParamPool.dfy` | the pooled buffers under concurrent requests |
| `Placeholders.dfy` | placeholder rewriting |

## Model

| member | source | states |
|---|---|---|
| Pattern.CompatibleExclusive | internal/httprouter/tree.go:176-198 | two patterns that may be registered together never match the same path |
| Pattern.CompatibleSymmetric | internal/httprouter/tree.go:176-198 | compatibility does not depend on which pattern comes first |
| Pattern.BindingsCount | internal/httprouter/tree.go:54-63 | a match of a well-formed pattern binds as many values as the pattern has wildcard bytes |
| Tokens.WellFormedExactly | internal/httprouter/tree.go:217-319 | a pattern is well formed exactly when it is written from tokens: ordinary bytes, named parameters that fill the rest of a segment, and one named catch-all at the end |
| Tokens.MatchExactly | internal/httprouter/tree.go:326-463 | a pattern matches a path with some bindings exactly when the path is the pattern with values filled in, where a parameter has no slash, and is not empty at the end, and a catch-all is rooted; the bindings are the names with these values |
| Tokens.CompatibleExactly | internal/httprouter/tree.go:148-213 | two patterns are compatible exactly when they differ, and at the first different tokens none is a parameter, nor a catch-all that faces a catch-all or a slash |
| ByteScan.LongestCommonPrefix | internal/httprouter/tree.go:20-27 | the loop finds the first byte in which two strings differ |
| ByteScan.FindWildcardToken | internal/httprouter/tree.go:31-52 | the two loops cut out the first wildcard token, and say whether its name is free of wildcard bytes |
| ByteScan.CountParams | internal/httprouter/tree.go:54-63 | the number of wildcard bytes, modulo 65536 |
| RadixTree.NewPos | internal/httprouter/tree.go:91-95 | a child moves past exactly the contiguous earlier siblings with a smaller priority |
| Registration.InsertChildFresh | internal/httprouter/tree.go:217-319 | filling an empty node accepts exactly the well-formed patterns, and the new subtree is sound and holds exactly the one pattern |
| Registration.AttachStatic | internal/httprouter/tree.go:176-213 | where the walk stops, the rest is accepted exactly when the whole pattern is well formed and compatible with the patterns below, and then exactly that pattern is added |
| Insertion.WildcardMismatch | internal/httprouter/tree.go:148-173 | a rest that differs from the wildcard in place is rejected rightly: the pattern conflicts with one that is registered |
| Insertion.NextStatic | internal/httprouter/tree.go:120-196 | one round at a static node stops, goes down or rejects, and acceptance and the patterns added are decided by what it leaves |
| Insertion.InsertAccepts | internal/httprouter/tree.go:109-215 | registration accepts a pattern if and only if it is well formed and compatible with every pattern of the subtree |
| IndexFault.FaultsExactly | internal/httprouter/tree.go:286-291 | registration looks at the byte before a `*` where there is none exactly when the new pattern is a registered one and a named `*` right after it, where the registered one has a plain last segment, does not end in a slash, and no other pattern continues it |
| IndexFault.FaultRejects | internal/httprouter/tree.go:286-291 | such a pattern is among the rejected ones |
| IndexFault.FaultAfterPlain | internal/httprouter/tree.go:286-291 | after any single plain pattern without trailing slash, that pattern with a named `*` behind it is such a one |
| Insertion.InsertGrows | internal/httprouter/tree.go:109-215 | an accepted registration keeps the invariant and adds exactly the new pattern, through splits, reordering and new wildcards |
| Priorities.InsertPriorities | internal/httprouter/tree.go:85-105 | after a registration every node's priority is the number of handles below it, and siblings are in non-increasing order |
| Priorities.RegrowPriorities | internal/httprouter/tree.go:180-186 | moving a visited child forward restores the order of its siblings and keeps the counts |
| Priorities.SplitPriorities | internal/httprouter/tree.go:128-145 | a split edge passes the count on to its lower half |
| RouteTable.AddRouteSpec | internal/httprouter/tree.go:109-215 | registration at the root of an empty or sound tree: acceptance, invariant, counts and the patterns held, exactly |
| RouteTable.BuildSpec | internal/httprouter/tree.go:109-215 | a run succeeds exactly when its patterns are well formed and pairwise compatible, and the tree then holds exactly its routes |
| RouteTable.MatchUnique | internal/httprouter/tree.go:326-463 | at most one registered pattern matches a path |
| RouteTable.LookupIsScan | internal/httprouter/tree.go:326-463 | lookup is the scan of the list of routes: same handle, same keys and values in order, no recommendation with a handle |
| RouteTable.AddRouteFrame | internal/httprouter/tree.go:109-215 | a path that the new pattern does not match keeps its handle and values; one that it matches had no handle and gets the new one |
| RouteTable.AdmissibleAsBag | internal/httprouter/tree.go:109-215 | whether a list of routes is acceptable is a property of its bag, not of its order |
| Lookup.GetSafe | internal/httprouter/tree.go:362-421 | no lookup in a sound tree meets an invalid node type or an index out of range |
| Lookup.GetFinds | internal/httprouter/tree.go:326-463 | a path that a pattern of the tree matches gets that pattern's handle and bindings |
| Lookup.GetSound | internal/httprouter/tree.go:326-463 | a handle that is returned belongs to a pattern of the tree that matches with the returned bindings |
| Capacity.ParamsFit | internal/httprouter/tree.go:364-375 | a lookup saves at most as many values as the largest pattern has wildcards, even when it finds nothing |
| Advice.HitNoAdvice | internal/httprouter/tree.go:326-463 | a handle never comes with a recommendation |
| Advice.AdviceExact | internal/httprouter/tree.go:423-461 | for a path without trailing slash the recommendation is made exactly when the path is not dispatched, the path with a slash is, and the walk does not stop at a node that cannot see it |
| Advice.AdviceStrips | internal/httprouter/tree.go:349 | if a path is dispatched and the path with a slash is not, looking up the latter recommends to drop the slash |
| AdviceSlash.AdviceExactSlash | internal/httprouter/tree.go:326-463 | for a path with trailing slash that is not dispatched, exactly when a recommendation is made; "/" itself included |
| AdviceSlash.DocumentedExactly | internal/httprouter/tree.go:321-325 | the documented "if and only if" holds for a path exactly when the walk neither misses a slash nor stops with a lone slash left and no handle near |
| AdviceSeen.Recommended | internal/httprouter/tree.go:423-461 | when a registered pattern ends in a slash and matches the path with a slash more, with no empty value, and nothing matches the path itself, the slash is recommended |
| AdviceExamples.InventsSlash | internal/httprouter/tree.go:456-461 | after `a/y` and `az`, the path `a/` gets a recommendation although `a` has no handle |
| AdviceExamples.InventsLoneSlash | internal/httprouter/tree.go:456-461 | with any single plain pattern but "/" and "//", the path "/" gets a recommendation although neither "//" nor the empty path is dispatched |
| AdviceExamples.MissesSlash | internal/httprouter/tree.go:443-452 | after `ax`, `ay` and a catch-all below `a/`, the path `a` gets no recommendation although `a/` is dispatched; with the catch-all registered first it gets one |
| AdviceExamples.MissesEmptyParam | internal/httprouter/tree.go:423-453 | with only `a:x/`, the path `a` gets no recommendation although `a/` is dispatched |
| CaseLookup.FoldSound | internal/httprouter/tree.go:506-685 | every path found is, up to case, the input, or with slashes fixed the input with one slash more or less; a registered pattern matches it (when a slash was dropped: matches it continued by some text) in its own spelling, with the values of the input byte for byte |
| CaseLookup.FoundIsDispatched | internal/httprouter/tree.go:465-487 | at the root, with or without slash fixing: the path found is the input up to case, or with a slash more, is dispatched and binds the values of the input; or it has a slash less and is the beginning of what a pattern matches, with the values of the input; it is dispatched unless the input ends in a slash |
| Spelling.FoldExactly | internal/httprouter/tree.go:506-520 | a pattern matches a path up to case exactly when the path is the pattern with values filled in and its fixed bytes in either case; the values stay as they are |
| Spelling.AgreeExactly | internal/httprouter/tree.go:602-646 | a correction by a pattern has the fixed bytes of the pattern and the values of the input, and is the only one with these values |
| AsciiCase.Alphabet | internal/httprouter/tree.go:556-590 | the two spellings are those of the 26 letters, and every other byte is left alone |
| AsciiCase.MatchIsMatchFold | internal/httprouter/tree.go:506-520 | a match is a match up to case, with the same values |
| CaseLookup.FoldComplete | internal/httprouter/tree.go:506-685 | a path that matches a registered pattern up to case is found, through both spellings at every branch, if the rune buffer still holds the slash wherever the pattern leaves a node with an empty path |
| CaseLookup.FoundExactly | internal/httprouter/tree.go:506-685 | without slash fixing a rooted path is found if and only if it matches, up to case, a registered pattern that is lit in this way |
| CaseLookup.LitUnlessBare | internal/httprouter/tree.go:520-599 | every pattern is lit unless its catch-all is at the root or straight after a parameter |
| CaseLookup.RootCatchAllUnfound | internal/httprouter/tree.go:520-646 | below a catch-all at the root every rooted path is dispatched and none is found |
| CaseOrder.LowerFirst | internal/httprouter/tree.go:537-599 | among all corrections by lit patterns the one is returned that has the lower-case byte wherever it parts from another |
| CaseSlash.FixedExactly | internal/httprouter/tree.go:506-685 | with slash fixing a rooted path is found if and only if it is without, or the exact lookup recommends a slash more or less for some respelling of it, except where the search does not try that |
| CaseSlash.FixTakes | internal/httprouter/tree.go:602-684 | what the exact lookup recommends for a respelled path is found, but for two places where the walk may end |
| CaseSlash.FixFinds | internal/httprouter/tree.go:602-684 | what is found only by fixing a slash is recommended by the exact lookup for some respelling |
| CaseExamples.RootCatchAll | internal/httprouter/tree.go:286-311 | registering a catch-all at the root alone leaves the root with an empty path; every rooted path is then dispatched and none is found |
| CaseExamples.BareAfterParam | internal/httprouter/tree.go:520-646 | with only a parameter and a catch-all straight after it, every path with a second slash is dispatched and none is found |
| NodeHeap.Node.IncrementChildPrio | internal/httprouter/tree.go:85-105 | the in-place swaps and the rebuilt index string are the same permutation, to the position that the new priority demands |
| NodeHeap.Node.MoveToFront | internal/httprouter/tree.go:91-95 | the swapping loop moves one element forward and shifts the others |
| WalkSpec.MoveByte | internal/httprouter/tree.go:97-102 | the index string cut and glued together is the promotion of one byte |
| NodeHeap.Node.AddRoute | internal/httprouter/tree.go:109-215 | on the heap: accepted exactly when the registration function accepts, and the nodes then stand for its result, all sound; the roots of other trees are untouched |
| NodeHeap.Node.WalkDown | internal/httprouter/tree.go:120-215 | the walking loop ends with the whole tree standing for the result, whichever node it stops at |
| NodeHeap.Node.Branch | internal/httprouter/tree.go:147-205 | one round goes on, attaches or rejects as the specification of the round says, and only touches this node and its children |
| NodeHeap.Node.SplitEdge | internal/httprouter/tree.go:128-145 | an edge is cut: the new lower node takes over the children and everything else, and all other nodes stay sound |
| NodeHeap.Node.InsertChild | internal/httprouter/tree.go:217-319 | the loop over wildcards accepts exactly as the function does and hangs exactly its subtree, of fresh nodes, under this node |
| NodeHeap.Node.AddCatchAll | internal/httprouter/tree.go:292-311 | a catch-all becomes two new nodes below this one |
| WalkSpec.GoalReached | internal/httprouter/tree.go:109-215 | what each node is announced to become is what registration makes of it |
| NodeLookup.GetValue | internal/httprouter/tree.go:326-463 | the loop over the nodes computes the lookup function, and each value lands in the buffer within its capacity |
| NodeLookup.EndsHere | internal/httprouter/tree.go:423-454 | the recommendation where the path ends at a node |
| NodeCaseLookup.FindCaseInsensitivePath | internal/httprouter/tree.go:469-487 | the corrected path of the search function, or none, from a buffer large enough for every append |
| NodeCaseLookup.FindRec | internal/httprouter/tree.go:506-685 | loop and recursion together compute the search function and leave the bytes already written alone, also when a branch fails |
| NodeCaseLookup.RoundNewRune | internal/httprouter/tree.go:537-599 | the lower-case edge is searched on its own first, then the walk goes on along the upper-case edge |
| NodeCaseLookup.ShiftRuneBytes | internal/httprouter/tree.go:490-503 | the rune buffer shifted left, filled up with zero bytes |
| PathCleaner.CleanPath | internal/httprouter/path.go:21-124 | the result is the stack-of-segments cleaning of the input, for every input, and at most one byte longer, not longer for a rooted input |
| PathCleaner.BufApp | internal/httprouter/path.go:128-150 | appending a byte keeps "the output so far": the input's own prefix while no buffer is allocated, the buffer's prefix after |
| PathCleaner.Backtrack | internal/httprouter/path.go:79-92 | going back over the output, in the buffer or in the input, removes exactly the last segment |
| PathCleaner.CopyElement | internal/httprouter/path.go:101-108 | the inner loop appends one segment and stops at the next slash |
| PathCleaner.Finish | internal/httprouter/path.go:111-123 | the trailing slash is restored, and the result is the input's prefix or the buffer's |
| CleanSpec.CleanCanonical | internal/httprouter/path.go:11-20 | a cleaned path is rooted and has no empty inner, "." or ".." segment |
| CleanSpec.CanonicalFixed | internal/httprouter/path.go:11-20 | cleaning leaves a canonical path as it is |
| CleanSpec.CleanIdempotent | internal/httprouter/path.go:11-20 | cleaning twice is cleaning once, and the paths that cleaning leaves alone are the canonical ones |
| CleanLaws.SlashSlash | internal/httprouter/path.go:15 | slashes in a row count as one, anywhere |
| CleanLaws.DotElement | internal/httprouter/path.go:16 | a "." element may be left out, anywhere |
| CleanLaws.DotDotElement | internal/httprouter/path.go:17-18 | a ".." element may be left out together with the proper element before it, anywhere |
| CleanLaws.DotDotAtRoot | internal/httprouter/path.go:19-20 | at the root a ".." element may be left out |
| CleanLaws.DotAtEnd | internal/httprouter/path.go:67-69 | a "." at the end leaves a trailing slash |
| CleanLaws.DotDotAtEnd | internal/httprouter/path.go:75-92 | a ".." at the end goes with the element before it, and leaves no trailing slash but that of "/" |
| CleanLaws.Rooted | internal/httprouter/path.go:43-52 | a path that is not rooted is cleaned as if it were |
| CleanLaws.SlashAtEnd | internal/httprouter/path.go:54-115 | the result ends in a slash exactly when it is "/", or the input ends in "/" or "/." |
| CleanLaws.OnlyClean | internal/httprouter/path.go:11-20 | any function from paths to paths that obeys these laws and leaves canonical paths alone is cleaning |
| StringSort.InsertionSort | internal/httprouter/router.go:450-458 | the in-place loops compute insertion sort |
| StringSort.SortLists | internal/httprouter/router.go:450-458 | sorting a list without repetitions gives the ascending list of its elements |
| StringSort.ListingUnique | internal/httprouter/router.go:450-458 | a set of strings has only one ascending list without repetitions |
| Dispatch.AddedSlashEnds | internal/httprouter/router.go:490-498 | adding the recommended slash leads straight to a handle |
| Redirects.RedirectsExactly | internal/httprouter/router.go:482-512 | a request is redirected exactly when nothing registered matches, the method is not CONNECT, the path is not "/", and a wanted recommendation or a wanted correction is there; with 301 for GET and 308 otherwise; to the path without its trailing slash, or with one, when recommended, and else to the corrected path |
| Redirects.StripsSlash | internal/httprouter/router.go:490-493 | a path with a slash too many is redirected to the path without it, when that is registered |
| Redirects.AddsSlash | internal/httprouter/router.go:490-498 | a path that lacks only the final slash of a registered pattern, with no empty value, is redirected to the path with it |
| Redirects.AddedIsMatched | internal/httprouter/router.go:494-496 | a slash is added only where that leads to a registered pattern |
| Redirects.FixedExactlyCase | internal/httprouter/router.go:500-512 | without trailing-slash redirects, a corrected path exists exactly when the cleaned path matches a lit registered pattern up to case, and is then a correction by one |
| Redirects.FixedWithSlash | internal/httprouter/router.go:500-512 | with them, the corrected path is that, or the same with a slash more or less, always in the spelling of a registered pattern with the values of the cleaned path |
| Dispatch.FixedTargetSettles | internal/httprouter/router.go:500-512 | a cleaned or case-corrected target is followed by at most one more redirect |
| Dispatch.RedirectsEnd | internal/httprouter/router.go:482-512 | every redirect chain with the same method ends, within the length of the path plus two |
| Registry.RunSpec | internal/httprouter/router.go:294-341 | a run of registrations succeeds exactly when every call is proper and each method's patterns are well formed and pairwise compatible, and each method's tree is then built from exactly its own routes |
| Registry.RunRouterOk | internal/httprouter/router.go:294-341 | every tree of every reachable router satisfies the structural invariant |
| Registry.ServeIsScan | internal/httprouter/router.go:466-481 | after any run a request is handled exactly when a pattern registered for its method matches, by that pattern's handle and with its values |
| Requests.RunAccepts | internal/httprouter/router.go:294-341 | a run of registrations succeeds exactly when each call has a method, a rooted well-formed pattern and a handler, and no two calls for one method have incompatible patterns |
| Requests.ServedExactly | internal/httprouter/router.go:307-341 | a request is answered by the very handler that was registered with the pattern that matches it, with the values of that match, and with the pattern where the router saves it; and a handled request has such a registration |
| Requests.FilledIsServed | internal/httprouter/router.go:466-481 | whatever values are filled into a registered pattern, the resulting path reaches its handler with exactly these values |
| Registry.RunOrderIrrelevant | internal/httprouter/router.go:294-341 | the order of registration changes neither acceptance nor which requests are handled and how |
| Registry.AllowExact | internal/httprouter/router.go:412-463 | the Allow list of a path has exactly the other methods with a matching pattern, and OPTIONS exactly when it is answered automatically and the list is not empty |
| Registry.RefusalExact | internal/httprouter/router.go:515-546 | a request that is neither handled nor redirected gets the OPTIONS reply or 405 exactly when another method would handle it, or, for the path "*", when any method is registered; and 404 otherwise |
| Registry.ServerWideExact | internal/httprouter/router.go:415-427 | the server-wide list has exactly the methods that something was registered for |
| AllowText.SpellsUnique | internal/httprouter/router.go:412-463 | the Allow header for a set of methods is one text, whatever the order of the map |
| AllowText.SpellsNothing | internal/httprouter/router.go:519-527 | the text is empty exactly when there is no method |
| AllowText.PartsOfJoin | internal/httprouter/router.go:459 | cutting the text at every ", " gives the list back, for names without a comma |
| AllowText.LessIsBefore | internal/httprouter/router.go:453-457 | the order of the list is the order of bytes: the smaller one at the first difference, or the one that ends there |
| AllowText.SpellsReadable | internal/httprouter/router.go:450-459 | the parts of the header text are exactly the methods of the set, in ascending order |
| RouterState.RoomyStep | internal/httprouter/router.go:326-329 | after a registration the capacity covers every pattern that can be counted, with the slot for the matched route |
| RouterState.Router.constructor | internal/httprouter/router.go:214-221 | a new router with the owner's settings holds no tree and keeps its invariant |
| RouterState.Router.Handle | internal/httprouter/router.go:294-337 | accepted exactly when the specification accepts; the router then is the specified one, its trees sound, its capacity sufficient, its cached Allow list fresh |
| RouterState.Router.RootFor | internal/httprouter/router.go:312-322 | a new method's root is put in place and the cached list recomputed before anything is registered below it |
| RouterState.Router.Resize | internal/httprouter/router.go:326-337 | the capacity grows to the 16-bit count of the new pattern when that is larger, and the pool can allocate as soon as it is positive |
| RouterState.Router.Allowed | internal/httprouter/router.go:412-463 | the text of exactly the specified set of methods, from whatever order the map yields |
| RouterState.Router.GetParams | internal/httprouter/router.go:223-227 | a buffer of the pool, whichever it hands out, or a new one of the present capacity; it is then out of the pool |
| RouterState.Router.PutParams | internal/httprouter/router.go:229-233 | the buffer is in the pool again |
| Serving.Query | internal/httprouter/router.go:471-481 | a tree's lookup; a buffer leaves the pool exactly when the path meets a wildcard, and holds the values |
| Serving.CallHandle | internal/httprouter/router.go:235-249 | the handler reads the values, followed by its route if that is saved, and the buffer goes back into the pool |
| Serving.LookUp | internal/httprouter/router.go:397-410 | handle, values and recommendation of the method's tree; nothing for a method without one; the buffer goes back into the pool if nothing was found |
| Serving.ServeHTTP | internal/httprouter/router.go:466-546 | the decision of the object is the decision of the specification: handler with values, redirect with code and target, OPTIONS reply, 405 or 404; a handler reads its values, followed by its route under the reserved name if that is saved, and no buffer is lost by a request that is handled |
| Serving.SetUp | internal/lura/lura.go:43-67 | settings, then registrations: the object succeeds exactly when the specified run does, ends in its router, and its buffers have the most entries that any call asks for |
| Serving.LargestExactly | internal/httprouter/router.go:326-329 | the capacity is the largest of the 16-bit counts of the calls, one more where the route is saved, and 0 without calls |
| Serving.RegisteredIsReady | internal/httprouter/router.go:326-337 | a registered router object meets what the buffers rely on |
| Capacity.BindingsAtMost | internal/httprouter/tree.go:364-375 | any match binds at most as many values as the pattern has wildcard bytes |
| Serving.PlanFits | internal/httprouter/router.go:235-248 | every lookup fits the buffers, and a wrapped handle has a slot left for its route |
| ParamPool.StepSafe | internal/httprouter/router.go:223-249 | every step of any request keeps buffers exclusive, within capacity, and holding only their own request's values |
| ParamPool.RunSafe | internal/httprouter/router.go:223-249 | in every interleaving no slice leaves its buffer, no two lookups hold one buffer, no held buffer is in the pool, and none is in the pool twice |
| ParamPool.HandlerSeesOwn | internal/httprouter/router.go:235-248 | a running handler reads the bindings of its own request, followed by its route if the router saves it; a caller of `Lookup` keeps the bindings of its own |
| ParamPool.StepJob | internal/httprouter/router.go:223-249 | a step of one lookup brings it nearer to its end and touches no other |
| ParamPool.NeverStuck | internal/httprouter/router.go:223-249 | in every reachable state each lookup that is not over can take a step that brings it nearer to its end |
| ParamPool.NoneLost | internal/httprouter/router.go:223-249 | as long as the pool drops nothing, no handler panics, and no request meets a wildcard without finding a handle, every buffer ever made is in the pool or held by a lookup |
| Placeholders.NewParamsSet | url.go:15-22 | the loop collects exactly the keys that the pattern finds |
| Placeholders.MatchesExact | url.go:9-22 | the pattern finds a key exactly when it is one or more key bytes that occur in braces |
| Placeholders.KeyBytes | url.go:9 | the bytes of keys are the letters, the digits, and the five signs of the pattern and the underscore |
| Placeholders.ReplaceIsSubst | url.go:32-34 | replacing one name after a substitution is a substitution |
| Placeholders.RewriteIntended | url.go:29-37 | in every order each name of the set is prefixed exactly once, as if all at the same time, when no name is another one with the prefix |
| Placeholders.OrderIrrelevantExactly | url.go:29-37 | for the names of a text every order gives the intended result if and only if no name is another one with the prefix |
| Placeholders.ProcessBackendUrlPattern | url.go:29-37 | the loop over the map ends in the result of some order, which is the intended one under that condition |
| Placeholders.RewritePieces | url.go:29-37 | a text made of plain pieces and braced keys comes out with each key of the set prefixed by "resp042_." and everything else as it was, in every order, when no key is another one with the prefix |
| Placeholders.ClosesExactly | url.go:10 | a marked placeholder ends at the first "}}" after it, if no line break comes before |
| Placeholders.RoundTrip | url.go:39-41 | a text with its placeholders printed in the marked form comes back in the braced form, and nothing else changes |

## Left out

- Non-ASCII runes in the case-insensitive lookup: it depends on Unicode tables and on bytes left over in the rune buffer. On ASCII the backtracking is the same; requests and registered patterns are ASCII wherever that lookup is involved.
- Overflow of the 32-bit priorities: a priority is a natural number. The 16-bit count of wildcards is modelled with its wrap-around.
- NodeCaseLookup.FindCaseInsensitivePath: takes ASCII paths, for that reason.
- NodeCaseLookup.FindRec: takes ASCII paths and a rune buffer with one byte at most, for that reason.
- NodeCaseLookup.RoundNewRune: decodes a rune of one byte, for that reason.
- Serving.ServeHTTP: takes patterns with fewer than 65535 wildcards, as the 16-bit count of a longer one wraps around and the buffers are then too small; and an ASCII path where the case-insensitive lookup may be asked.
- The handler that a caller of `Router.Lookup` gets is not called in the model.
- HTTP effects (header writes, `http.Redirect`, `http.Error`, URL encoding), panic recovery, and the custom NotFound, MethodNotAllowed and OPTIONS handlers: only the outcome and its target or Allow list are modelled.
- `ServeFiles`, the `Handler` and `HandlerFunc` adapters, the method shortcuts, context storage and `Params.ByName`: thin wrappers.
- The wording of panic messages, including the prefix computed at internal/httprouter/tree.go:163-173.
- Registrations interleaved with requests: pooled buffers may then have an older, smaller capacity.
- A change of `HandleOPTIONS` after the first registration: the cached Allow list would then be stale.
- The choice between the 128-byte stack buffer of the cleaner and a heap allocation: the model allocates when the code first needs a buffer.
- The regular expression engine: its leftmost matches are modelled by functions on byte strings.
- Lura's own conversion of `{resp042_.x}` into the marked form, and `internal/lura`, `app.go`, `caddyfile.go` and `cmd`, which are not part of this model except for the order of set-up.
