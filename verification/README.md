# The algorithms behind Azkaban's web pages, verified

Azkaban's web server ships its own copies of jQuery 1.9.1, jsTree, Backbone 0.9.10 and Underscore 1.4.4. This project
models the parts of those libraries whose correctness is not visible in any one function: selector matching with its
memo tables, re-entrant callback lists and what is built on them, the life of ajax requests, the conversion planner,
id bookkeeping, and jsTree's tree algorithms. Nothing was executed; every statement below is proved by Dafny.

`dafny verify dfyconfig.toml` checks all files.

## How the model is laid out

| file | what it models |
|---|---|
| `Wrappers.dfy` | values that may be missing |
| `Dom.dfy` | documents as finite rose trees; a node is the path of child indices that leads to it; preorder and document order |
| `DocumentOrder.dfy` | Sizzle's `sortOrder`, `siblingCheck` and `uniqueSort` without browser help |
| `Selectors.dfy` | the reference: what a selector selects (Selectors Level 3, section 8) |
| `SelectorMatcher.dfy` | compiled matchers, the memo on the nodes, `superMatcher` |
| `SelectorSelect.dfy` | `select`: id shortcut, seed set, search root |
| `NthChild.dfy` | the `CHILD` filter with both of its index caches (Selectors Level 3, section 6.6.5.2) |
| `CallbackQueue.dfy` | the reference for callback lists: a queue and its history, over all series of actions |
| `Callbacks.dfy` | `jQuery.Callbacks` with its firing indexes, refining the queue |
| `Deferred.dfy` | `jQuery.Deferred`: three lists wired together, with nested passes |
| `When.dfy` | `jQuery.when` |
| `AjaxLifecycle.dfy` | requests from `ajax()` to `done`, the counter `jQuery.active`, global events |
| `AjaxConvert.dfy` | `ajaxConvert` |
| `DataIds.dfy` | data ids: allocation, removal, `cleanData` with nested cleaning |
| `JsTree.dfy`, `JsTreeCheckbox.dfy`, `JsTreeTraverse.dfy`, `JsTreeXml.dfy` | tri-state checkboxes, `_get_next`/`_get_prev`, flat XML export and the stylesheet that reads it back |
| `BackboneCollection.dfy` | `Backbone.Collection`: list and index |
| `Throttle.dfy`, `IsEqual.dfy` | Underscore's `throttle` and `isEqual` |

Code that changes things step by step is modelled by classes and methods with the source's own loops; each is proved
against a specification function or predicate, and what the source promises is proved about those. Callbacks, event
handlers, timers and transports are arbitrary: a callback's body is any series of operations, and the actions of a run
come in any order.

## What the code does against expectation

* An ajax request that is aborted after `ajaxStart` (when it has no `beforeSend`) or from an `ajaxSend` handler is sent
  all the same: `state` is set from 2 back to 1, `done` runs a second time and `jQuery.active` is decremented twice.
  `Ajax.AbortInAjaxSend` follows the code to a counter of -1. `Ajax.BackToZero` gives the exact condition: once all is
  over the counter is zero if and only if no request that takes part in global events was sent after being aborted.
* Teardown code that cleans its own node and then stores data on another node makes two nodes share an id
  (`DataStore.SharedId`). `DataIds.SmoothExact` gives the exact condition for any series of operations: ids and cache
  are in order at every moment if and only if each cleanup, when its teardown is over, finds its entry gone or still
  its node's own, which following the series from the present state decides. `DataIds.CalmIsSmooth` adds a condition on
  the operations alone: it holds whenever all teardown code writes nothing or leaves its own node alone.
* A node that has children but is neither open nor closed comes back from `get_xml` and the stylesheet closed. A node
  called "0" makes the stylesheet recurse without end (`JsTreeXml.ZeroIdNeverEnds`), because top nodes are exported with
  parent 0, and a node with children whose id is some other number equal to zero makes its children come back at the
  top as well (`JsTreeXml.ZeroParentSplits`). `JsTreeXml.RoundTrip` says that the forest comes back if and only if there
  is neither, and unchanged if and only if moreover every node with children is open or closed.
* `Callbacks.empty` revives a disabled list; `Callbacks.Empty` states this.
* The closing test of `CHILD` divides by `first`; for `first` 0 JavaScript's `%` yields NaN, so that the test comes
  down to `diff === first`. The model writes this out.

## Model

| member | source | states |
|---|---|---|
| Dom.PreorderComplete | azkaban-webserver/src/web/js/jquery/jquery-1.9.1.js:4299-4348 | The preorder traversal used as the reference for document order visits exactly the nodes of the tree. |
| Dom.PreorderIncreasing | azkaban-webserver/src/web/js/jquery/jquery-1.9.1.js:4299-4348 | The traversal is strictly increasing in the order "ancestor first, else the first differing child index", so each node is visited once. |
| Dom.BeforeTotal | azkaban-webserver/src/web/js/jquery/jquery-1.9.1.js:4299-4348 | That order is total, asymmetric and irreflexive on all paths. |
| Dom.BeforeTransitive | azkaban-webserver/src/web/js/jquery/jquery-1.9.1.js:4299-4348 | It is transitive; with `BeforeTotal`, a strict total order. |
| Dom.IncreasingUnique | azkaban-webserver/src/web/js/jquery/jquery-1.9.1.js:4425-4447 | Two lists in document order with the same members are the same list; this is how the optimised searches are identified with the plain one. |
| DocumentOrder.SiblingCheck | azkaban-webserver/src/web/js/jquery/jquery-1.9.1.js:4449-4468 | For two distinct children of one parent, or one missing side, -1 exactly when a is missing or precedes b; otherwise 1. |
| DocumentOrder.AncestorPath | azkaban-webserver/src/web/js/jquery/jquery-1.9.1.js:4325-4333 | The chain collected by walking parentNode is the chain of all prefixes, root first. |
| DocumentOrder.BeforeAtDivergence | azkaban-webserver/src/web/js/jquery/jquery-1.9.1.js:4335-4342 | The first level at which two ancestor chains part decides document order. |
| DocumentOrder.PositionOrder | azkaban-webserver/src/web/js/jquery/jquery-1.9.1.js:4299-4348 | Path order agrees with the position in the preorder traversal, in both directions. |
| DocumentOrder.Sorter.SortOrder | azkaban-webserver/src/web/js/jquery/jquery-1.9.1.js:4299-4348 | For any two nodes of the document the result is negative, zero or positive exactly as the first precedes, is, or follows the second in preorder; equal arguments raise hasDuplicate. |
| DocumentOrder.Sorter.Sort | azkaban-webserver/src/web/js/jquery/jquery-1.9.1.js:4433 | A comparison sort by SortOrder permutes the list into order; if no duplicate was noticed the order is strict. |
| DocumentOrder.Sorter.FindDuplicates | azkaban-webserver/src/web/js/jquery/jquery-1.9.1.js:4435-4440 | The first loop collects exactly the indices whose entry repeats its predecessor. |
| DocumentOrder.Sorter.SpliceDuplicates | azkaban-webserver/src/web/js/jquery/jquery-1.9.1.js:4441-4443 | Splicing those indices out from the last to the first leaves a strictly increasing list with the same members. |
| DocumentOrder.Sorter.UniqueSort | azkaban-webserver/src/web/js/jquery/jquery-1.9.1.js:4425-4447 | The result is strictly increasing in document order and has exactly the members of the input, whether or not the native sort reveals duplicates. |
| DocumentOrder.SpliceStep | azkaban-webserver/src/web/js/jquery/jquery-1.9.1.js:4441-4443 | One splice keeps what the previous ones achieved: sorted, same members, no repetition from the mark on, indices before it still valid. |
| SelectorMatcher.RelatedStep | azkaban-webserver/src/web/js/jquery/jquery-1.9.1.js:5091-5139 | One step of a walk against the standard: a node is related to x iff it is the next eligible node, or (unless only the nearest counts) related to that one. |
| SelectorMatcher.WalkMeaning | azkaban-webserver/src/web/js/jquery/jquery-1.9.1.js:5091-5139 | The uncached walk along parentNode or previousSibling succeeds iff some node related by the combinator (Selectors Level 3, section 8) is a hit. |
| SelectorMatcher.FiltersMeaning | azkaban-webserver/src/web/js/jquery/jquery-1.9.1.js:5141-5153 | A compound selects a node iff every simple filter accepts it and the part to its left is satisfied. |
| SelectorMatcher.AcceptsMeaning | azkaban-webserver/src/web/js/jquery/jquery-1.9.1.js:5141-5153 | What the compiled matcher decides by filters and walk is what the token list means. |
| SelectorMatcher.Sizzle.MatcherFromTokens | azkaban-webserver/src/web/js/jquery/jquery-1.9.1.js:5269-5319 | The compiled matcher stands for exactly the given tokens and leading combinator; each combinator has its own doneName, larger than those to its left. |
| SelectorMatcher.Sizzle.Compile | azkaban-webserver/src/web/js/jquery/jquery-1.9.1.js:5422-5445 | One matcher per selector of the group, last one first, each standing for its selector; earlier matchers stay registered. |
| SelectorMatcher.Sizzle.Match | azkaban-webserver/src/web/js/jquery/jquery-1.9.1.js:5141-5153 | The memoised matcher accepts an element iff the selector selects it, and leaves the memo sound: after a rejection, falses of this element also rule out the rest of their walk. |
| SelectorMatcher.Sizzle.RunThroughAll | azkaban-webserver/src/web/js/jquery/jquery-1.9.1.js:5107-5138 | A memoised descendant or sibling walk answers exactly what the uncached walk answers, early exit on a cached false included, and touches only slots of nodes above or before its start. |
| SelectorMatcher.Sizzle.RunToFirst | azkaban-webserver/src/web/js/jquery/jquery-1.9.1.js:5096-5104 | A child or adjacent walk looks at the nearest eligible node only and answers what the uncached walk answers. |
| SelectorMatcher.Sizzle.Evaluate | azkaban-webserver/src/web/js/jquery/jquery-1.9.1.js:5128-5134 | Entering a slot, evaluating the left part (which may overwrite slots of other nodes) and recording the outcome keeps every slot of the run truthful. |
| SelectorMatcher.WalkAnswered | azkaban-webserver/src/web/js/jquery/jquery-1.9.1.js:5124-5127 | A slot of this combinator that holds true, or false stamped with the current element, gives the answer of the whole remaining walk. |
| SelectorMatcher.MemoWritten | azkaban-webserver/src/web/js/jquery/jquery-1.9.1.js:5128-5134 | Writing the outcome over whatever the slot held keeps the memo sound, for a hit and for a miss. |
| SelectorMatcher.OwnAdvance | azkaban-webserver/src/web/js/jquery/jquery-1.9.1.js:5121-5136 | Past a node that is no hit, the walk from the next node has the same answer, and the falses it left still point ahead. |
| SelectorMatcher.NextElement | azkaban-webserver/src/web/js/jquery/jquery-1.9.1.js:5353-5356 | Raising cachedruns between two elements turns every false into a statement about its own node only, which is still true. |
| SelectorMatcher.Sizzle.MatchSome | azkaban-webserver/src/web/js/jquery/jquery-1.9.1.js:5345-5352 | One element is accepted iff some selector of the group selects it. |
| SelectorMatcher.Sizzle.SuperMatcher | azkaban-webserver/src/web/js/jquery/jquery-1.9.1.js:5326-5359 | A whole outermost run, on any tree, elements and group, returns exactly the elements the group selects, in their order, and restores the outermost context. |
| SelectorSelect.ElementsBelowMeaning | azkaban-webserver/src/web/js/jquery/jquery-1.9.1.js:5335 | The candidates are all elements below the search root, in document order. |
| SelectorSelect.DropFilter | azkaban-webserver/src/web/js/jquery/jquery-1.9.1.js:5489-5497 | A filter of the rightmost compound can be tested first and deleted from the token list. |
| SelectorSelect.SelectedBelow | azkaban-webserver/src/web/js/jquery/jquery-1.9.1.js:5489-5497 | Everything selected lies below any node that all nodes reachable from the context lie below. |
| SelectorSelect.SearchRootCovers | azkaban-webserver/src/web/js/jquery/jquery-1.9.1.js:5335 | Searching below the context, or below its parent for selectors with + or ~, misses no selected element. |
| SelectorSelect.IdBecomesContext | azkaban-webserver/src/web/js/jquery/jquery-1.9.1.js:5466-5478 | A selector that starts with an id and a combinator selects what its rest selects from the element with that id. |
| SelectorSelect.IdMissing | azkaban-webserver/src/web/js/jquery/jquery-1.9.1.js:5472-5475 | If no element has the leading id nothing is selected. |
| SelectorSelect.ShortcutMeaning | azkaban-webserver/src/web/js/jquery/jquery-1.9.1.js:5466-5478 | Replacing the context by the element with the leading id leaves the result of the whole search unchanged. |
| SelectorSelect.SeedMeaning | azkaban-webserver/src/web/js/jquery/jquery-1.9.1.js:5480-5508 | Matching the remaining tokens on the seed gives the same list as matching all tokens on every element. |
| SelectorSelect.CompileAndRun | azkaban-webserver/src/web/js/jquery/jquery-1.9.1.js:5511-5520 | Compiling and running a group on candidates in document order returns the selected ones, although the matchers are tried last selector first. |
| SelectorSelect.SelectOne | azkaban-webserver/src/web/js/jquery/jquery-1.9.1.js:5480-5520 | For a single selector the seed rewriting returns exactly what testing every element of the tree would. |
| SelectorSelect.Select | azkaban-webserver/src/web/js/jquery/jquery-1.9.1.js:5458-5521 | For any group, context and `find` that agrees with its filter, select returns exactly the selected elements of the whole tree in document order. |
| NthChild.CountNext | azkaban-webserver/src/web/js/jquery/jquery-1.9.1.js:4746-4749 | Moving one child on changes the count of children that take part by one iff that child takes part. |
| NthChild.CycleTest | azkaban-webserver/src/web/js/jquery/jquery-1.9.1.js:4762-4764 | For all integers a and b the closing test holds iff a*n + b is the position for some n >= 0 (Selectors Level 3, section 6.6.5.2). |
| NthChild.ExactQuotient | azkaban-webserver/src/web/js/jquery/jquery-1.9.1.js:4762-4764 | A position on the cycle has a zero remainder and n as its quotient, for either sign of a. |
| NthChild.Seek | azkaban-webserver/src/web/js/jquery/jquery-1.9.1.js:4725-4737 | Resuming from any cached index, before or after the element, and wrapping around once, ends at the element with its true position. |
| NthChild.ChildFilter.SeekOnParent | azkaban-webserver/src/web/js/jquery/jquery-1.9.1.js:4718-4737 | The index resumed from the parent slot equals the true position, and the slot stays right for later queries of the run. |
| NthChild.ChildFilter.SeekFromStart | azkaban-webserver/src/web/js/jquery/jquery-1.9.1.js:4743-4759 | Counting from either end gives the true position among the children that take part, and every index cached on the way is true. |
| NthChild.ChildFilter.Nth | azkaban-webserver/src/web/js/jquery/jquery-1.9.1.js:4680-4765 | On any element, after any earlier queries of the run, the filter holds iff the number of its siblings up to it (from the front or the back) that are elements, or for -of-type have its name, is on the cycle a*n + b. |
| NthChild.PlaceIsPeers | azkaban-webserver/src/web/js/jquery/jquery-1.9.1.js:4718-4759 | The place that the loops count is the number of those siblings, the element included. |
| CallbackQueue.StepKeeps | azkaban-webserver/src/web/js/jquery/jquery-1.9.1.js:1029-1152 | Every action on a list (add, remove, fire, disable, lock, a turn of the loop, a stop) keeps the pass discipline. |
| CallbackQueue.RunOrderly | azkaban-webserver/src/web/js/jquery/jquery-1.9.1.js:1029-1152 | On every run of a list with any options: passes follow one another, calls within a pass go up the list with one set of arguments, none is repeated, and every survivor the pass has gone by was called. |
| CallbackQueue.PassComplete | azkaban-webserver/src/web/js/jquery/jquery-1.9.1.js:1029-1054 | When a pass has nobody left to call, each registration it covers that is still in the list, added before or during the pass, was called exactly once in it with its arguments. |
| CallbackQueue.SurvivorCalled | azkaban-webserver/src/web/js/jquery/jquery-1.9.1.js:1029-1108 | A registration the pass has yet to come to is called in that pass with its arguments, or still waiting in it, after any series of adds, fires, turns and removals of other functions; when the pass is over it has been called. |
| CallbackQueue.AddedJoinsPass | azkaban-webserver/src/web/js/jquery/jquery-1.9.1.js:1058-1078 | What add appends during a pass waits in that same pass, so the previous statement covers it. |
| CallbackQueue.RemovedNeverCalled | azkaban-webserver/src/web/js/jquery/jquery-1.9.1.js:1088-1108 | Once a registration has left the list no continuation of the run calls it. |
| CallbackQueue.RemoveMeaning | azkaban-webserver/src/web/js/jquery/jquery-1.9.1.js:1088-1108 | remove takes out every registration of the given functions, called or not yet called, and nothing else. |
| CallbackQueue.RunFifo | azkaban-webserver/src/web/js/jquery/jquery-1.9.1.js:1141-1152 | Fires begin in the order they were accepted; on a list that still repeats those not begun are exactly the stacked ones, and none is stacked between passes. |
| CallbackQueue.FreshIds | azkaban-webserver/src/web/js/jquery/jquery-1.9.1.js:1061-1074 | The registrations an add appends are new and numbered in the order of the arguments. |
| CallbackQueue.FreshMeaning | azkaban-webserver/src/web/js/jquery/jquery-1.9.1.js:1061-1074 | After an add the list has just the functions it had and those added; a unique list still has each once, any other one more registration per argument, in order. |
| CallbackQueue.RunUnique | azkaban-webserver/src/web/js/jquery/jquery-1.9.1.js:1065-1068 | On every run a unique list holds no function twice. |
| CallbackQueue.FireTaken | azkaban-webserver/src/web/js/jquery/jquery-1.9.1.js:1141-1152 | A live list that has not fired, or still repeats, takes a fire on, also during a pass; on any other the fire changes nothing. |
| CallbackQueue.StopEnds | azkaban-webserver/src/web/js/jquery/jquery-1.9.1.js:1037-1050 | A false that stops ends the pass without another call; either the next stacked fire begins or nothing is remembered. |
| CallbackQueue.RunRemembers | azkaban-webserver/src/web/js/jquery/jquery-1.9.1.js:1029-1030 | On every run, with any options: what a list remembers, and what the pass under way passes on, are the arguments of the last fire that has begun. |
| CallbackQueue.MemoryUnlessStopped | azkaban-webserver/src/web/js/jquery/jquery-1.9.1.js:1029-1054 | On every run without a false that stops and without a disable that empty undoes, a live list with the memory option that has fired does remember. |
| Callbacks.Callbacks.FireStart | azkaban-webserver/src/web/js/jquery/jquery-1.9.1.js:1029-1035 | The index assignments before the loop begin a pass over the list from firingStart, whatever the indexes were, with the arguments given; with the memory option these replace whatever was remembered. |
| Callbacks.Callbacks.NextCallback | azkaban-webserver/src/web/js/jquery/jquery-1.9.1.js:1036-1037 | The loop test finds a callback iff the queue has one ahead, and it is the next one. |
| Callbacks.Callbacks.FireEnd | azkaban-webserver/src/web/js/jquery/jquery-1.9.1.js:1042-1054 | After the loop: the next stacked fire begins, a remembering once-list forgets its callbacks, any other once-list is disabled. |
| Callbacks.Callbacks.Add | azkaban-webserver/src/web/js/jquery/jquery-1.9.1.js:1058-1087 | add during a pass extends that pass; on an idle remembering list it begins a pass over just the new callbacks; unique lists skip repeats. |
| Callbacks.Callbacks.SpliceOut | azkaban-webserver/src/web/js/jquery/jquery-1.9.1.js:1094-1103 | Correcting firingLength and firingIndex after a splice leaves the border between called and waiting callbacks in place. |
| Callbacks.Callbacks.Remove | azkaban-webserver/src/web/js/jquery/jquery-1.9.1.js:1088-1108 | The splicing loops, with resumed searches and index corrections, remove exactly the registrations of the given functions from both sides of that border. |
| Callbacks.CutOne | azkaban-webserver/src/web/js/jquery/jquery-1.9.1.js:1094-1103 | Cutting out one registration of a function changes neither half once all its registrations are gone. |
| Callbacks.Callbacks.Disable | azkaban-webserver/src/web/js/jquery/jquery-1.9.1.js:1120-1123 | disable drops list, stack and memory: no later operation does anything but the pass under way ending. |
| Callbacks.Callbacks.Lock | azkaban-webserver/src/web/js/jquery/jquery-1.9.1.js:1129-1135 | lock drops the stacked fires and disables a list that has nothing to remember. |
| Callbacks.Callbacks.Empty | azkaban-webserver/src/web/js/jquery/jquery-1.9.1.js:1115-1118 | Between passes empty clears the list, and makes a disabled one usable again. |
| Callbacks.Callbacks.FireWith | azkaban-webserver/src/web/js/jquery/jquery-1.9.1.js:1141-1152 | fireWith is ignored on a disabled or spent list, stacked during a pass, and otherwise begins one. |
| Callbacks.Callbacks.Fire | azkaban-webserver/src/web/js/jquery/jquery-1.9.1.js:1029-1054 | The whole firing loop with re-entrant callbacks, and the passes stacked meanwhile, do what the queue does, and leave the list idle. |
| Callbacks.Callbacks.FireAndRun | azkaban-webserver/src/web/js/jquery/jquery-1.9.1.js:1141-1152 | A fire from outside, to the end of all it causes, does what the queue does; every registration in the list is called exactly once in its pass, with the arguments of the fire, unless some callback removes its function or ends the pass by disable, lock or a false that stops it. |
| Callbacks.Callbacks.AddAndRun | azkaban-webserver/src/web/js/jquery/jquery-1.9.1.js:1058-1087 | An add from outside, to the end of all it causes, does what the queue does. If the list is live and remembers, or has the option, has fired and was not stopped, each callback added is called exactly once with the arguments of the last fire that has begun, under the same condition; without a memory nothing is called. |
| Callbacks.LastFire | azkaban-webserver/src/web/js/jquery/jquery-1.9.1.js:1029-1087 | On a list reached by any run, either of those conditions means that the memory is the arguments of the last fire that has begun. |
| Callbacks.RunPassIsRun | azkaban-webserver/src/web/js/jquery/jquery-1.9.1.js:1029-1054 | Whole passes are runs of the queue, so what holds on every run of the queue holds of the firing loop. |
| Callbacks.WholePass | azkaban-webserver/src/web/js/jquery/jquery-1.9.1.js:1029-1054 | A registration that waits when a pass begins has been called exactly once in it when the pass and all it caused are over, whatever the callbacks add and fire meanwhile and whatever other functions they remove. |
| Callbacks.Callbacks.Guarantees | azkaban-webserver/src/web/js/jquery/jquery-1.9.1.js:1004-1162 | A list used through its operations, from its creation on, also in the middle of a pass: calls go in order and none is repeated within a pass, fires begin in the order accepted, the memory is the last of them, a unique list has no function twice, and a pass with nobody left to call has called every registration it covers that is still in the list exactly once. |
| Deferred.CreateOpen | azkaban-webserver/src/web/js/jquery/jquery-1.9.1.js:1217-1238 | A new Deferred is pending, its two settling lists armed with their three internal callbacks and not fired. |
| Deferred.StepPhase | azkaban-webserver/src/web/js/jquery/jquery-1.9.1.js:1168-1241 | Every action in every valid state leads from pending through the three internal callbacks to settled, and never back; the accepted arguments stay. |
| Deferred.SettlesOnce | azkaban-webserver/src/web/js/jquery/jquery-1.9.1.js:1225-1233 | Once the state has left pending no run of re-entrant actions changes it. |
| Deferred.OneSideOnly | azkaban-webserver/src/web/js/jquery/jquery-1.9.1.js:1225-1233 | In every valid state at most one of the done and fail lists has ever called anything, and it is the one the state names. |
| Deferred.EachCalledOnce | azkaban-webserver/src/web/js/jquery/jquery-1.9.1.js:1168-1241 | On a settled Deferred between passes, every registration ever made on the list of the settled side, before, during or after settling, has been called exactly once, in order, with the accepted arguments; `CalledAreRegistered` says which functions these are. |
| Deferred.CalledAreRegistered | azkaban-webserver/src/web/js/jquery/jquery-1.9.1.js:1217-1239 | After any series of actions on a new Deferred that has settled it, between passes, the functions called on the settled list are the three internal ones and then exactly what user code passed to done (or to fail, if rejected) while it had control, in order, all with the arguments that settled it. |
| Deferred.RunAccounts | azkaban-webserver/src/web/js/jquery/jquery-1.9.1.js:1222-1233 | On every run, settled or not: what was passed to done or fail has been called, or waits, on that very list while the list is live, in order and behind the internal callbacks; what was passed to progress is in that list until it is locked. |
| Deferred.RunNotices | azkaban-webserver/src/web/js/jquery/jquery-1.9.1.js:1235-1239 | On every run the progress list has taken on exactly the notices given while the Deferred was pending, in order. |
| Deferred.RunLists | azkaban-webserver/src/web/js/jquery/jquery-1.9.1.js:1168-1241 | On every run each of the three lists has been through a run of its own, so all that holds on every run of a callback list holds of it. |
| Deferred.LateListener | azkaban-webserver/src/web/js/jquery/jquery-1.9.1.js:1079-1084 | After any run, what is registered on an idle progress list that has fired is called, alone, and, until the list is locked, with the latest notice. |
| Deferred.FirstFireWins | azkaban-webserver/src/web/js/jquery/jquery-1.9.1.js:1235-1239 | The first resolve or reject of a pending Deferred fixes the arguments for every continuation. |
| Deferred.FireClosed | azkaban-webserver/src/web/js/jquery/jquery-1.9.1.js:1235-1239 | Once settled, resolve, reject and notify change nothing: in particular no notify pass starts. |
| Deferred.RunKeepsAccepted | azkaban-webserver/src/web/js/jquery/jquery-1.9.1.js:1168-1241 | From the moment a Deferred begins to settle, no run changes which arguments were accepted or which side it is. |
| Deferred.OnceAdd | azkaban-webserver/src/web/js/jquery/jquery-1.9.1.js:1058-1087 | Adding to a once-and-memory list keeps: i-th registration is i-th call, all with the one fire's arguments, the rest waiting in order. |
| Deferred.OnceFire | azkaban-webserver/src/web/js/jquery/jquery-1.9.1.js:1141-1152 | Such a list accepts its first fire and ignores all later ones. |
| Deferred.DeferredObject.constructor | azkaban-webserver/src/web/js/jquery/jquery-1.9.1.js:1168-1241 | The object over three Callbacks lists starts as a new Deferred, in the pending phase. |
| Deferred.DeferredObject.Register | azkaban-webserver/src/web/js/jquery/jquery-1.9.1.js:1222-1223 | done, fail and progress on the object act as registering on the abstract Deferred, from outside or inside a callback: the named list, if live, gains exactly the given functions behind all it had, a pass under way or one now begun by the memory will call them, and the other two lists are as they were. |
| Deferred.DeferredObject.Fire | azkaban-webserver/src/web/js/jquery/jquery-1.9.1.js:1235-1239 | resolve, reject and notify on the object act as firing on the abstract Deferred: the named list takes the fire on if it is live and has not fired or repeats, nothing changes otherwise, and the other two lists are as they were. |
| Deferred.DeferredObject.Advance | azkaban-webserver/src/web/js/jquery/jquery-1.9.1.js:1225-1233 | One turn of the innermost pass over the three real lists, internal callbacks with their disable and lock included, is one turn of the abstract Deferred. |
| When.OpenCountZero | azkaban-webserver/src/web/js/jquery/jquery-1.9.1.js:1274-1276 | The number of open positions is zero iff every position is closed. |
| When.OpenCountClose | azkaban-webserver/src/web/js/jquery/jquery-1.9.1.js:1274-1276 | Closing one position brings the number down by exactly one. |
| When.When.Meaning | azkaban-webserver/src/web/js/jquery/jquery-1.9.1.js:1256-1305 | In every reachable state: remaining is zero iff nothing is open; after setup the master is resolved iff every argument is, with the values (a single argument as it is, several as a list) and contexts in argument order, and rejected iff some promise was, by the first. |
| When.When.Done | azkaban-webserver/src/web/js/jquery/jquery-1.9.1.js:1268-1278 | A subordinate's resolution stores its context and its arguments in its own place, a single one as it is and several as a list, counts down, and resolves the master when it was the last and none has failed. |
| When.When.Fail | azkaban-webserver/src/web/js/jquery/jquery-1.9.1.js:1291 | A subordinate's rejection rejects a waiting master and is otherwise only recorded. |
| When.When.Progress | azkaban-webserver/src/web/js/jquery/jquery-1.9.1.js:1268-1273 | A progress notice stores its context and arguments in the same way among the notices, changes neither the count nor the values, and reaches the master only while it waits. |
| When.When.Setup | azkaban-webserver/src/web/js/jquery/jquery-1.9.1.js:1282-1302 | The setup loop, with promises that are settled already calling back at once, ends with the counter right and the master resolved if nothing is left to wait for. |
| AjaxLifecycle.NetMeaning | azkaban-webserver/src/web/js/jquery/jquery-1.9.1.js:8091-8097 | Times counted in minus times counted out never exceeds the open global requests, and equals them iff no request was counted out twice. |
| AjaxLifecycle.Ajax.Accounting | azkaban-webserver/src/web/js/jquery/jquery-1.9.1.js:7866-8098 | In every reachable state a finished request is settled, and jQuery.active equals the global requests counted in and not yet out iff none was counted out twice; it does whenever no request was sent after an abort. |
| AjaxLifecycle.Ajax.Play | azkaban-webserver/src/web/js/jquery/jquery-1.9.1.js:7823-8098 | Over any interleaving of the events of any number of requests the invariant holds (settled iff done, counter accounted for, ajaxStart and ajaxStop alternating), and no count goes back. Each request ends as it was settled before, or exactly as the event that found it unsettled and ended it decides; a new success was brought by a transport that completed successfully. |
| AjaxLifecycle.SettledByEvent | azkaban-webserver/src/web/js/jquery/jquery-1.9.1.js:8072-8077 | Over any series of events a request comes to be settled as a success or a failure iff some event that took place on it, while it was not settled, settled it so: the outcome of a completed transport, a failure for an abort, a timeout, a cancelling beforeSend, a missing transport or a failing send. |
| AjaxLifecycle.Ajax.BackToZero | azkaban-webserver/src/web/js/jquery/jquery-1.9.1.js:7942-8098 | When all is over the counter is zero iff no global request was sent after being aborted; otherwise it is negative. |
| AjaxLifecycle.Ajax.AbortInAjaxSend | azkaban-webserver/src/web/js/jquery/jquery-1.9.1.js:7965-7988 | Abort from an ajaxSend handler: the request is done twice and the counter ends at -1. |
| AjaxLifecycle.Ajax.Abort | azkaban-webserver/src/web/js/jquery/jquery-1.9.1.js:7823-7831 | Abort in any phase leaves the request finished, rejected if it was not settled, and is a no-op on a finished one. |
| AjaxLifecycle.Ajax.AfterPrefilters | azkaban-webserver/src/web/js/jquery/jquery-1.9.1.js:7866-7880 | A request aborted by a prefilter stops uncounted; any other global request is counted in, with ajaxStart iff it is the first; starts and stops still alternate. |
| AjaxLifecycle.Ajax.AfterBeforeSend | azkaban-webserver/src/web/js/jquery/jquery-1.9.1.js:7942-7945 | beforeSend stops the request by returning false or by aborting it; it is then finished exactly once, and rejected if it was not settled; otherwise only the phase changes. |
| AjaxLifecycle.Ajax.Connect | azkaban-webserver/src/web/js/jquery/jquery-1.9.1.js:7956-7962 | Without a transport the request is finished at once, and rejected if it was not settled. |
| AjaxLifecycle.Ajax.Send | azkaban-webserver/src/web/js/jquery/jquery-1.9.1.js:7969-7988 | Sending resets state whatever it was; a missing or throwing transport finishes the request and rejects it if it was not settled; otherwise it is in state 1 and settled as before. |
| AjaxLifecycle.Ajax.Complete | azkaban-webserver/src/web/js/jquery/jquery-1.9.1.js:7991-8077 | The transport's report leaves the request finished; one that was not settled is resolved on success and rejected on failure. |
| AjaxLifecycle.Ajax.Timeout | azkaban-webserver/src/web/js/jquery/jquery-1.9.1.js:7969-7974 | The timer leaves the request finished, rejected if it was not settled; a finished one is not touched otherwise. |
| AjaxLifecycle.Ajax.EndOfDone | azkaban-webserver/src/web/js/jquery/jquery-1.9.1.js:8091-8097 | Each completed done counts a global request out once, with ajaxStop iff the counter reaches zero; ajaxStart and ajaxStop alternate. |
| AjaxConvert.LookupMeaning | azkaban-webserver/src/web/js/jquery/jquery-1.9.1.js:8208 | A lookup finds a registered entry for the two types, and finds one if there is any. |
| AjaxConvert.DirectMeaning | azkaban-webserver/src/web/js/jquery/jquery-1.9.1.js:8208 | A direct search finds the converter of the first entry for just the two types, and only for want of any such entry that of the first wildcard entry into the second type; it finds nothing iff there is neither. |
| AjaxConvert.NothingChosen | azkaban-webserver/src/web/js/jquery/jquery-1.9.1.js:8207-8236 | Nothing is chosen for a step iff there is no direct converter and no registered entry into the wanted type whose input can be had. |
| AjaxConvert.Choose | azkaban-webserver/src/web/js/jquery/jquery-1.9.1.js:8207-8233 | By the entries themselves: the first one for just the two types is chosen, only for want of it the first wildcard entry, and only for want of both the pair whose second half is the first entry into the wanted type that something leads to, with the first half decided in the same way and an equivalence left out; nothing is chosen iff nothing leads on. |
| AjaxConvert.ChosenMeaning | azkaban-webserver/src/web/js/jquery/jquery-1.9.1.js:8207-8236 | The specification of the choice fulfils the same three conditions on the entries. |
| AjaxConvert.SeekPair | azkaban-webserver/src/web/js/jquery/jquery-1.9.1.js:8210-8236 | The search through the registry finds the first pair iff there is one, with an equivalence condensed away. |
| AjaxConvert.SecondHalf | azkaban-webserver/src/web/js/jquery/jquery-1.9.1.js:8226-8230 | The intermediate type of a spliced pair is neither of the two types nor the wildcard, and the turn that meets it finds the second converter of the pair directly. |
| AjaxConvert.SplicedIn | azkaban-webserver/src/web/js/jquery/jquery-1.9.1.js:8226-8230 | A turn that splices an intermediate type into the list leaves the outcome of the whole conversion as it was and the work left smaller; this is why the walk ends. |
| AjaxConvert.PairMeaning | azkaban-webserver/src/web/js/jquery/jquery-1.9.1.js:8210-8251 | Following a pair, condensed or not, leads from one type to the other by the two entries that decide, or names the half that failed. |
| AjaxConvert.PassesLeads | azkaban-webserver/src/web/js/jquery/jquery-1.9.1.js:8198-8257 | Passing through the types of a list one after the other is one chain of hops, each by the entry that decides on it, that ends at the last of them that is not *. |
| AjaxConvert.ConvertedMeaning | azkaban-webserver/src/web/js/jquery/jquery-1.9.1.js:8198-8257 | On success the response has passed through each non-wildcard type of the list in order, at every step by the entries that decide on it, alone or as a pair, none of which failed; an error, returned or escaping, names the step at which one failed on what had been converted so far, or from which nothing leads on. |
| AjaxConvert.Convert | azkaban-webserver/src/web/js/jquery/jquery-1.9.1.js:8178-8260 | The walk that splices types into its own list ends, and has the outcome of converting from each type to the next without any splicing; on success the response has passed through every listed type in order, at every step by the entries that decide on it, and ends at the last one that is not *. A failing converter gives a parse error, or lets its exception escape if s["throws"] is set; both name the failing step. For a single step the outcome is spelled out by those entries. |
| DataIds.WriteKeeps | azkaban-webserver/src/web/js/jquery/jquery-1.9.1.js:1578-1590 | A write keeps ids injective, the cache domain exact and the free list disjoint; a new id, freed or fresh, is in use nowhere. |
| DataIds.DataStore.WriteData | azkaban-webserver/src/web/js/jquery/jquery-1.9.1.js:1578-1590 | Writing gives a node an id only if it has none, the last freed one if there is one; afterwards each node holds what it held, and the node written to the new datum besides; the other ids stay; the books stay in order. |
| DataIds.DataStore.RemoveData | azkaban-webserver/src/web/js/jquery/jquery-1.9.1.js:1645-1724 | Afterwards each node holds what it held but for the one datum; the node keeps its id iff it still holds something, and otherwise the id is freed exactly once; the other ids stay; the books stay in order. |
| DataIds.ReleaseExact | azkaban-webserver/src/web/js/jquery/jquery-1.9.1.js:6592-6610 | Freeing an id on behalf of a node keeps the books right iff the id is that node's. |
| DataIds.DataStore.Release | azkaban-webserver/src/web/js/jquery/jquery-1.9.1.js:6592-6610 | The end of a cleanup keeps the books in order iff its entry is already gone or the id is still the node's; an entry already gone is not freed again. |
| DataIds.CleanExact | azkaban-webserver/src/web/js/jquery/jquery-1.9.1.js:6564-6615 | After teardown that leaves the books in order, a cleanup does so iff the teardown has left the entry to its node or has seen to its release. |
| DataIds.SmoothExact | azkaban-webserver/src/web/js/jquery/jquery-1.9.1.js:1578-1724 | For any series of writes, removals and nested cleanups: the books are in order at every moment, also inside teardown code, iff every release finds its entry gone or its node's own. |
| DataIds.CalmIsSmooth | azkaban-webserver/src/web/js/jquery/jquery-1.9.1.js:1578-1724 | They are so from every state in order when all teardown code, at any depth, writes nothing or leaves its own node alone, however much is written, removed and cleaned around it. |
| DataIds.LeavesKeeps | azkaban-webserver/src/web/js/jquery/jquery-1.9.1.js:6564-6615 | A node that a series neither cleans nor takes a datum from, at any depth, keeps its id. |
| DataIds.NoWritesShrinks | azkaban-webserver/src/web/js/jquery/jquery-1.9.1.js:6564-6615 | Without writes ids only go away, and exactly those that went away are freed, once each, nested cleanups of the same node included. |
| DataIds.WriteHolds | azkaban-webserver/src/web/js/jquery/jquery-1.9.1.js:1578-1615 | In a store in order a write makes its node hold the datum besides what it held, whether or not it had an id, and changes no other node's id or data. |
| DataIds.RemoveHolds | azkaban-webserver/src/web/js/jquery/jquery-1.9.1.js:1645-1724 | A removal takes away its datum, the id iff nothing else is left, and changes no other node's id or data. |
| DataIds.SmoothHolds | azkaban-webserver/src/web/js/jquery/jquery-1.9.1.js:1578-1724 | A smooth series leaves a node that it neither cleans nor takes a datum from all it held, and gives it nothing but what some write, at some depth, wrote; what the series itself writes it does hold. |
| DataIds.CalmContents | azkaban-webserver/src/web/js/jquery/jquery-1.9.1.js:1578-1724 | Any calm series, with ids freed and given out again at any depth, does to the data of all nodes what plain maps without ids would do: write adds, remove takes away, clean runs the teardown of a node with data and drops its data. |
| DataIds.DataStore.CleanNode | azkaban-webserver/src/web/js/jquery/jquery-1.9.1.js:6564-6615 | cleanData with its recursion through teardown code does what the specification says for all teardown code; the books stay in order under either condition above; calm cleaning takes away just the data of the node, besides what the teardown does; a smooth one leaves a node that is neither cleaned nor loses a datum all it held, and gives it only what the teardown wrote; after teardown that writes nothing the node has no id. |
| DataIds.DataStore.PerformAll | azkaban-webserver/src/web/js/jquery/jquery-1.9.1.js:1578-1724 | Any series of operations keeps ids injective, the cache domain equal to the ids in use and the free list disjoint, if it is smooth or calm; untouched nodes keep their ids, and in a smooth series all they held; a calm series does to the data of all nodes just what it is meant to do. |
| DataIds.DataStore.SharedId | azkaban-webserver/src/web/js/jquery/jquery-1.9.1.js:6564-6611 | From any store in order, cleaning a node whose teardown cleans the same node and then stores data on another, followed by a write on a third: two live nodes have one id. |
| JsTreeCheckbox.TriStateIsRecomputed | azkaban-webserver/src/web/js/jquery/jquery.jstree.js:2263-2295 | The tri-state invariant determines every state from the leaves: it is what recomputing from the leaves gives. |
| JsTreeCheckbox.CheckTree.Ancestor | azkaban-webserver/src/web/js/jquery/jquery.jstree.js:2274-2292 | One ancestor: it takes the value if all its children have it, and otherwise it and all above it become undetermined. |
| JsTreeCheckbox.CheckTree.ChangeState | azkaban-webserver/src/web/js/jquery/jquery.jstree.js:2263-2295 | Checking or unchecking any node of any tree keeps the tri-state invariant; the leaves at or below it take the value and all other leaves keep theirs. |
| JsTreeCheckbox.CheckedBelow | azkaban-webserver/src/web/js/jquery/jquery.jstree.js:2319-2322 | Everything below a checked node is checked. |
| JsTreeCheckbox.GetCheckedIsTopmost | azkaban-webserver/src/web/js/jquery/jquery.jstree.js:2319-2322 | On the container get_checked returns exactly the checked nodes without a checked ancestor. |
| JsTreeCheckbox.CheckedLeavesCovered | azkaban-webserver/src/web/js/jquery/jquery.jstree.js:2319-2322 | A leaf is checked iff it lies at or below a returned node, and then at or below exactly one. |
| JsTreeTraverse.GetNext | azkaban-webserver/src/web/js/jquery/jquery.jstree.js:444-453 | _get_next is the next visible item in document order, and none iff the item is the last visible one. |
| JsTreeTraverse.GetPrev | azkaban-webserver/src/web/js/jquery/jquery.jstree.js:454-466 | _get_prev is the item whose successor this is, and none iff it is the first root. |
| JsTreeTraverse.SuccessorUnique | azkaban-webserver/src/web/js/jquery/jquery.jstree.js:444-466 | A visible item has one successor and is the successor of one item. |
| JsTreeTraverse.NextThenPrev | azkaban-webserver/src/web/js/jquery/jquery.jstree.js:444-466 | _get_prev(_get_next(x)) is x whenever x has a next item. |
| JsTreeTraverse.PrevThenNext | azkaban-webserver/src/web/js/jquery/jquery.jstree.js:444-466 | _get_next(_get_prev(x)) is x for every item but the first root. |
| JsTreeTraverse.AfterMeansSibling | azkaban-webserver/src/web/js/jquery/jquery.jstree.js:450-452 | After a closed item the visible items hang off a later sibling of it or of an ancestor. |
| JsTreeTraverse.NextSiblingSucceeds | azkaban-webserver/src/web/js/jquery/jquery.jstree.js:450-452 | The next sibling of the nearest ancestor-or-self that has one is the successor of a closed item. |
| JsTreeTraverse.Walk | azkaban-webserver/src/web/js/jquery/jquery.jstree.js:444-453 | Repeating _get_next from the first root visits every visible item exactly once, in document order. |
| JsTreeXml.StripNothing | azkaban-webserver/src/web/js/jquery/jquery.jstree.js:2666 | Cleaning leaves alone an attribute that contains no "jstree". |
| JsTreeXml.StripMeaning | azkaban-webserver/src/web/js/jquery/jquery.jstree.js:2666 | The replacement leaves exactly the characters that are not reached from a "jstree", in upper or lower case, without a space in between. |
| JsTreeXml.GetXml | azkaban-webserver/src/web/js/jquery/jquery.jstree.js:2648-2708 | The loop with its recursive calls writes the items of the forest in preorder, each with its parent's id. |
| JsTreeXml.ChildrenFound | azkaban-webserver/src/web/js/jquery/jquery.jstree.js:2522-2531 | Among all exported items those with a node's id as parent_id are the items of its children, in order. |
| JsTreeXml.RootsFound | azkaban-webserver/src/web/js/jquery/jquery.jstree.js:2469-2475 | Among all exported items the stylesheet's roots are the items of the top nodes, in order. |
| JsTreeXml.BuildTops | azkaban-webserver/src/web/js/jquery/jquery.jstree.js:2477-2533 | The recursive template rebuilds the nodes from their items. |
| JsTreeXml.NormalIsSame | azkaban-webserver/src/web/js/jquery/jquery.jstree.js:2484-2488 | The state a node comes back with is its own iff nodes with children are open or closed. |
| JsTreeXml.RoundTrip | azkaban-webserver/src/web/js/jquery/jquery.jstree.js:2464-2708 | Exporting any forest with distinct, non-blank ids free of "jstree" and applying the stylesheet gives it back (shape, order, titles, states, but leaves with children closed) iff no node is called "0" and no node with children by a number that is zero; it comes back unchanged iff moreover every node with children is open or closed. |
| JsTreeXml.ZeroIdNeverEnds | azkaban-webserver/src/web/js/jquery/jquery.jstree.js:2469-2531 | With a node called "0" anywhere in the forest the recursion of the template reaches any depth it is allowed. |
| JsTreeXml.ZeroParentSplits | azkaban-webserver/src/web/js/jquery/jquery.jstree.js:2469-2475 | With a node that has children and is called by a number that is zero, more nodes come back at the top than there were. |
| BackboneCollection.FindMeaning | azkaban-webserver/src/web/js/backbone-0.9.10-min.js:22 | A model found for an item is in the list and is the item or has its id; a model of the list is found. |
| BackboneCollection.FindExact | azkaban-webserver/src/web/js/backbone-0.9.10-min.js:22 | Looking an item up finds a model iff it is in the collection and has the item's id or, if the item has none, is the item. |
| BackboneCollection.Collection.Remove | azkaban-webserver/src/web/js/backbone-0.9.10-min.js:20-21 | remove takes out exactly the models found for the items, by id or cid, keeps the order of the rest and drops exactly their keys. |
| BackboneCollection.Collection.Drop | azkaban-webserver/src/web/js/backbone-0.9.10-min.js:20-21 | Deleting a model's keys and splicing it out keeps list, length and index in agreement. |
| BackboneCollection.WithoutTwice | azkaban-webserver/src/web/js/backbone-0.9.10-min.js:20-21 | Removing in two goes is removing the union. |
| BackboneCollection.AddKeys | azkaban-webserver/src/web/js/backbone-0.9.10-min.js:19-20 | Registering a model that neither its id nor its cid finds keeps the index exact. |
| BackboneCollection.Collection.AddOne | azkaban-webserver/src/web/js/backbone-0.9.10-min.js:19-20 | One turn of add's loop takes in a model iff the item is wanted and not found in the collection, and leaves a wanted item represented. |
| BackboneCollection.NotFoundNow | azkaban-webserver/src/web/js/backbone-0.9.10-min.js:19-20 | What a turn of add's loop does not find is what the collection did not hold before and what repeats no earlier item. |
| BackboneCollection.Collection.TakeAll | azkaban-webserver/src/web/js/backbone-0.9.10-min.js:19-20 | The loop of add takes in just the wanted items that the collection did not hold and that repeat no earlier one: an existing model itself, attributes as a model that is new and has the given id; the index is exact for the old and new models together. |
| BackboneCollection.UnsavedTaken | azkaban-webserver/src/web/js/backbone-0.9.10-min.js:19-20 | Every new model without an id that passes validation is taken in, however many there are, each as a model of its own. |
| BackboneCollection.Collection.Add | azkaban-webserver/src/web/js/backbone-0.9.10-min.js:19-20 | add inserts the new models as a block at the end, or where splice would for any index given, in the order of their items; which items are taken in is exactly as for the loop; list, length and index stay in agreement. |
| BackboneCollection.Collection.DropUnnamed | azkaban-webserver/src/web/js/backbone-0.9.10-min.js:23-24 | The first half of update removes exactly the models that no item finds. |
| BackboneCollection.Survivors | azkaban-webserver/src/web/js/backbone-0.9.10-min.js:23-24 | Removing the models outside modelMap is removing those that no item finds. |
| BackboneCollection.Collection.Update | azkaban-webserver/src/web/js/backbone-0.9.10-min.js:23-24 | The models that some item finds stay in their order, the others go, and a new model follows for exactly those wanted items that the collection did not hold and that repeat no earlier one, in the order of the items; every model corresponds to an item and every wanted item is represented. |
| BackboneCollection.Collection.Reset | azkaban-webserver/src/web/js/backbone-0.9.10-min.js:24 | After reset there is a model for exactly the wanted items that repeat no earlier one, in their order, and nothing of the old contents is left in the index. |
| BackboneCollection.Collection.ChangeId | azkaban-webserver/src/web/js/backbone-0.9.10-min.js:26-27 | A model that changes to an unused id is found by the new id and by no other, and the index stays exact. |
| Throttle.FaithfulRun | azkaban-webserver/src/web/js/underscore-1.4.4-min.js:1 | Delivering the latest call at least wait after the previous run keeps runs spaced and every run true to its call. |
| Throttle.Throttled.Invoke | azkaban-webserver/src/web/js/underscore-1.4.4-min.js:1 | A call runs the function at once, and leaves no timer pending, iff wait has passed since the last run; otherwise exactly one timer is pending, due wait after that run, and one that was pending already stays. |
| Throttle.Throttled.Later | azkaban-webserver/src/web/js/underscore-1.4.4-min.js:1 | A pending timer that goes off delivers the arguments of the latest call and leaves no timer. |
| Throttle.Throttled.Meaning | azkaban-webserver/src/web/js/underscore-1.4.4-min.js:1 | On every trace at most one timer is pending, any two runs are at least wait apart and deliver different calls, and when no timer is pending the latest call has been delivered. |
| IsEqual.EqualReflexive | azkaban-webserver/src/web/js/underscore-1.4.4-min.js:1 | The reference equality holds between a value and itself, so the shortcut on identical objects is sound. |
| IsEqual.SameKeys | azkaban-webserver/src/web/js/underscore-1.4.4-min.js:1 | If every key of one object is a key of the other, the counts agree iff the key sets do. |
| IsEqual.NotOnStack | azkaban-webserver/src/web/js/underscore-1.4.4-min.js:1 | In finite acyclic values the object being compared is never found on the traversal stack. |
| IsEqual.CountDown | azkaban-webserver/src/web/js/underscore-1.4.4-min.js:1 | The downward count over the other object's keys ends at zero iff there are as many keys as were counted up. |
| IsEqual.Comparison.Eq | azkaban-webserver/src/web/js/underscore-1.4.4-min.js:1 | The recursion returns true iff the values are structurally equal, and on true leaves the stacks as they were, although a constructor mismatch returns without popping. |
| IsEqual.IsEqual | azkaban-webserver/src/web/js/underscore-1.4.4-min.js:1 | isEqual is structural equality on finite acyclic values of any depth. |

## Left out

* Sizzle: xml documents (no slots, the context test is skipped), a list of contexts (matchAnyContext), positional
  pseudos and set matchers, `:has` and `:not` (they re-enter the matcher and change cachedruns), tokenizing, the
  compiler and token caches, `querySelectorAll`.
* Sizzle's order: `compareDocumentPosition`, `sourceIndex`, nodes of different trees (the branch for chains without a
  common root is kept, but never taken within one tree).
* CHILD: the `:first-`, `:last-` and `:only-` forms, xml documents.
- SelectorSelect.Select: assumes that `find` returns, in document order, just the elements its filter accepts, and that an id is carried by one element at most, as the shortcut does.
- DocumentOrder.Sorter.Sort: the native sort is an insertion sort; any comparison sort would do.
* Callbacks: `empty` during a pass leaves firingLength beyond the list, so it requires an idle list; flattening of nested
  argument lists in `add`; the `this` value of a callback is part of the opaque arguments.
- Callbacks.Callbacks.Fire: what the callbacks do is a finite script, so passes that never end are not covered by it; `CallbackQueue.RunOrderly` and its companions cover every finite part of such runs too.
* Deferred: `then`, `pipe`, `always`; callbacks that throw.
- When.When.Meaning: `when` with exactly one argument, which hands that argument's own promise back, is not covered.
* Ajax: headers, status codes, response parsing, cache and conditional requests, script transports; handlers that throw;
  the rethrow of an error of `send` after the request was finished. The id of a request, its phase and the counts of its
  `done` runs are bookkeeping of the model.
- AjaxLifecycle.Ajax.Send: every failure of `send` with state below 2 ends in `done`; a transport that reports back from inside `send` is a `Complete` right after it.
* AjaxConvert: dataFilter, responseFields, lower-casing of the registry; converters that are neither functions nor true.
- AjaxConvert.Convert: assumes a first type other than "*" (the caller resolves it from the response) and a registry without empty type names.
* Data ids: data on plain objects, removing all data at once, key names split at spaces or camel-cased, the two levels
  (private and public) of an entry, which the model merges.
* jsTree: `_repair_state`, `get_unchecked`, the strict variants and the container argument of `_get_next` and
  `_get_prev`, the "nest" format, the class jstree-last, escaping in the XML text (items are modelled, not characters),
  icons and languages.
- JsTreeXml.RoundTrip: the stylesheet's recursion carries a depth bound, and the theorem holds for every bound of at least the height of the forest.
* Backbone: comparators and sorting, events and handlers that change the collection meanwhile, merging of attributes,
  parsing and validation (whether attributes are valid is a parameter). Ids are truthy and collide neither with cids nor
  with the key "undefined".
- BackboneCollection.Collection.ChangeId: assumes an id not in use in the collection.
* Underscore: a wrapped function that calls its own throttled form, clocks that run backwards, timers that go off early;
  cyclic values, wrapper objects such as `new String`, chained wrappers.
