# G-Gateway: a verified model of the data plane

G-Gateway is an API gateway. Its data plane compiles a configuration into immutable snapshots,
matches requests against compiled routes, balances them over upstream endpoints, retries and
probes them, and hands upgraded connections over to tunnels. This project models the parts of it
whose correctness is not visible in any one function, and proves what they promise.

`dafny verify dfyconfig.toml` checks everything. Each module is one file.

## What is modelled

**Router.** `RoutePattern` compiles path and host patterns and walks a path position by position.
`RoutePredicate` holds header and query predicates and the bitmask method set. `RouteTree` is the
trie with its precedence order and upper bounds, `RouteMatcher` the branch-and-bound search over
it, and `Router` puts the three host families together. The reference is a plain scan: among all
route and host pairs that accept host, path, predicates and method, take the greatest by
precedence. `Router.MatchRequest` gives that answer for every accepted route set and every request,
and `Router.OrderIrrelevant` says it does not depend on declaration order. `RouteMeaning` reads that
answer off the configured texts alone: which requests a route accepts, and which route beats which.

**Balancers.** `Apportion` is largest-remainder apportionment under a cap and the division by the
greatest common divisor. `Wrr` builds the deadline-ordered schedule, with its fairness inequality in
every prefix, and selects from it with a 64-bit counter. `Continuum` builds and walks the hash
ring; `RingOrder` shows that neither the ring nor the identity it chooses depends on the order of the
endpoints. `BalancerMeaning` states what configured weights and identities get: how often an endpoint
stands in the schedule and in which order, and which points it has on the ring. `HashKey` and
`Fingerprint` are the byte encodings fed to the two hashes, with decoders. Hashes are
uninterpreted.

**Resilience.** `RetryBudget` runs the lock-free token budget load by load and compare-and-swap by
compare-and-swap. `Health` is the saturating-counter automaton, refined against counts over the
whole trace, and `HealthMeaning` says which policy field decides what. `ProbeScheduler` follows
probe work items through heap, queue and goroutines. `Plan` selects an untried healthy endpoint, and
`AttemptLoop` is the retry loop with a log of everything it does to its surroundings;
`AttemptLoop.GivesUpOnlyWithNoneLeft` joins the two.

**Resource lifetime.** `ResourceTable` is the meaning of the reference-counted maps: the owned
references determine every entry. `Registry` is the mutex sections as loops over the registry's own
fields, and `RegistryMeaning` counts what a snapshot needs over its configured upstreams. `Lifetime`
is the protocol of candidates, plan sets, leases, reaping, tunnel leases, publication and close, one
step per compare-and-swap, load, swap or mutex section; each place where the code would panic or
give up is a recorded fault. `LifetimeInvariant` shows that every step
keeps the invariant, and `LifetimeRuns` says what every run of it guarantees, among other things that
no run meets a fault. `LifetimeProgress` says when each step takes effect and what it leads to, in every
state a run reaches.

**Tunnels.** `TunnelRegistry` is the ownership of upgraded connections under activation, rollback,
drain and session end. `WebSocketCommit` arbitrates between cancelling and committing a 101
response.

`Wrappers`, `Ordering` and `Counting` hold shared definitions. In the protocol modules a run is any
list of steps from the initial state, a step that is not enabled changes nothing, and a theorem
about `Run` or `Reached` is about every interleaving.

## How the code and the model differ where it matters

- Round-robin completeness and exact cycle shares are false at the counter's wrap-around:
  `(start + offset) % length` in 64-bit arithmetic can repeat slots and skip others.
  `Wrr.WrapCounterexample` is an input for both. `Wrr.CompleteIff` and `Wrr.CycleSharesIff` are the
  exact conditions, and a start that does not wrap (`Wrr.SafeStart`) is a sufficient guard.
- Matching with an undecodable query may or may not report the error, depending on what was pruned.
  `Router.MatchRequest` says when it may, and that it never does with a decodable query.
- An observation that passed the retirement check before the flag was set is still applied:
  `Health.LateObservation` is such a run, and `Health.FrozenIff` says exactly when nothing changes.
- A reaper pass in the protocol finalizes one set per step. The passes of the code are sequences of
  such steps, so the theorems cover them. `Registry.Registry.ReapNow` is the whole pass.
- Several goroutines' checks of a flag that only ever goes up are merged with the next check when
  the order cannot be observed.

## Model

| member | source | states |
|---|---|---|
| `RoutePattern.JoinSplit` | internal/router/pattern.go:41-91 | Cutting a path at every slash loses nothing: joining the parts gives the path back, from every position |
| `RoutePattern.CompilePathPattern` | internal/router/pattern.go:41-91 | The compiling loop returns exactly the pattern, or the first error in segment order, that the segment-by-segment definition gives, with the incrementally kept specificity |
| `RoutePattern.CompileRoundTrip` | internal/router/pattern.go:93-122 | Writing out a compiled pattern gives the original text, so no two pattern texts compile to the same segments |
| `RoutePattern.CompiledWellFormed` | internal/router/pattern.go:41-91 | In a compiled pattern a prefix or catch-all segment is last and no parameter name repeats |
| `RoutePattern.Match` | internal/router/pattern.go:137-188 | The position walk with its in-place position and spans computes the recursive match, spans included |
| `RoutePattern.WalkAgreesWithParts` | internal/router/pattern.go:137-188 | The position walk accepts a path exactly when the list of segments accepts the path cut at every slash (the independent reading) |
| `RoutePattern.WalkCaptures` | internal/router/pattern.go:137-188 | The spans lie inside the path and their texts are the captured parts, in order, a catch-all taking the whole rest |
| `RoutePattern.MatchMeansParts` | internal/router/pattern.go:137-188 | Both halves together for a whole path that starts with a slash |
| `RoutePattern.WildcardLookup` | internal/router/pattern.go:288-301 | A one-label wildcard accepts a host exactly when the text after the host's first dot is the wildcard's suffix, so one map lookup finds all accepting wildcards |
| `RoutePattern.HostMatchUnique` | internal/router/pattern.go:288-301 | At most one exact and one wildcard pattern can accept a host |
| `RoutePredicate.EvaluatedIsConjunction` | internal/router/predicate.go:91-124 | With a decodable query, the early-exit evaluation is the conjunction of all predicates |
| `RoutePredicate.HeaderValues` | internal/router/predicate.go:126-143 | The case-insensitive scan over header names returns exactly the values filed under names equal up to ASCII case |
| `RoutePredicate.Evaluate` | internal/router/predicate.go:91-124 | The early-exit loop computes the evaluation, error included |
| `RoutePredicate.ContainsIsMembership` | internal/router/predicate.go:198-243 | The bitmask plus map answers membership in the plain set of methods |
| `RoutePredicate.AddMethodAdds` | internal/router/predicate.go:171-196 | Setting a bit or adding a custom name adds exactly that method to the plain set |
| `RoutePredicate.MethodSetOfElements` | internal/router/predicate.go:171-243 | The compiled method set stands for exactly the upper-cased methods of the route |
| `RoutePredicate.CompileMethods` | internal/router/predicate.go:171-196 | Compilation succeeds exactly on non-empty lists of valid tokens without case-insensitive duplicates, and then yields the set above |
| `RoutePredicate.SortedValues` | internal/router/predicate.go:206-218 | The method list is strictly ascending and has exactly the members of the set |
| `RoutePredicate.AscendingUnique` | internal/router/predicate.go:206-218 | A strictly ascending list is determined by its members |
| `RouteTree.CompareByFirstDifference` | internal/router/router.go:282-305 | The first of the six levels on which two keys differ decides; the route ID decides only when none does |
| `RouteTree.CompareTotal` | internal/router/router.go:282-305 | Precedence is antisymmetric and comparing equal means being equal |
| `RouteTree.CompareTransitive` | internal/router/router.go:282-305 | Precedence is transitive |
| `RouteTree.InsertAdds` | internal/router/router.go:201-229 | Inserting into a trie adds exactly one candidate and keeps every candidate at the place its segments spell |
| `RouteTree.FinalizeList` | internal/router/router.go:231-268 | Sorting one list keeps its candidates, orders them by falling precedence and raises the bound to cover them |
| `RouteTree.FinalizeLists` | internal/router/router.go:231-268 | The three candidate lists of a node are each sorted without loss, and the bound is the greatest key among them |
| `RouteTree.FinalizeNode` | internal/router/router.go:231-268 | At every depth: candidates and places are kept, every list falls, and every node's bound is the greatest precedence below it |
| `RouteMatcher.TracksStep` | internal/router/router.go:429-462 | Considering one more candidate keeps the matcher state equal to best-so-far and allowed-so-far over the candidates seen |
| `RouteMatcher.WrongEdge` | internal/router/router.go:371-416 | A candidate behind an edge that the next path segment does not take cannot match the path |
| `RouteMatcher.BelowUpper` | internal/router/router.go:371-427 | When the best so far is at least a node's bound, it is at least as good as every candidate below the node, so nothing is lost by skipping it |
| `RouteMatcher.OthersCannotMatch` | internal/router/router.go:371-416 | Children that are not visited hold no candidate that matches the path |
| `RouteMatcher.MatcherState.AddAllow` | internal/router/router.go:464-476 | The allow set grows by exactly the methods of the candidate |
| `RouteMatcher.MatcherState.Consider` | internal/router/router.go:429-462 | Scanning a falling list with its early break leaves the same state as scanning all of it, or stops at a predicate error |
| `RouteMatcher.MatcherState.Visit` | internal/router/router.go:371-416 | Branch-and-bound over a finalized trie leaves the same state as considering every candidate in it |
| `Router.Compile` | internal/router/router.go:86-178 | Compilation succeeds exactly on the acceptable route sets, and its index then holds exactly the route and host pairs, placed, sorted and bounded |
| `Router.LookupsCoverScope` | internal/router/router.go:310-341 | The exact, wildcard and hostless lookups together reach exactly the candidates whose host part accepts the request |
| `Router.Search` | internal/router/router.go:310-341 | The three lookups in order leave the matcher state of a plain scan over everything they reach |
| `Router.MatchRequest` | internal/router/router.go:310-358 | The answer is the greatest candidate of a plain scan with its spans, or method-not-allowed with exactly the sorted union of the allowed methods, or not-found exactly when nothing matches |
| `Router.AnswerUnique` | internal/router/router.go:310-358 | A request has one answer |
| `Router.AcceptableAnyOrder` | internal/router/router.go:83-199 | Whether a route set is accepted does not depend on the order of the routes |
| `Router.OrderIrrelevant` | internal/router/router.go:83-199 | Permuted routes are accepted too and change no answer |
| `RouteMeaning.PathMeaning` | internal/router/pattern.go:137-188 | A compiled pattern matches exactly the paths its text accepts piece by piece, and the spans carry the parts its names stand for |
| `RouteMeaning.PartsHaveNoSlash` | internal/router/pattern.go:48-52 | No part of a cut text has a slash, and joining the parts gives the text back |
| `RouteMeaning.NameMeaning` | internal/router/pattern.go:124-135 | A parameter name is a letter or underscore followed by letters, digits and underscores |
| `RouteMeaning.PatternAccepted` | internal/router/pattern.go:41-122 | The pattern texts that compile: absolute, without query or fragment, every piece literal or one whole parameter, an open end only last, no name twice |
| `RouteMeaning.HostMeaning` | internal/router/pattern.go:288-301 | An exact host accepts itself, a wildcard exactly one non-empty label before its suffix, and no host everything |
| `RouteMeaning.FoldMeaning` | internal/router/predicate.go:126-143 | Between ASCII names, header matching is equality up to letter case |
| `RouteMeaning.FoldsToAscii` | internal/router/predicate.go:126-143 | Outside ASCII only the long s and the Kelvin sign fold to an ASCII letter |
| `RouteMeaning.PredicateMeaning` | internal/router/predicate.go:91-124 | Each operator in terms of the values the request has for the named field |
| `RouteMeaning.MethodMeaning` | internal/router/predicate.go:171-204 | A compiled method set contains exactly the upper-cased configured names |
| `RouteMeaning.UpperMeaning` | internal/router/predicate.go:181-181 | Upper-casing changes small letters to their capitals and nothing else |
| `RouteMeaning.CandidateMeaning` | internal/router/router.go:429-462 | A candidate passes and serves exactly the requests that its configured host, path, predicates and methods accept |
| `RouteMeaning.SpecificityMeaning` | internal/router/pattern.go:54-91 | The rank of a path read off its text: open end by an asterisk, parameters by a brace, and the number of literal pieces |
| `RouteMeaning.PrecedenceMeaning` | internal/router/router.go:270-308 | One candidate is above another exactly when its route, as configured, beats the other: priority, exact over wildcard over no host, literal over parameters over open end, literal pieces, pattern length, predicates, smaller ID |
| `RouteMeaning.AcceptedMeaning` | internal/router/router.go:86-178 | The accepted route sets: good routes, no ID twice, no two with the same priority and match expression |
| `RouteMeaning.TokenMeaning` | internal/router/predicate.go:245-255 | The method names accepted: non-empty and made of the HTTP token characters |
| `RouteMeaning.SpaceMeaning` | internal/router/router.go:99-101 | The characters that leave an ID blank |
| `RouteMeaning.AnswerMeaning` | internal/router/router.go:310-360 | The answer is the one the configured routes call for: a serving route that no serving route beats, with its captured parts; else the methods of the fitting routes; else not found |
| `RouteMeaning.BestHostWins` | internal/router/router.go:141-168 | At equal priority a route served at an exact host is not beaten by a wildcard or hostless one, nor a wildcard one by a hostless one |
| `Ordering.LexByFirstDifference` | internal/router/router.go:302-307 | String order is decided at the first difference, a proper prefix coming first |
| `Apportion.GreatestCommonDivisor` | internal/upstream/wrr.go:194-199 | The in-place remainder loop computes the recursive greatest common divisor, which `GcdOfIsGcd` characterizes by divisibility |
| `Apportion.GcdOfIsGcd` | internal/upstream/wrr.go:52-55 | Folding the loop over the weights gives the greatest common divisor of all of them |
| `Apportion.GcdOfUnique` | internal/upstream/wrr.go:52-55 | The greatest common divisor of a list is unique, so it does not depend on the order |
| `Apportion.RatiosKept` | internal/upstream/wrr.go:52-60 | Dividing by it is exact and keeps every ratio between weights |
| `Apportion.LeftoverInRange` | internal/upstream/wrr.go:122-151 | The leftover after rounding down is between zero and the number of endpoints less one |
| `Apportion.SharesSumToCap` | internal/upstream/wrr.go:122-151 | The assigned shares add up to the cap exactly |
| `Apportion.LargestRemainder` | internal/upstream/wrr.go:122-151 | Where some endpoints get one more than their rounded-down share, none of them has a smaller remainder than an endpoint that does not |
| `Apportion.AssignCapped` | internal/upstream/wrr.go:122-151 | The in-place loops over the slot array assign exactly these shares |
| `Wrr.LessTotal` | internal/upstream/wrr.go:162-172 | Two pending slots of different endpoints are ordered one way or the other by deadline, identity and index |
| `Wrr.LessTransitive` | internal/upstream/wrr.go:162-172 | The cross-multiplied deadline order is transitive |
| `Wrr.PopLeast` | internal/upstream/wrr.go:74-84 | Popping returns the strictly least pending slot and leaves the others |
| `Wrr.ScheduleUnique` | internal/upstream/wrr.go:74-89 | Earliest-deadline-first determines the schedule slot by slot |
| `Wrr.EmitSchedule` | internal/upstream/wrr.go:74-89 | The heap loop emits every endpoint exactly its quota of times, always the earliest deadline first, and is fair in every prefix |
| `Wrr.EmitKeepsFair` | internal/upstream/wrr.go:162-172 | Emitting an earliest-deadline slot keeps the fairness inequality between all pairs of endpoints |
| `Wrr.FairLowerBound` | internal/upstream/wrr.go:74-89 | In every prefix of k slots: k times an endpoint's quota is at most (its emitted count + 1) times the length |
| `Wrr.FairUpperBound` | internal/upstream/wrr.go:74-89 | In every prefix of k slots over n endpoints: emitted count times length is at most (k + n - 1) times the quota |
| `Wrr.QuotasFill` | internal/upstream/wrr.go:61-72 | The quotas add up to the schedule length, which is the normalized weight sum or the cap, and each is at least one |
| `Wrr.CompileWrr` | internal/upstream/wrr.go:25-89 | Compilation fails exactly without a positive weight or beyond the schedule limit, is direct for one active endpoint, and otherwise yields the fair schedule above |
| `Wrr.SelectorNamesActive` | internal/upstream/wrr.go:25-89 | A compiled selector names exactly the endpoints of positive weight |
| `Wrr.SelectionState.SelectNext` | internal/upstream/wrr.go:99-111 | Selection advances the 64-bit counter and returns the first selectable slot from there, or fails if the round has none |
| `Wrr.RoundCoversIff` | internal/upstream/wrr.go:99-111 | A round visits every slot exactly when the counter does not wrap during it or the length divides 2^64 |
| `Wrr.CompleteIff` | internal/upstream/wrr.go:99-111 | For a schedule and a counter value, selection is complete for every selectable set exactly when the round looks at every scheduled endpoint |
| `Wrr.SafeTriesAll` | internal/upstream/wrr.go:99-111 | A start from which the round visits every slot is enough for that |
| `Wrr.WrapCounterexample` | internal/upstream/wrr.go:99-111 | With the slots 0, 1, 2 and the counter at its last value, selection fails although endpoint 2 is selectable, and a whole cycle never picks it |
| `Wrr.SelectComplete` | internal/upstream/wrr.go:99-111 | From a start where the round looks at every endpoint, selection on a compiled schedule succeeds exactly when some endpoint of positive weight is selectable |
| `Wrr.CycleShares` | internal/upstream/wrr.go:91-97 | From a safe start any L consecutive sequence numbers select every endpoint exactly its quota of times |
| `Wrr.CycleSharesIff` | internal/upstream/wrr.go:91-97 | From any start: the shares of a cycle are exact if and only if the slots repeated after a wrap hold the same endpoints as the slots skipped |
| `Continuum.AssignPoints` | internal/upstream/chash.go:105-126 | Every active endpoint gets its apportioned number of points, at least one |
| `Continuum.PointsFill` | internal/upstream/chash.go:105-126 | The points add up to 64 per unit of weight, or to the cap, and nobody is left out |
| `Continuum.CompileContinuum` | internal/upstream/chash.go:81-150 | The ring is the sorted list of all points of all active endpoints; it fails exactly without one or beyond the limit |
| `Continuum.SelectNext` | internal/upstream/chash.go:32-64 | Binary search, wrap-around, seen set and distinct-count cutoff together return what the plain clockwise scan returns |
| `Continuum.Walk` | internal/upstream/chash.go:42-63 | The walk with its seen array and cutoff finds the first selectable point clockwise or proves there is none |
| `Continuum.ChoiceUnique` | internal/upstream/chash.go:19-64 | A key has one choice for a given set of selectable endpoints |
| `Continuum.ShrinkKeepsChoice` | internal/upstream/chash.go:32-64 | Shrinking the selectable set does not move a key whose choice is still selectable |
| `RingOrder.PointCountPermuted` | internal/upstream/chash.go:105-126 | How many points an endpoint gets does not depend on the declaration order |
| `RingOrder.RingPermuted` | internal/upstream/chash.go:193-205 | Permuted endpoints have the same sorted points up to the endpoint numbering |
| `RingOrder.RingOrderIrrelevant` | internal/upstream/chash.go:81-150 | The ring of permuted endpoints has the same hashes and names the same endpoint identities at every point |
| `RingOrder.ChoiceOrderIrrelevant` | internal/upstream/chash.go:19-205 | Rings compiled from permuted endpoints, one active endpoint included, choose the same endpoint identity for a key when the same identities are selectable |
| `RingOrder.RingIsValid` | internal/upstream/chash.go:81-150 | A compiled ring is what selection requires: sorted, non-empty, within the endpoint count |
| `RingOrder.RingNamesActive` | internal/upstream/chash.go:81-150 | A compiled ring has points of exactly the endpoints of positive weight |
| `RingOrder.ChoiceComplete` | internal/upstream/chash.go:32-64 | On a compiled ring, selection succeeds exactly when some endpoint of positive weight is selectable |
| `BalancerMeaning.DivisorMeaning` | internal/upstream/wrr.go:52-60 | The divisor computed is the greatest number all configured weights are multiples of |
| `BalancerMeaning.ActiveNumber` | internal/upstream/wrr.go:29-50 | The endpoints counted against the limits are those of positive weight |
| `BalancerMeaning.ScheduleMeaning` | internal/upstream/wrr.go:52-72 | Each endpoint stands in the schedule in exact proportion to its weight when the divided weights add up to at most 8192, and otherwise has one slot and its rounded part of the rest, or one more |
| `BalancerMeaning.ScheduleBonus` | internal/upstream/wrr.go:122-152 | Slots left over by rounding go to the larger remainder, then the smaller identity, then the earlier endpoint |
| `BalancerMeaning.ScheduleOrder` | internal/upstream/wrr.go:162-172 | At every place of the schedule stands the endpoint whose next share falls due first, with the stated ties |
| `BalancerMeaning.ScheduleSpread` | internal/upstream/wrr.go:74-84 | In every prefix an endpoint has its part, short of one share and beyond it by less than one slot per other endpoint |
| `BalancerMeaning.SelectMeaning` | internal/upstream/wrr.go:99-111 | A selection takes the first selectable slot from the counter on, in order, as long as the counter does not wrap |
| `BalancerMeaning.RingMeaning` | internal/upstream/chash.go:105-126 | Each endpoint has 64 points per divided weight when these fit into 65536, and otherwise its rounded part, or one more |
| `BalancerMeaning.RingBonus` | internal/upstream/chash.go:152-181 | Points left over by rounding go to the largest remainders with the same ties |
| `BalancerMeaning.RingHashes` | internal/upstream/chash.go:128-138 | The points of an endpoint are the hashes of its identity with 0, 1, 2 and so on, and the ring has no others |
| `BalancerMeaning.RingOrdered` | internal/upstream/chash.go:193-205 | Hashes rise around the ring and colliding points are ordered by identity |
| `BalancerMeaning.ClockwiseMeaning` | internal/upstream/chash.go:32-64 | The choice has a point that no selectable endpoint's point precedes, going up from the key and around |
| `HashKey.UvarintRoundTrip` | internal/upstream/hashkey.go:160-164 | Decoding an encoded integer followed by anything returns the integer and the rest |
| `HashKey.ComponentRoundTrip` | internal/upstream/hashkey.go:52-134 | An encoded key component followed by anything decodes to the component and the rest |
| `HashKey.KeyRoundTrip` | internal/upstream/hashkey.go:52-134 | The bytes of a whole key decode to its list of components |
| `HashKey.Digest.WriteUvarint` | internal/upstream/hashkey.go:160-164 | The loop appends the variable-length encoding to the bytes fed |
| `HashKey.Digest.WriteComponent` | internal/upstream/hashkey.go:52-170 | One source appends exactly its encoded component |
| `HashKey.Digest.Extract` | internal/upstream/hashkey.go:52-128 | The bytes fed are the encoding of the extracted components, or of the fallback component when every source is absent |
| `HashKey.KeysUnambiguous` | internal/upstream/hashkey.go:52-185 | Equal bytes fed mean equal component lists; with some source present on both sides, equal source kinds, presence and values in order |
| `HashKey.UvarintFormat` | internal/upstream/hashkey.go:160-164 | Seven bits to a byte, low bits first, with the high bit on all but the last |
| `HashKey.ComponentFormat` | internal/upstream/hashkey.go:130-158 | The bytes of a missing source and of one short value |
| `HashKey.SourceMeaning` | internal/upstream/hashkey.go:60-110 | Which part of the request each kind of source reads, and its tag |
| `HashKey.KeyMeaning` | internal/upstream/hashkey.go:52-128 | The fed bytes decode to the sources in order, or to the remote address alone exactly when no source has anything to read |
| `Fingerprint.BigEndianRoundTrip` | internal/upstream/fingerprint.go:117-127 | Fixed-width integers decode to themselves |
| `Fingerprint.FieldPrefix` | internal/upstream/fingerprint.go:93-127 | Two fields of one kind that start the same bytes are equal, whatever follows |
| `Fingerprint.RecordPrefix` | internal/upstream/fingerprint.go:93-127 | The same for records of the same shape |
| `Fingerprint.HealthKeyUnambiguous` | internal/upstream/fingerprint.go:21-79 | Equal bytes fed mean equal health policies and transport keys |
| `Fingerprint.FeedHealthKey` | internal/upstream/fingerprint.go:21-79 | Writing field by field feeds exactly those bytes |
| `Fingerprint.BudgetKeyUnambiguous` | internal/upstream/fingerprint.go:81-91 | Equal bytes fed mean equal budget policies |
| `RetryBudget.StepInv` | internal/upstream/budget.go:37-99 | Every load and compare-and-swap of every goroutine keeps the budget invariant |
| `RetryBudget.AmplificationBound` | internal/upstream/budget.go:37-90 | In every run: credits + 1000 * granted <= ratio * primaries, credits <= burst * 1000, and inflight equals live permits plus unfinished acquires, within its maximum |
| `RetryBudget.WindowBalance` | internal/upstream/budget.go:37-90 | Over any part of a run, grants cost 1000 credits each and primaries earn at most the ratio |
| `RetryBudget.WindowGrants` | internal/upstream/budget.go:37-90 | Grants in any window are at most burst + ratio * primaries / 1000 |
| `RetryBudget.MaxObservedIsPeak` | internal/upstream/budget.go:92-99 | When no acquire is still recording, the observed maximum is the true peak |
| `RetryBudget.GrantMeaning` | internal/upstream/budget.go:56-79 | Undisturbed, a permit is granted exactly when a slot is free and 1000 credits are there, which it takes; otherwise nothing changes |
| `RetryBudget.CreditMeaning` | internal/upstream/budget.go:37-53 | Undisturbed, a primary request adds the ratio, up to the burst |
| `RetryBudget.ReleaseMeaning` | internal/upstream/budget.go:82-90 | Giving a permit back frees its slot |
| `Health.EndpointHealth.Observe` | internal/upstream/health.go:139-178 | Observing in place, with early exits, gives the tracker that the pure step gives |
| `Health.EndpointHealth.ApplyInPlace` | internal/upstream/health.go:208-240 | The in-place update of state and counters is the pure transition |
| `Health.EndpointHealth.Retire` | internal/upstream/health.go:130-132 | Retiring changes nothing but the flag |
| `Health.TrackerRefinesCounts` | internal/upstream/health.go:139-290 | For every observation sequence the saturating 8-bit counters give the state that unbounded counts over the trace give |
| `Health.RecoveryNeedsActiveSuccesses` | internal/upstream/health.go:208-240 | Unhealthy is left only by as many active successes as configured, with no failure and no passive success among them |
| `Health.CountIsRecovery` | internal/upstream/health.go:208-240 | The recovery count is the number of active successes since the run began |
| `Health.RunIsSerial` | internal/upstream/health.go:139-178 | Every interleaving of observers and a retirement leaves the tracker of one serial order |
| `Health.RetirementFreezes` | internal/upstream/health.go:130-178 | After retirement the tracker stays as it is, except that an observation already past the checks is applied when it finishes |
| `Health.LateObservation` | internal/upstream/health.go:130-178 | A run in which an observation that entered before the retirement makes the endpoint unhealthy after it |
| `Health.FrozenIff` | internal/upstream/health.go:130-178 | Nothing changes after retirement if and only if no observation is inside, or the one inside changes nothing |
| `HealthMeaning.ActiveFailures` | internal/upstream/health.go:208-276 | From a fresh tracker, probe failures of one kind in a row make the endpoint unhealthy exactly from the active policy's count for that kind on, 255 standing in for zero |
| `HealthMeaning.PassiveFailures` | internal/upstream/health.go:208-276 | The same for traffic and the passive policy's three counts |
| `HealthMeaning.MissingPolicy` | internal/upstream/health.go:139-142 | Without a passive policy traffic changes nothing, and without an active one a probe counts to 255 |
| `HealthMeaning.SuccessMeaning` | internal/upstream/health.go:210-219 | Successes in a row make a fresh endpoint healthy exactly from the configured number on |
| `HealthMeaning.StatusMeaning` | internal/upstream/health.go:180-206 | What each status list makes of an HTTP status, for probes and for traffic |
| `HealthMeaning.SuccessStepMeaning` | internal/upstream/health.go:210-219 | A success clears the failures and counts, except traffic to an unhealthy endpoint |
| `HealthMeaning.FailureStepMeaning` | internal/upstream/health.go:220-238 | A failure clears the successes and counts only for its own kind; a transition clears everything |
| `HealthMeaning.UnhealthyNeedsFailures` | internal/upstream/health.go:208-240 | An endpoint becomes unhealthy only after the configured number of failures of one kind without a success between |
| `ProbeScheduler.StepInv` | internal/upstream/health_scheduler.go:150-312 | Every flag check, mutex section and channel operation keeps the token invariant |
| `ProbeScheduler.ProbeTokenConserved` | internal/upstream/health_scheduler.go:150-312 | In every run an activated, unretired registration of a probed type has exactly one work item until the stop; no registration ever has two, nor one before activation |
| `ProbeScheduler.ProbesNeverOverlap` | internal/upstream/health_scheduler.go:283-312 | Two probes of one registration never run at once |
| `ProbeScheduler.QueuedMeansNotProbing` | internal/upstream/health_scheduler.go:173-312 | While its item waits in the heap or the ready queue, a registration is not being probed |
| `ProbeScheduler.PopMeaning` | internal/upstream/health_scheduler.go:79-85 | An item is popped exactly when it is due and no other is due earlier, or as early and pushed before |
| `ProbeScheduler.HeadExists` | internal/upstream/health_scheduler.go:249-269 | A heap with items has one to pop |
| `ProbeScheduler.ActivationSchedules` | internal/upstream/health_scheduler.go:150-187 | Activating an unretired registration puts one item into the heap |
| `ProbeScheduler.DueIsProbed` | internal/upstream/health_scheduler.go:199-300 | A due item of an unretired registration goes through the queue to a worker and is probed |
| `ProbeScheduler.ProbedIsRescheduled` | internal/upstream/health_scheduler.go:283-312 | After its probe an unretired registration is in the heap again |
| `ProbeScheduler.FullQueueReschedules` | internal/upstream/health_scheduler.go:199-247 | An item that meets a full queue goes back to the heap |
| `ProbeScheduler.RetiredGoesNoFurther` | internal/upstream/health_scheduler.go:161-187 | The item of a retired registration is dropped wherever it is next looked at |
| `Plan.AttemptSet.Contains` | internal/upstream/plan.go:51-61 | The scan answers membership |
| `Plan.AttemptSet.Add` | internal/upstream/plan.go:41-48 | A new ordinal is appended; a duplicate or a full set is refused unchanged |
| `Plan.SelectNext` | internal/upstream/plan.go:118-169 | Selection returns the balancer's pick among healthy untried endpoints of the plan, or the right error; the range check after it never fires |
| `Plan.ListedIsActive` | internal/upstream/registry.go:333-372 | A plan compiled from weighted endpoints can pick exactly those of positive weight |
| `Plan.CompiledPlansSelect` | internal/upstream/registry.go:333-372 | A compiled plan meets what selection requires |
| `Plan.PickComplete` | internal/upstream/plan.go:118-169 | For either balancer, selection from a compiled plan fails exactly when no endpoint of positive weight is healthy and untried (for round robin, where the round looks at every endpoint) |
| `Plan.OfferMeaning` | internal/upstream/plan.go:118-169 | When a plan has no endpoint at all to offer, and which endpoints may be selected |
| `AttemptLoop.SendAttempt` | internal/proxy/attempt.go:61-68 | One attempt is sent, gives back its permit after the answer and is observed once |
| `AttemptLoop.NextChoice` | internal/proxy/attempt.go:71-95 | A retry takes a permit and an untried healthy endpoint and drains the answer; otherwise the loop ends with every permit back, and the reason and the shared counter are as stated |
| `AttemptLoop.MakeAttempt` | internal/proxy/attempt.go:44-95 | One round marks the endpoint as tried, makes the attempt, and either leaves the next one ready or ends the loop with everything settled |
| `AttemptLoop.ExecuteAttempts` | internal/proxy/attempt.go:20-98 | At most five attempts, and at most as many as configured but at least one, on distinct healthy endpoints; the loop ends only for a stated reason, which it records, with the shared counter left by its last selection; the duplicate branch and the end of the loop are never reached |
| `AttemptLoop.SuppressionMeaning` | internal/proxy/attempt.go:54-91 | Each reported reason exactly in terms of what happened at the last attempt: clone, eligibility, retry decision, limit, cancellation, permit |
| `AttemptLoop.ClampMeaning` | internal/proxy/attempt.go:27-33 | The limit is five, and as many as configured but at least one |
| `AttemptLoop.RetryDiscipline` | internal/proxy/attempt.go:44-96 | Every permit is released exactly once, every sent attempt observed exactly once with its own classification, every response but the returned one drained exactly once; no attempt or endpoint repeats, and every retry is sent while its permit is held |
| `AttemptLoop.GivesUpOnlyWithNoneLeft` | internal/proxy/attempt.go:38-91 | Where the round at the last counter looks at every endpoint, a request is left unselected or gives up retrying for want of an endpoint only when no endpoint of positive weight is both healthy and untried |
| `ResourceTable.AcquireCounts` | internal/upstream/registry.go:229-265 | One acquisition adds one counted reference, bound to the runtime of the entry |
| `ResourceTable.ReleaseCounts` | internal/upstream/registry.go:579-651 | Dropping an owned reference cannot underflow and takes exactly one count, the entry with the last |
| `ResourceTable.ReleaseAllCounts` | internal/upstream/registry.go:579-651 | A list of owned references can be given back, in any order |
| `ResourceTable.CountsUnique` | internal/upstream/registry.go:146-378 | What is owned determines every entry, count and runtime |
| `ResourceTable.AcquireReleaseRestores` | internal/upstream/registry.go:176-210 | Acquiring and giving back restores every entry |
| `ResourceTable.NoOwnersIffEmpty` | internal/upstream/registry.go:457-491 | All five maps are empty exactly when nobody owns anything |
| `Registry.Registry.AcquireRef` | internal/upstream/registry.go:229-265 | Shares the entry's runtime or creates one, as the acquisition function says |
| `Registry.Registry.TakeEndpoints` | internal/upstream/registry.go:267-315 | The endpoint loop acquires each endpoint and, for positive weight under active health, its tracker, and stops exactly at one that neither parses nor has a runtime already |
| `Registry.Registry.PreparePlan` | internal/upstream/registry.go:223-378 | A plan acquires exactly its keys in order, or a prefix of them; it succeeds exactly when transport, endpoints and balancer can be had |
| `Registry.Registry.Prepare` | internal/upstream/registry.go:146-221 | A candidate owns exactly the keys of its plans; every error leaves all entries, counts and runtimes as before; each of closed, backpressure, invalid configuration, exceeded budget and success comes exactly when it should |
| `RegistryMeaning.KeysMeaning` | internal/upstream/registry.go:223-327 | How many references to each key a snapshot owns, counted over its upstreams: one transport, selection state and budget each, one per endpoint, one per tracked endpoint of positive weight |
| `RegistryMeaning.SuccessMeaning` | internal/upstream/registry.go:171-207 | A preparation meets no problem exactly when every upstream has a transport and a balancer, every endpoint parses or is known, and slots and points stay within eight million each |
| `Registry.Registry.ReleaseRefs` | internal/upstream/registry.go:579-651 | The release loops drop exactly the listed references, report exactly the transports that lost their last, and panic exactly on an unowned one |
| `Registry.Registry.Partition` | internal/upstream/reaper.go:44-55 | The first loop keeps the surviving sets in order and marks exactly the drained ones |
| `Registry.Registry.ReapNow` | internal/upstream/reaper.go:37-88 | A reaper pass finalizes exactly the drained sets, gives back what they own once, and leaves everything else counted |
| `Registry.Registry.AcquireTunnelLease` | internal/upstream/plan.go:229-243 | A tunnel lease is granted exactly when somebody still owns that transport generation |
| `Registry.Registry.ReleaseTunnelLease` | internal/upstream/plan.go:247-274 | Releasing takes one count and closes the transport exactly with the last; it panics exactly when the lease was not counted |
| `LifetimeInvariant.PrepareInv` | internal/upstream/registry.go:146-221 | Preparing, failing or succeeding, keeps the protocol invariant |
| `LifetimeInvariant.FinishCommitInv` | internal/upstream/registry.go:526-541 | Commit transfers ownership without changing a count |
| `LifetimeInvariant.RegisterInv` | internal/upstream/registry.go:558-570 | Registering a retired set cannot underflow the active gauge |
| `LifetimeInvariant.TryAcquireInv` | internal/upstream/plan.go:333-346 | An acquire races safely with retirement: it adds a lease to a live set or finds it dead |
| `LifetimeInvariant.RecheckInv` | internal/runtime/manager.go:168-184 | The bail-out after a refused acquire is unreachable: the refused set is no longer the published one, so acquiring fails only when nothing is published |
| `LifetimeInvariant.FinishReleaseInv` | internal/upstream/plan.go:350-367 | Dropping a lease cannot underflow |
| `LifetimeInvariant.OpenTunnelInv` | internal/upstream/plan.go:229-243 | Opening a tunnel under a lease, with a transport captured when the plan was built, is never refused |
| `LifetimeInvariant.FinishTunnelReleaseInv` | internal/upstream/plan.go:247-274 | Releasing a tunnel lease cannot underflow |
| `LifetimeInvariant.ReapInv` | internal/upstream/reaper.go:37-88 | Finalizing a drained set gives back all it was built with and keeps the invariant |
| `LifetimeInvariant.StepInv` | internal/runtime/manager.go:65-238 | Every step of every goroutine keeps the invariant (a holder owns what it was created with until it ends, and nothing afterwards) and meets no panic, bail-out or refusal |
| `LifetimeRuns.ReferencesConserved` | internal/upstream/registry.go:146-378 | In every run each entry counts exactly the references of open candidates, unfinalized sets and unreleased tunnel leases; no panic is reachable; all maps are empty exactly when none of those was created with a reference |
| `LifetimeRuns.QuiescentIsEmpty` | internal/upstream/registry.go:457-491 | With no active or retired set, no tunnel lease and no apply under way, all five maps are empty |
| `LifetimeRuns.PrepareBuilds` | internal/upstream/registry.go:146-221 | A successful preparation adds one candidate that owns one counted reference per key, in order |
| `LifetimeRuns.FailedPrepareRestores` | internal/upstream/registry.go:176-210 | In every reachable state a failed preparation leaves entries, owners and the active snapshot as they were |
| `LifetimeRuns.RollbackGivesBack` | internal/upstream/registry.go:546-556 | In every reachable state a rollback leaves counted exactly what was counted less what the candidate was created with |
| `LifetimeRuns.LeaseKeepsRuntimes` | internal/upstream/plan.go:333-378 | From when a lease is taken until it is finished, over any part of a run, its set owns exactly what it was built with and every key is still mapped to the same runtime |
| `LifetimeRuns.TunnelOpens` | internal/upstream/plan.go:229-243 | In every reachable state a tunnel can be opened with any transport of a leased set and adds one counted reference to that runtime |
| `LifetimeRuns.TunnelKeepsTransport` | internal/upstream/plan.go:229-274 | From opening until release, over any part of a run, a tunnel lease owns the reference it was opened with and the table maps its key to that runtime |
| `LifetimeRuns.DeadForever` | internal/upstream/plan.go:333-378 | No step changes what a holder was created with, raises a count that has reached zero, or reopens a finalized set |
| `LifetimeRuns.ZeroIsFinal` | internal/upstream/plan.go:333-378 | Over whole runs: a count reaches zero at most once and stays there |
| `LifetimeRuns.FinalizedOnlyWhenDrained` | internal/upstream/reaper.go:37-88 | Finalization happens only in the reaper, after retirement and registration, with no unfinished lease |
| `LifetimeRuns.FinalizedOnce` | internal/upstream/reaper.go:37-88 | At most one step of a run finalizes a set, and it stays finalized |
| `LifetimeRuns.RevisionsIncrease` | internal/runtime/manager.go:65-164 | Published revisions strictly increase, the active one is the last, and nothing is published after close |
| `LifetimeRuns.RetiredWithinLimit` | internal/upstream/registry.go:499-512 | The retired list never exceeds its maximum, plus one after close |
| `LifetimeRuns.ActiveChangesOnlyByPublication` | internal/runtime/manager.go:65-220 | In every run the active snapshot changes only when one above every earlier revision is swapped in or the manager closes, so every rejected apply preserves it |
| `LifetimeProgress.ApplyAccepted` | internal/runtime/manager.go:65-89 | With no apply under way a revision is taken on exactly when the manager is open and nothing is active or the active one is older; otherwise nothing changes |
| `LifetimeProgress.PrepareAdmitted` | internal/upstream/registry.go:493-512 | A preparation is turned away exactly when the registry is closed or the retired list is full |
| `LifetimeProgress.ApplyPublishes` | internal/runtime/manager.go:65-164 | An accepted apply with room ends with its revision active on a new set that owns one reference per key and counts one, and the previous set about to be retired |
| `LifetimeProgress.FailedBuildUndone` | internal/runtime/manager.go:113-140 | A failed build rolls its candidate back and leaves everything else |
| `LifetimeProgress.RetireCompletes` | internal/upstream/plan.go:372-378 | Retiring a set moves it from the active gauge to the end of the retired list and leaves it counted by its unfinished leases alone |
| `LifetimeProgress.CloseMeaning` | internal/runtime/manager.go:205-220 | Close takes the active snapshot away and goes on to retire its set |
| `LifetimeProgress.ApplyNeverStuck` | internal/runtime/manager.go:65-164 | In every reachable state the next step of a running apply is open, meets no fault and brings it nearer its end, and nobody else moves it |
| `LifetimeProgress.LeaseGranted` | internal/runtime/manager.go:168-185 | A request that finds a snapshot and tries at once gets a lease on its set |
| `LifetimeProgress.NothingToLoad` | internal/runtime/manager.go:172-176 | Without a snapshot a request gets nothing |
| `LifetimeProgress.LateTryMeaning` | internal/upstream/plan.go:333-347 | A later try succeeds exactly while the owner reference or another unfinished lease holds the set |
| `LifetimeProgress.LeaseReleased` | internal/upstream/plan.go:350-370 | A release takes one count off, and a second one does nothing |
| `LifetimeProgress.ReapMeaning` | internal/upstream/reaper.go:37-88 | The reaper finalizes a retired set exactly when its owner has let go and all its leases are finished, and then its references are given back |
| `LifetimeProgress.DroppedIsListed` | internal/upstream/reaper.go:37-88 | A dropped set that is not finalized is on the list the reaper looks at |
| `LifetimeProgress.TunnelReleased` | internal/upstream/plan.go:247-276 | Releasing a tunnel lease ends it and gives its reference back |
| `TunnelRegistry.StepInv` | internal/tunnel/registry.go:66-231 | Every mutex section and callback keeps the ownership invariant |
| `TunnelRegistry.FinishedExactlyOnce` | internal/tunnel/registry.go:66-231 | In every run the wait count is the number of unfinished registrations, never underflows, and each registration is released exactly once, by its one finish |
| `TunnelRegistry.NotificationsPair` | internal/tunnel/registry.go:172-231 | Opened and closed notifications pair up, in order, at most once each |
| `TunnelRegistry.AdmissionStaysClosed` | internal/tunnel/registry.go:66-102 | No registration succeeds after admission closes, so a wait count of zero is final |
| `TunnelRegistry.DrainedMeansReleased` | internal/tunnel/registry.go:107-149 | Once admission is closed and the wait count is zero, every registration has been released exactly once, with paired notifications, and none is registered for the rest of the run |
| `TunnelRegistry.MarkedUntilForced` | internal/tunnel/registry.go:140-146 | A tunnel the pass has reached stays due until it has been force-closed |
| `TunnelRegistry.NothingPendingAfterPass` | internal/tunnel/registry.go:107-149 | After the pass nothing is ever pending again, and everything that was registered is force-closed or due to be |
| `TunnelRegistry.RegisterMeaning` | internal/tunnel/registry.go:66-92 | A registration is added exactly while admission is open |
| `TunnelRegistry.PendingEnds` | internal/tunnel/registry.go:172-215 | Only a pending registration can be activated or rolled back |
| `TunnelRegistry.ActivatedLife` | internal/tunnel/registry.go:172-231 | A pending registration that is activated and runs is opened, closed and released once each |
| `TunnelRegistry.RolledBackLife` | internal/tunnel/registry.go:201-231 | One that is rolled back is released once and never opened |
| `TunnelRegistry.DrainedLife` | internal/tunnel/registry.go:107-149 | What the deadline pass has reached, pending or running, can be force-closed and released |
| `WebSocketCommit.Controller.Cancel` | internal/proxy/websocket_commit.go:40-58 | Cancelling in place is the pure transition |
| `WebSocketCommit.Controller.Pend` | internal/proxy/websocket_commit.go:60-81 | Pending in place is the pure transition; the result says whether it pended or the connection refused |
| `WebSocketCommit.Controller.Finish` | internal/proxy/websocket_commit.go:83-96 | Finishing in place is the pure transition; the result says whether it committed |
| `WebSocketCommit.CommitIffFlushFirst` | internal/proxy/websocket_commit.go:40-96 | For every interleaving the response is committed exactly when the flush precedes the total deadline and the first recorded cancellation |
| `WebSocketCommit.CommittedIsUntouched` | internal/proxy/websocket_commit.go:40-96 | A committing run never cancels the tunnel through the controller; later cancellations change nothing and the write deadline stays cleared |
| `WebSocketCommit.EarlyCancelStops` | internal/proxy/websocket_commit.go:67-81 | A cancellation recorded before the connection is pending stops the handler and has cancelled the tunnel |
| `WebSocketCommit.PendMeaning` | internal/proxy/websocket_commit.go:67-81 | The handler goes on to flush exactly when nothing is cancelled or ended, the deadline lies ahead and the connection takes it |
| `WebSocketCommit.FlushDecides` | internal/proxy/websocket_commit.go:83-96 | A finished flush decides: committed exactly when it precedes the deadline and the first cancellation |
| `WebSocketCommit.CancelMeaning` | internal/proxy/websocket_commit.go:40-58 | A cancellation is recorded and ends either the tunnel or, by its deadline, the flush |
| `WebSocketCommit.FlushIsBounded` | internal/proxy/websocket_commit.go:40-58 | While flushing, the write deadline is the total deadline or, once cancelled, the earlier of that and the last cancellation |

## Left out

- Configuration documents, YAML, validation, normalization of hosts and URLs, percent-decoding, and compiling predicates and host patterns from text: the model starts from a normalized host, a decoded query and compiled patterns.
- The JSON form of a route signature: a signature is the record of its parts, with lists as sets and predicates as a multiset.
- The trie is a value that is rebuilt on insertion and finalization, not nodes changed in place; what is not captured is sharing of nodes, which the code does not have.
- The five maps of the registry are one map with tagged keys, and the statistics, observer callbacks and generation deltas around them are not modelled.
- TLS material, transports, dialers and probers: a transport runtime is an identity and a probe returns anything.
- xxHash and SHA-256 are uninterpreted; nothing is said about collisions or the spread of points.
- Wall-clock time, timers, jitter and backoff: times are integers given by the environment.
- Telemetry, lifecycle observers, logging, listeners, plugins, header rewriting, WebSocket handshake checks and certificate selection: they only observe or reshape what the modelled protocols decide.
- Strings are sequences of Unicode characters where the program has bytes: positions, captured spans and the pattern length that precedence compares count characters, which differs from the program for patterns and paths outside ASCII. The order on strings is the same for valid UTF-8.
- Byte copying in tunnel sessions: a session is something that ends.
- Benchmark tools, test upstream and commands.
- Fairness of scheduling: the theorems say what every run keeps, when a step is open and what it leads to, not that goroutines eventually take their steps.
- The sorting library and the heap library: `RoutePredicate.SortedValues`, `Wrr.PopLeast` and the probe heap are specified by their outcome, and `Ordering.Sort` stands for stable sorting.
- Plan.SelectNext: the health of the endpoints is fixed during one selection, while the code reads it anew at every candidate.
- RoutePredicate.HeaderValues: header names are compared by ASCII case and the two other characters that fold to an ASCII letter; two names that are both outside ASCII are compared as they are.
- The nil receivers and nil dependencies that Go methods tolerate, and the missing-selection-state error of the round-robin compiler.
- HashKey.Digest.Extract: cookies are already parsed, and the remote address is already canonical.
- AttemptLoop.ExecuteAttempts: crediting the primary request and activating health before the first selection are not logged, and cloning a request and classifying an answer are given by the environment.
- ProbeScheduler.ProbeTokenConserved: the observation a probe hands to its tracker, and the worker and scheduler exits after the stop, are not modelled; the number of workers is unbounded.
- LifetimeInvariant.StepInv: building the snapshot from a candidate is one step that succeeds or fails, and the wait loop of the registry's close is represented by its condition, in `LifetimeRuns.QuiescentIsEmpty`.
- TunnelRegistry.StepInv: the force-close that the request handler itself performs before a rollback is not modelled.
- RetryBudget.AmplificationBound: policy fields are 16-bit, as in the configuration model, so products do not overflow the 64-bit credits.
