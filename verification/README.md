# Verified model of the registry token server

The server answers one question for a container registry: which actions may this user perform on these
repositories? It parses the requested scopes, asks a chain of authenticators who the user is, asks a chain of
authorizers (an access list with wildcards and label placeholders, then Kubernetes rules behind two concurrent
caches) what is allowed, and signs a token that lists it. It also watches its configuration file and restarts itself.

The model follows the program's own components.

| module | what it models |
|---|---|
| `GoStrings`, `StringSet` | string order, `sort.Strings` in place, `Split`/`Join`, and the set intersection of `authz/set.go` |
| `Cartesian` | the cartesian product the recursive generator of `authz/acl.go` has to enumerate |
| `Producer` | the generator as goroutine, receiver and cancellation, one atomic step at a time |
| `Generator` | the generator's code over Go slices, arrays plus a length, shared spare capacity and all; its executions are runs of `Producer` |
| `Substitution`, `Glob` | the replacer behind placeholders, `path.Match` and `regexp.QuoteMeta` |
| `Acl` | matching one access list entry, with label permutations |
| `Users`, `Rules`, `KubernetesAuthz` | users, Kubernetes rules and their filter, and the authorizer that uses them |
| `SingleFlight` | the protocol of both caches: lookup, join or lead, inner return, store, deregister, wake, with an advancing clock and arbitrary eviction |
| `RulesCache`, `NamespaceCache`, `CacheKey` | the two caches as instances of it, and the hashed cache key |
| `CachedCluster` | the authorizer with the two caches between it and the cluster |
| `Scope`, `Pipeline`, `Server` | scope parsing; the /auth request as a function; the /auth request as code whose action slices are shared and sorted in place |
| `Compact` | the compact token text |
| `Reload` | the configuration reload loop and the file it watches |

Code that changes state is written as methods over classes, arrays and loops, and tied by its contract to a
function of the old state; what the server promises is then proved of those functions, over every input, every run
or every reachable state.

These results say where the code falls short of a promise, with the exact condition under which it holds:

* `Acl.AccountPatternMeansEquality`: the pattern `${account}` means "equal to the account" if and only if the account
  is not itself longer than two characters with a slash at both ends (then it is used as a regular expression).
* `Acl.LabelOrderIsIrrelevantIff`: the iteration order of the label map can never show in a verdict if and only if no
  label name followed by `}` begins another; `Acl.BracesMakeTheOrderMatter` is the smallest case where it does.
* `RulesCache.CachedRulesAreTheUncachedRulesIff`: the cached fetcher cannot be told from the uncached one if and only if
  requests with one namespace, name and UID are answered alike whatever their bearer token, which the key leaves out.
* `SingleFlight.SecondCallIff`: while an entry is live, another inner call for its key can begin if and only if some
  goroutine had already missed it; so one call per TTL is not promised.
* `CacheKey.SamePreImageIff`: two triples are hashed from one text if and only if they differ at most in which bytes
  their ill-formed bytes are; `CacheKey.IllFormedStringsShareAKey` has such pairs for every ill-formed namespace.
* `Reload.NoUpdateIsLostIff`: no update is lost if and only if the file, when it is there to be watched at first, still
  holds what was loaded; `Reload.EditIsSeenIff`, `Reload.ReplacementIsSeenIff`: a write, or a replaced file, is noticed
  if and only if it was reported as an operation the loop acts on, and as nothing besides.
* `Glob.MatchIffFill`: a glob matches only what its stars, question marks and classes can fill, and all of it unless a
  class takes in the slash; `Glob.SlashClassLosesAName` has a name such a class loses.
* `Pipeline.EmptyEntryShutsOutTheCluster`: a matching entry without actions is decisive. `docs/auth-methods.md:220-230`
  says Kubernetes rules may still grant something then; the code (`auth_server/server/server.go:268-277`) does not
  ask them, and the model follows the code.

## Model

| member | source | states |
|---|---|---|
| Cartesian.ProductIsCartesian | auth_server/authz/acl.go:218-238 | the tuples emitted are as many as the set sizes multiply to, and the one at each lexicographic rank is the choice with that rank |
| Cartesian.RankIsLexicographic | auth_server/authz/acl.go:218-238 | ranks order choices by the first position in which they differ |
| Cartesian.RankInRange | auth_server/authz/acl.go:218-238 | every choice has a rank below the product of the sizes |
| Cartesian.Unrank | auth_server/authz/acl.go:218-238 | every place below the product of the sizes is the rank of some choice |
| Cartesian.ProductMembers | auth_server/authz/acl.go:218-238 | a tuple is emitted iff it takes one member of every set |
| Generator.Append | auth_server/authz/acl.go:235 | `append` extends the contents and keeps the old slice's, writing into the shared array when it has room and moving to a fresh one when it has not |
| Generator.CopyAppend | auth_server/authz/acl.go:224 | the emitted copy is always in an array of its own |
| Generator.Channel.SendOrDone | auth_server/authz/acl.go:221-225 | a leaf hands over the tuple while somebody receives, or, only if the context is done, drops it; with nobody receiving only a cancellation ends the wait, and no cancellation or leaving comes from the goroutine itself |
| Generator.SendLeaves | auth_server/authz/acl.go:219-228 | the last set's tuples are handed over in order, each in a new array, up to a cancellation, by steps of the machine |
| Generator.SendLeaf | auth_server/authz/acl.go:221-225 | one select: the machine's send of a fresh copy, or none because the context is done |
| Generator.Iterate | auth_server/authz/acl.go:218-238 | what was handed over is a prefix of the specified tuples, all of them if never cancelled, still reads so after sibling branches have overwritten the shared buffer, and the call was a run of the step machine from its frame to its return |
| Generator.Descend | auth_server/authz/acl.go:230-237 | one recursive call adds exactly its member's branch, leaves the prefix and every earlier tuple as they were, and is the machine's call and return |
| Generator.IterWithContext | auth_server/authz/acl.go:201-216 | whatever the receiver and the owner of the context do meanwhile, the goroutine's execution is a run of the step machine to its halt, and every slice received still reads as the tuple received there; the whole product if nobody is to cancel; the channel ends closed |
| Producer.RunsAreSafe | auth_server/authz/acl.go:201-238 | in every interleaving the received tuples are a prefix of the product, all of it once the producer has halted uncancelled; the channel is closed exactly once, at the halt, and no step of the producer follows |
| Producer.ProducerCanMove | auth_server/authz/acl.go:218-238 | the producer can step iff it has not halted and is not a leaf whose receiver left without cancelling |
| Producer.ProducerTerminates | auth_server/authz/acl.go:218-238 | in no run does the goroutine take more steps than a bound computed from the sizes of the sets |
| Producer.HaltsAfterCancellation | auth_server/authz/acl.go:221-237 | after the receiver cancelled and left, each step unwinds one activation or closes the channel |
| Producer.HaltsWithinDepth | auth_server/authz/acl.go:183-238 | once the receiver has cancelled and left, any run has at most recursion depth plus one steps, and stops only when halted |
| Producer.EarlyExitLosesNothing | auth_server/authz/acl.go:186-195 | a consumer that leaves only on a match finds a matching tuple iff the whole product has one |
| Substitution.ReadingIsUnique | auth_server/authz/acl.go:150 | a text has exactly one left-to-right, first-pair-wins reading under given old strings, and it spells the text |
| Substitution.ReplaceRendersTheReading | auth_server/authz/acl.go:150 | substitution is that reading with the new strings in its holes |
| Substitution.SubstitutionIsSinglePass | auth_server/authz/acl.go:150 | whatever is inserted, the text is read alike: inserted values are never read again |
| Substitution.OrderIsIrrelevant | auth_server/authz/acl.go:150 | pairs none of whose old strings begins another may come in any order |
| Substitution.ReplaceWholeKey | auth_server/authz/acl.go:150 | an old string at the front of a text becomes its new string, and the rest is read on its own |
| Glob.ParseQuoted | auth_server/authz/acl.go:157 | the glob reader takes every character of a quoted string literally |
| Glob.QuotedMatchesOnlyItself | auth_server/authz/acl.go:157 | a quoted string used as a glob matches itself and nothing else |
| Glob.PlainMatchesOnlyItself | auth_server/authz/acl.go:157 | a glob without metacharacters matches itself and nothing else |
| Glob.QuotedDirectoryMatchesItsChildren | auth_server/authz/acl.go:157 | a quoted string, a slash and a star match exactly the names one level below |
| Glob.MatchFills | auth_server/authz/acl.go:157 | whatever matches can be filled: each star by some beginning without a slash, each question mark by one character other than a slash, each class and character by one character of theirs, in any division |
| Glob.FillMatches | auth_server/authz/acl.go:157 | unless a class takes in the slash, whatever can be filled matches: trying first places only loses nothing |
| Glob.MatchIffFill | auth_server/authz/acl.go:157 | the same of patterns as texts |
| Glob.SlashClassLosesAName | auth_server/authz/acl.go:157 | a class that takes in the slash does lose a name: `*[^a]*z` and `x/z` |
| Glob.ShowReadsBack | auth_server/authz/acl.go:157 | every list of stars, question marks, classes and characters is read back from its text, escapes where they have to be |
| Glob.MalformedPatterns | auth_server/authz/acl.go:157-159 | texts that are no patterns and match nothing |
| Glob.MalformedRanges | auth_server/authz/acl.go:157-159 | nor are unfinished classes and ranges |
| Acl.BuildLabelSet | auth_server/authz/acl.go:175-178 | one pair per value of the label, in order |
| Acl.BuildLabelSets | auth_server/authz/acl.go:169-181 | one set for each label whose placeholder the pattern has somewhere in it |
| Acl.ContainsIff | auth_server/authz/acl.go:174 | a text contains another iff it is something, that, and something more |
| Acl.TryPermutations | auth_server/authz/acl.go:182-196 | the loop over the channel finds a match iff the product has one; goroutine and loop together are a run of the step machine that ends cancelled and with the receiver gone |
| Acl.MatchStringWithLabelPermutations | auth_server/authz/acl.go:162-199 | true iff the pattern matches as it is or with some tuple of the product of the label sets, as received from the goroutine |
| Acl.EveryRunGivesTheVerdict | auth_server/authz/acl.go:182-196 | in every interleaving, a loop that left only on a match or saw the channel closed has seen a match iff the verdict is positive |
| Acl.PermutationsAreChoices | auth_server/authz/acl.go:162-199 | that is: iff some choice of one value for each label whose placeholder the pattern has somewhere in it makes it match, so an empty value list contributes none |
| Acl.PlaceholderBeginsIff | auth_server/authz/acl.go:327 | one placeholder begins another iff the names are equal or one name and a closing brace begin the other |
| Acl.LabelOrderIsIrrelevantIff | auth_server/authz/acl.go:170-191 | for given label names, under any engines and beside pairs that are no label placeholders: the verdict is the same in every order of the label map, for all values, patterns and subjects, iff no name followed by a closing brace begins another |
| Acl.ClashFreeOrderIsIrrelevant | auth_server/authz/acl.go:170-191 | without such a pair of names the order never shows, whatever other pairs come first |
| Acl.ClashMakesTheOrderMatter | auth_server/authz/acl.go:170-191 | for every such pair of names, whatever the other labels and engines, a pattern and values for which two orders give different verdicts |
| Acl.LabelOrderIsIrrelevant | auth_server/authz/acl.go:170-181 | in particular it never shows when no label name holds a closing brace |
| Acl.PlaceholdersDiffer | auth_server/authz/acl.go:327 | placeholders of brace-free label names never begin one another |
| Acl.BracesMakeTheOrderMatter | auth_server/authz/acl.go:170-191 | the smallest such case, labels `a` and `a}b` |
| Acl.LabelValues | auth_server/authz/acl.go:256 | the values found are those of the label with that name, none if there is none |
| Acl.MatchLabels | auth_server/authz/acl.go:254-269 | true iff every label condition is matched by some value of that label |
| Acl.Matches | auth_server/authz/acl.go:282-335 | true iff account, type, name, service, address and labels all match under the request's placeholders |
| Acl.QuotedPatternIsSlashed | auth_server/authz/acl.go:154 | a quoted string is taken for a regular expression iff the string itself would be, and then it is the quoted inside |
| Acl.AccountPatternBecomesTheAccount | auth_server/authz/acl.go:146-160 | `${account}` becomes the quoted account, whatever other placeholders there are |
| Acl.PlaceholderBecomesItsField | auth_server/authz/acl.go:283-288 | each of `${account}`, `${type}`, `${name}`, `${service}` becomes the quoted field of that name |
| Acl.FieldPatternMeansEquality | auth_server/authz/acl.go:146-199 | as an entry's condition, each of the four matches exactly its field for every name iff the field is not longer than two with a slash at both ends |
| Acl.AccountPatternMeansEquality | auth_server/authz/acl.go:146-199 | as an entry's condition, `${account}` matches exactly the account for every name iff the account is not longer than two with a slash at both ends |
| Acl.WithoutColonNoLabels | auth_server/authz/acl.go:170-182 | a pattern without a colon mentions no label, so nothing is permuted |
| Acl.AccountDirectoryMatchesItsChildren | auth_server/authz/acl.go:146-199 | as an entry's condition, `${account}/*` matches exactly the repositories one level below the account |
| Acl.SlashesMakeARegex | auth_server/authz/acl.go:154-155 | between slashes, and not empty, a pattern without placeholders is a regular expression |
| Acl.LiteralConditionsMeanEquality | auth_server/authz/acl.go:282-335 | an entry with nothing special in its patterns applies exactly to requests with these fields, each against its own, an address in the network, and for each label condition the value among that label's |
| GoStrings.SortSorts | auth_server/authz/set.go:24 | the sort arranges the same strings in order |
| GoStrings.SortedUnique | auth_server/authz/set.go:24 | no other arrangement is in order |
| GoStrings.LessEqIff | auth_server/authz/set.go:24 | the order is a dictionary's |
| GoStrings.SortIsIdentityOnSorted | auth_server/server/server.go:341 | sorting what is sorted changes nothing |
| GoStrings.SortStrings | auth_server/server/server.go:238 | the array itself ends up sorted |
| GoStrings.JoinSplit | auth_server/server/server.go:210-211 | joining what was split gives the text back, and no part holds the separator |
| GoStrings.SplitJoin | auth_server/server/server.go:210-211 | splitting what was joined gives the parts back when none holds the separator |
| StringSet.MakeSet | auth_server/authz/set.go:9-15 | the set of the listed strings |
| StringSet.StringSetIntersection | auth_server/authz/set.go:17-26 | a new slice, strictly increasing, of exactly the strings in both lists, in whatever order the set is iterated |
| StringSet.IntersectionIsUnique | auth_server/authz/set.go:17-26 | only one such list exists, so order and repetition of the inputs, and which is first, cannot show |
| Rules.FilterRules | auth_server/k8s/config.go:147-175 | the loop with its two flags keeps exactly the relevant rules, in order |
| Rules.FilteredMembers | auth_server/k8s/config.go:147-175 | a rule survives the filter iff it lists the configured group and resource, or a star |
| Rules.RelevantIff | auth_server/k8s/config.go:147-175 | a rule lists the configured group and resource iff it lists a star or the name, letter by letter whatever the case |
| Rules.FilteredCount | auth_server/k8s/config.go:147-175 | a rule that is kept is kept as often as it occurs |
| Rules.FilteredConcat | auth_server/k8s/config.go:147-175 | filtering works rule by rule and keeps their order |
| Rules.FilteringTwiceIsFilteringOnce | auth_server/k8s/config.go:147-175 | the filter is idempotent |
| Rules.ActionAllowedIff | auth_server/k8s/rules.go:33-68 | allowed iff the path is not empty and some rule has the verb or a star and no names or a matching one |
| Rules.FilterThenCheck | auth_server/k8s/rules_fetcher.go:166-169 | checking filtered rules is checking for a relevant rule that gives the verb on the lowercased path |
| Rules.OrderAndCaseAreIrrelevant | auth_server/k8s/rules.go:33-46 | permuting the rules or changing the letter case of the path changes no verdict |
| Rules.NamespaceCheckIsForListedActions | auth_server/k8s/config.go:118-130 | the namespace is checked iff one of the requested actions is configured for it |
| CacheKey.ComputeHash | auth_server/k8s/hash.go:26-46 | feeding the values one by one yields the digest of their concatenated JSON encodings, and the empty key for none |
| CacheKey.KnownEscapes | auth_server/k8s/hash.go:34 | the two-character escapes |
| CacheKey.KnownHexEscapes | auth_server/k8s/hash.go:34 | the escapes of what is special to HTML |
| CacheKey.KnownSeparatorEscapes | auth_server/k8s/hash.go:34 | the escapes of the line separators, and of a byte that belongs to no character |
| CacheKey.WrittenTextIsSafe | auth_server/k8s/hash.go:34 | the text of a string holds no control character, nothing special to HTML and no line separator |
| CacheKey.PreImageReadsBack | auth_server/k8s/hash.go:31-40 | the hashed text decodes to exactly the values, up to which bytes the ill-formed ones are |
| CacheKey.SamePreImageIff | auth_server/k8s/hash.go:31-40 | two value lists are hashed from one text iff they agree up to that |
| CacheKey.PreImageIsInjective | auth_server/k8s/hash.go:31-40 | for valid UTF-8 the text determines the values, their number and where each ends |
| CacheKey.IllFormedStringsShareAKey | auth_server/k8s/hash.go:31-40 | two triples that differ only in one ill-formed byte of the namespace have one key under every hash |
| CacheKey.KeysTellTriplesApart | auth_server/k8s/rules_fetcher.go:200 | equal keys mean equal namespace, name and UID, or a collision of the hash on their two texts |
| SingleFlight.InvAlways | auth_server/k8s/rules_fetcher.go:205-235 | in every reachable state each entry and each answer is an outcome of a call for its key, each registered call is open and led by one goroutine inside it |
| SingleFlight.EveryAnswerIsAccountedFor | auth_server/k8s/rules_fetcher.go:195-236 | in every run each response has a step of the very request it answers: a lookup that found it in the cache no longer than its TTL after it was stored, or a moment inside `Do` while the call it is the outcome of was registered for the key |
| SingleFlight.AgreesWithUncached | auth_server/k8s/rules_fetcher.go:205-235 | if the inner call answers admitted requests with one key alike, every response in every run is its answer to the caller's own request |
| SingleFlight.AgreesIff | auth_server/k8s/rules_fetcher.go:205-235 | and only then: otherwise some run gives a caller the answer to another's request |
| SingleFlight.RefusedUnadmitted | auth_server/k8s/rules_fetcher.go:195-203 | in every run a request is sent away before the lookup iff it is not admitted |
| SingleFlight.OneInnerCallPerKey | auth_server/k8s/rules_fetcher.go:194-214 | in no reachable state are two inner calls for one key in flight |
| SingleFlight.SecondCallIff | auth_server/k8s/rules_fetcher.go:205-229 | from any state with a live entry and no call in flight for its key, a continuation in which the entry stands and is live can begin another call for it iff some goroutine has already missed it |
| SingleFlight.SecondCallWithinTTL | auth_server/k8s/rules_fetcher.go:214-229 | a run from the start that gets there: the second call's outcome replaces the first one's while that is live |
| SingleFlight.StoreDiscipline | auth_server/k8s/rules_fetcher.go:214-229 | whatever is ever cached is an outcome the inner call gave for that key, of a kind whose TTL is positive |
| SingleFlight.StoredOutcomeAnswers | auth_server/k8s/rules_fetcher.go:205-229 | in every run an outcome once stored, neither evicted nor replaced since, answers every lookup of its key until its TTL is over, and none later |
| SingleFlight.NobodyIsStuck | auth_server/k8s/rules_fetcher.go:205-235 | in every reachable state whoever has asked can still be answered, without anybody asking anew, if the inner call answers what it is asked |
| SingleFlight.FlightCache.Get | auth_server/k8s/rules_fetcher.go:205 | a hit iff there is an entry and its storing time plus TTL is not past, with its value; otherwise nothing is left under the key |
| SingleFlight.FlightCache.Add | auth_server/k8s/rules_fetcher.go:217-226 | the outcome is stored iff its TTL is positive |
| SingleFlight.FlightCache.Enter | auth_server/k8s/rules_fetcher.go:214 | `Do` joins the registered call of the key or registers a new one |
| SingleFlight.FlightCache.Close | auth_server/k8s/rules_fetcher.go:229 | the leader's return deregisters its key and no other |
| SingleFlight.FlightCache.Serve | auth_server/k8s/rules_fetcher.go:205-235 | one whole request, joining or leading: the answer, the whole new cache, and the group as it was |
| SingleFlight.ServeIsARun | auth_server/k8s/rules_fetcher.go:205-235 | the protocol's steps, taken in a row by one goroutine, end in the same answer and cache, or waiting for the call in flight |
| SingleFlight.WakesWithTheOutcome | auth_server/k8s/rules_fetcher.go:214-235 | a goroutine that joined a call goes on exactly when the call is closed, with its outcome, and changes nothing else |
| RulesCache.CachedRulesAreTheUncachedRules | auth_server/k8s/rules_fetcher.go:195-236 | in every concurrent run without a hash collision among the requests asked, every caller is told what it would be told without the cache, key error included, if requests with one namespace, name and UID are answered alike |
| RulesCache.CachedRulesAreTheUncachedRulesIff | auth_server/k8s/rules_fetcher.go:195-236 | and only then: if the bearer token makes a difference, some run gives a caller the answer meant for another |
| RulesCache.SameKeyIffSameIdentity | auth_server/k8s/rules_fetcher.go:200 | without a collision two requests share a key iff they agree on namespace, name and UID |
| RulesCache.CachedRulesDiscipline | auth_server/k8s/rules_fetcher.go:214-229 | no state caches an initialisation error, a success when successTTL is not positive, or a failure when failureTTL is not; entries come from requests with that key |
| RulesCache.StoredOutcomeAnswersForItsTTL | auth_server/k8s/rules_fetcher.go:205-229 | rules answer every lookup of their key for successTTL after they are stored, errors other than initialisation errors for failureTTL, unless evicted or replaced; later lookups miss |
| RulesCache.CachedRulesFetcher.constructor | auth_server/k8s/rules_fetcher.go:184-191 | a new fetcher has an empty cache and no call in flight |
| RulesCache.CachedRulesFetcher.GetRules | auth_server/k8s/rules_fetcher.go:195-236 | the key error iff name and UID are both empty, leaving the cache alone; the entry while its TTL lasts; the outcome of the call joined; or the inner answer, kept for successTTL or failureTTL, and not at all if that is not positive or it is an initialisation error |
| NamespaceCache.CachedCheckIsTheUncachedCheck | auth_server/k8s/namespace_checker.go:117-147 | in every concurrent run every caller is told what an uncached check of its namespace says, error or not, the empty namespace included |
| NamespaceCache.CachedCheckDiscipline | auth_server/k8s/namespace_checker.go:118-143 | the empty namespace is never cached, nothing is whose TTL is not positive, and entries are outcomes of checking that namespace |
| NamespaceCache.StoredFindingAnswersForItsTTL | auth_server/k8s/namespace_checker.go:122-140 | a finding answers every lookup of its namespace for successTTL after it is stored, an error for failureTTL, unless evicted or replaced; later lookups miss |
| NamespaceCache.CachedNamespaceChecker.constructor | auth_server/k8s/namespace_checker.go:105-113 | a new checker has an empty cache and no call in flight |
| NamespaceCache.CachedNamespaceChecker.Exists | auth_server/k8s/namespace_checker.go:117-147 | the empty namespace does not exist and touches nothing; otherwise the entry while its TTL lasts, the outcome of the check joined, or the inner answer, kept for the TTL of its kind |
| KubernetesAuthz.SplitAtTheFirstSlash | auth_server/k8s/helpers.go:27-36 | the namespace is what comes before the first slash, the path what comes after, empty without one |
| KubernetesAuthz.SelectAllowed | auth_server/authz/kubernetes_authz.go:140-151 | the loop keeps, in order, the actions with a known verb that the rules allow |
| KubernetesAuthz.Authorize | auth_server/authz/kubernetes_authz.go:100-158 | the whole decision, every early exit and error included |
| KubernetesAuthz.AllowedMembers | auth_server/authz/kubernetes_authz.go:140-151 | kept iff requested and allowed |
| KubernetesAuthz.AllowedStaysSorted | auth_server/authz/kubernetes_authz.go:140-151 | a sorted request yields a sorted grant |
| KubernetesAuthz.GrantedIff | auth_server/authz/kubernetes_authz.go:100-158 | an action is granted iff requested, by the configured user with usable data, on a path below a namespace that exists if that matters, and a relevant rule gives its verb, get for pull, create for push, delete for delete, on the path |
| KubernetesAuthz.GrantedAsRequested | auth_server/authz/kubernetes_authz.go:140-157 | a grant is never empty, and grants an action as often as it was requested |
| KubernetesAuthz.FailsIff | auth_server/authz/kubernetes_authz.go:120-137 | it fails iff such a request raises a question the cluster does not answer, and with the error of the first such question |
| CachedCluster.CachedDecisionIsTheUncachedOne | auth_server/authz/kubernetes_authz.go:100-158 | on answers from any concurrent runs of the two caches the authorizer decides as it would on the cluster's own |
| Scope.ParseTypeFindsTheFirstRun | auth_server/server/server.go:145-159 | a type is found iff the field has a lowercase letter or digit, and it is the first maximal run of them |
| Scope.ParsePieceIff | auth_server/server/server.go:211-237 | accepted iff three or four colon fields and such a character in the first; which error otherwise; the name is the text between first and last colon, the actions the sorted rest |
| Scope.ParsePiecesIff | auth_server/server/server.go:209-241 | a request parses iff every piece does, and then piece by piece; the first refused piece gives the error |
| Scope.ParsePiecesConcat | auth_server/server/server.go:209-241 | parsing goes on where it stopped |
| Scope.ParseRequestScopes | auth_server/server/server.go:207-242 | the two nested loops yield the scopes of all pieces in order, or the first error |
| Scope.RepeatedParametersParseLikeJoinedOnes | auth_server/server/server.go:208-210 | repeated scope parameters and one space-joined parameter parse alike, error included, if the first is not empty |
| Scope.ScopesAreBetweenSpaces | auth_server/server/server.go:208-210 | with an empty first parameter there are no scopes whatever the others hold; otherwise they are the pieces between spaces of all parameters |
| Scope.PrintedPieceParses | auth_server/server/server.go:211-238 | a rendered scope parses to itself with sorted actions and empty class |
| Scope.ParseUndoesPrint | auth_server/server/server.go:207-242 | so does any list of them |
| Pipeline.NoMatchIff | auth_server/authz/acl.go:115-131 | the access list does not match iff no entry does, and it never fails |
| Pipeline.FirstMatchDecides | auth_server/authz/acl.go:115-131 | the first matching entry alone gives the verdict: what was asked, as it was asked, for ["*"], and otherwise what both hold, once and in order |
| Pipeline.LiteralEntryMatches | auth_server/authz/acl.go:282-335 | an entry with nothing special in its patterns applies exactly to requests with these fields |
| Pipeline.ChainVerdict | auth_server/server/server.go:265-282 | the second authorizer is asked exactly when no entry matches; nothing is granted by default |
| Pipeline.GrantIff | auth_server/server/server.go:265-282 | an action is granted on a scope iff asked for and either the deciding entry is ["*"] or lists it, or no entry matches and the cluster gives it; the scope fails iff the cluster's answer is needed and missing |
| Pipeline.EmptyEntryShutsOutTheCluster | auth_server/server/server.go:268-277 | a deciding entry without actions grants nothing whatever the cluster says |
| Pipeline.VerdictIsSortedPartOfRequest | auth_server/server/server.go:265-282 | what is granted was asked for, and is sorted if the request was |
| Pipeline.AccessOfEachScope | auth_server/server/server.go:284-304 | access is given iff no scope fails, and then scope by scope in order, with type and name |
| Pipeline.ParsedActionsAreSorted | auth_server/server/server.go:238 | every accepted scope has sorted actions |
| Pipeline.TokenIff | auth_server/server/server.go:388-443 | a token is issued iff the request parses, some authenticator says the user is authenticated while none before it knows the account, and no scope fails; so none is issued when nobody knows the account |
| Pipeline.UnauthorizedIff | auth_server/server/server.go:396-414 | the answer is Unauthorized iff the request parses and nobody knows the account, or the first that does rejects or does not authenticate it |
| Pipeline.ServerErrorIff | auth_server/server/server.go:405-425 | the answer is a server error iff the request parses and the first authenticator not to pass the account on breaks, or authenticates it and some scope fails; with that error |
| Pipeline.ParseIff | auth_server/server/server.go:161-243 | which requests are refused for address, account or scopes, in this order; with basic credentials the account is always their user, and otherwise which credentials and account count |
| Pipeline.AuthnVerdictIs | auth_server/server/server.go:246-263 | an account nobody knows is not authenticated; otherwise the first answer counts |
| Pipeline.TokenGrantsIff | auth_server/server/server.go:331-342 | an issued token answers the scopes one by one, same number, order, types and names, each with exactly the actions asked for and given to the user with the vouching authenticator's labels and data, sorted |
| Server.AuthorizeByACL | auth_server/authz/acl.go:115-131 | returns the request's own slice for ["*"], a new one otherwise, with the first matching entry's verdict |
| Server.AuthorizeScope | auth_server/server/server.go:265-282 | the chain's verdict in a slice that is nil, the request's own or new, never a configured one |
| Server.ParseRequest | auth_server/server/server.go:161-243 | which requests are refused and why; otherwise account, service, credentials and scopes, each scope's actions in a slice of its own |
| Server.Authenticate | auth_server/server/server.go:246-263 | the verdict `Pipeline.AuthnVerdictIs` characterises: the first authenticator that knows the account decides, and unknown everywhere means not authenticated |
| Server.ClaimOne | auth_server/server/server.go:332-341 | a nil slice becomes an empty one, any other is sorted where it is |
| Server.ClaimAccess | auth_server/server/server.go:331-342 | for results that may share slices: every claim is sorted, and a slice that was sorted keeps its contents |
| Server.ClaimSorted | auth_server/server/server.go:331-342 | on sorted results the sort changes no slice at all |
| Server.FirstFailure | auth_server/server/server.go:298-301 | the first scope that fails gives the error of the whole |
| Server.AuthServer.constructor | auth_server/server/server.go:55-101 | access list before Kubernetes, either of them optional |
| Server.AuthServer.Authorize | auth_server/server/server.go:284-304 | one result per scope with the chain's verdict, or the first error and no results |
| Server.AuthServer.CreateAccess | auth_server/server/server.go:331-342 | the claims are the specified access, and the in-place sort changes neither the request's scopes nor the configuration |
| Server.AuthServer.Answer | auth_server/server/server.go:388-443 | the specified reply, with the request's scopes and the configuration as they were |
| Server.AuthServer.DoAuth | auth_server/server/server.go:388-443 | the specified response to every request, modifying nothing that existed before, so no number of requests changes the configuration |
| Compact.JoseReadsBack | auth_server/server/server.go:456-458 | unpadded base64url decodes to the bytes; trimming removes exactly the padding and leaves no dot or equals sign |
| Compact.EncodedIsDigitsThenPadding | auth_server/server/server.go:456-458 | the padded text is alphabet characters followed by the padding its length calls for |
| Compact.DigitsAreTheAlphabet | auth_server/server/server.go:456-458 | the digits are the base64url alphabet in its order |
| Compact.GroupIsTheBits | auth_server/server/server.go:456-458 | three bytes become the four digits that are their bits, six by six |
| Compact.TokenIsRecoverable | auth_server/server/server.go:348-355 | splitting a token at dots and decoding gives back exactly the header, claims and signature bytes |
| Reload.RestartableServer.constructor | auth_server/main.go:181-182 | the loop starts with what was loaded, watching iff the file is there |
| Reload.RestartableServer.MaybeRestart | auth_server/main.go:218-229 | the content is examined, and runs iff accepted; otherwise the old one goes on |
| Reload.RestartableServer.Tick | auth_server/main.go:185-196 | watch again, which makes an examination due, or examine what was due and have nothing due after it, never both in one tick |
| Reload.RestartableServer.Handle | auth_server/main.go:197-205 | a removal ends watching and cancels the pending restart, a write asks for one, anything else does nothing |
| Reload.InvRun | auth_server/main.go:181-229 | in every run with writes and removals reported as such: a watched file that differs from what was last examined has a write queued or a restart due, and a lost watch ends in a queued removal |
| Reload.NoUpdateIsLostIff | auth_server/main.go:181-229 | every reachable content not yet examined has an event, a restart or a re-watch pending, iff the file first watched holds what was loaded |
| Reload.RunningIsLastAccepted | auth_server/main.go:218-229 | the running configuration is always the last examined content that was accepted |
| Reload.CatchesUp | auth_server/main.go:183-206 | with the file left alone the queue only drains, and two ticks after it is empty the content has been examined and runs if acceptable; every further tick changes nothing |
| Reload.RestartsHaveACause | auth_server/main.go:183-206 | in every run the file is examined at most once for each write handled and each time it is watched again |
| Reload.NothingDueUnwatched | auth_server/main.go:199-202 | in every run with writes and removals reported as such, nothing is due while no file is watched: a removal takes back what was |
| Reload.EditIsSeenIff | auth_server/main.go:197-205 | a write is ever examined iff it was reported as a write or a removal alone, and not together with another operation |
| Reload.ReplacementIsSeenIff | auth_server/main.go:197-205 | a replaced file is ever examined iff the old one's going was reported as a write or a removal alone |

## Left out

- HTTP, TLS, listeners, headers, form decoding, metrics, logging, signals and the file watcher itself; a request is modelled after decoding, and file events are steps of an environment.
- Plugins and their authenticators and authorizers; authenticators other than as functions from account and password to an outcome.
- TokenReview and SelfSubjectRulesReview calls, retries and their metrics; the inner fetcher and checker are an arbitrary relation, or a function where agreement needs one.
- Key loading, signing, SHA-256 and its hexadecimal form; the hash is an arbitrary function, a signature arbitrary bytes; a failure to marshal or to sign is not modelled.
- The groups of a Kubernetes user, which the code uses for labels only.
- The regular expression engine, the doublestar matcher and address ranges are arbitrary predicates; `Acl.AccountPatternMeansEquality` assumes of the engine only that a quoted literal is found where it occurs.
- Capture-group placeholders: the pairs they contribute are arbitrary, and not derived from the entry's expressions.
- The size bound of the LRU: eviction may strike any entry at any step, which covers it.
- Panics and `runtime.Goexit` inside a single-flight call.
- RulesCache.CachedRulesFetcher.GetRules: one request without interruption, and the outcome of a call it joins is given; the interleavings are those of `SingleFlight`, and `SingleFlight.ServeIsARun` and `SingleFlight.WakesWithTheOutcome` connect the two.
- NamespaceCache.CachedNamespaceChecker.Exists: one request without interruption, in the same way.
- CachedCluster.CachedDecisionIsTheUncachedOne: about one decision; `Server` is given the cluster's answers.
- Generator.IterWithContext: seen when the goroutine has ended; what the receiver and the owner of the context do meanwhile is chosen arbitrarily where the goroutine can notice it.
- The spare capacity that `append(vars, labelVars...)` may write to again for each permutation: the pairs are values here, and each permutation's are used before the next is built.
- Invalid UTF-8 outside `CacheKey`: strings are sequences of code points, whose order is the byte order of their UTF-8 form.
- Glob.FillMatches: the converse of `Glob.MatchFills` only for patterns none of whose classes takes in the slash; which of the others lose a name is not characterised further.
- Lowercasing and case folding are per character; the few characters whose lowercase form has another length are not.
- Reload.InvRun: a configuration that loads but whose server cannot be built ends the process, which is not modelled.
- Time is an unbounded integer; timer drift and clock steps backwards are not modelled.
- Configuration tables, validation and defaults, command line, `String` methods, version generator, Helm chart.
