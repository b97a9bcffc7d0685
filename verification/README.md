# Verified models of sub-preprocessor

sub-preprocessor takes proxy subscription lists from many sources, filters their nodes by country, AS and address,
merges and probes what is left, and publishes the survivors; a crawler beside it finds new sources, keeps a corpus of
them, and decides which to delete. This project models the decision logic of both in Dafny and proves what it is for.
One module per source component:

| module | what it models |
|---|---|
| `Cover`, `Discovery`, `Candidates`, `TreePaths` | the GitHub finder: greedy coverage with a floor, the pass that folds accepted files, the bounded selection over a heap and the verdict on a path it rests on |
| `Flights`, `FlightProtocol`, `FlightLayers` | the ASN resolver: shared lookups, every interleaving of their callers and workers, and the two nested layers |
| `RangeIndex`, `GeofeedLookup`, `PrefixLookup`, `CidrSet`, `Bits` | the range indexes over 32-bit and two-word 128-bit addresses, and the mask arithmetic below them |
| `BulkPrune`, `Retirement`, `CorpusMerge`, `NameMint`, `CrawlCycle` | the crawler's deletion rules: bulk confirmation, retirement streaks, the merge, its names and what it leaves alone, and whole cycles and runs |
| `Probation` | withdrawal of GitHub sources on the service's own outcomes |
| `Exposition`, `Outcomes`, `ScrapeRoundTrip` | the metrics printer, the independently written parser, and that one undoes the other |
| `Merge`, `Labels` | the first-wins merge with its key arena and growth, and the labels that lead back to a source |
| `BodyReader` | the bounded body reader |
| `Pipeline`, `CountrySets` | the per-node filter pipeline, and the country bitset its policy is made of |
| `Basics`, `Sorting`, `Strings`, `StringSets`, `Decimals` | the library facts the rest stands on: a stable sort, Go's string order, decimal digits |

Code that changes state is modelled as it changes it: classes with the source's fields, arrays sorted and compacted in
place, loops with their invariants. Each such method is proved equal to a function of its inputs or of its old state,
and the theorems are about that function, over whole runs where the source's promise is about runs. A protocol is a
state machine whose steps are the source's critical sections.

Three things the proofs found, each stated with its exact condition:

- `PrefixLookup`: an IPv6 prefix of length 80 to 95 that ends exactly at ::ffff:ffff:ffff is dropped by the index
  builder, because its end unmaps to an IPv4 address and its start does not; an answer is the longest-prefix match of
  the entries that do not straddle in this way, and such a prefix alone is answered with no country; ::/80 is one
  (internal/geofeed/lookup.go:96-119, 159-185).
- `CorpusMerge`: the merged list's names are distinct exactly when no bare-hash name clashes with a name that stays or
  with another hash; the hash form is returned without consulting the names already taken, and `ClashingInput` is a
  file and a set of verdicts for which every plan holds one name twice (internal/crawl/crawl.go:979-1010).
- `ScrapeRoundTrip`: every source is read back with its own counts exactly when every name is non-empty valid UTF-8 and
  sources sharing a name have equal counts. Neither the printer nor the parser ensures that (`UnreadableLists`); the
  configuration's own rules for names do (internal/metrics/metrics.go:634-654, internal/crawl/outcomes.go:200-237,
  internal/config/config.go:1728-1734).

Assumed of what is not modelled, and stated where it is used: time does not go backwards within a run; state saves and
writes succeed; a formatted count is one token that parses back to itself (counts below 2^53); a payload rewriter's
success does not depend on the label (`LabelBlind`); a node's port holds no colon (`PortsArePlain`, for the statement of
the merge by endpoints); the crawler's own hash names are ten hex digits and the finder's
stems start with "g". Go's `int` and `int64` counts are unbounded here; 32-bit and 128-bit address arithmetic and the
64-bit words of the country set are explicit. Library sorts stand as one stable insertion sort (`Sorting.Sort`).

## Model

| member | source | states |
|---|---|---|
| `Cover.Cover` | internal/ghfind/cover.go:10-41 | the picks are a greedy run: each adds the most of any set left, ties to the lowest index, at least the floor, and the run stops only at the pick limit or when no set left reaches the floor |
| `Cover.CoverIsDeterministic` | internal/ghfind/cover.go:10-41 | that description fixes the picks: any two answers meeting it are equal |
| `Cover.GapShrinks` | internal/ghfind/cover.go:10-41 | after n picks the gap to any k rival sets is at most ((k-1)/k)^n of what they cover together |
| `Cover.FullRunApproximates` | internal/ghfind/cover.go:10-41 | with k picks made, k^k times the gap to any k rival sets is at most (k-1)^k times what they cover |
| `Cover.EarlyStopApproximates` | internal/ghfind/cover.go:10-41 | a run that stops early leaves any k rival sets at most k times (max(floor,1)-1) ahead |
| `Discovery.Pass.Novel` | internal/ghfind/find.go:666-677 | counts the endpoints outside both the census and the running union |
| `Discovery.Pass.Fold` | internal/ghfind/find.go:682-695 | the union gains exactly the endpoints outside the census, and a counted fold adds exactly the new ones to the total |
| `Discovery.Pass.CoverFloor` | internal/ghfind/find.go:644-662 | the floor handed to the cover: a fiftieth of the files' distinct endpoints together once they are a thousand, twenty below that |
| `Discovery.Pass.Pick` | internal/ghfind/find.go:614-640 | files are judged in the cover's order, each against the union as it stands, and accepted only at the novelty demand |
| `Discovery.Pass.SelectRepo` | internal/ghfind/find.go:574-610 | one repository, from the union before it to the union after: what it probed, how many of its files are live, its managed files folded whole and uncounted, and its accepted files, which are the unmanaged picks of the greedy cover of its live files at a floor of 20 or two percent, each judged against the union as it stood and taken iff it adds the demanded number of endpoints |
| `Discovery.Pass.SelectFiles` | internal/ghfind/find.go:555-564 | over a whole pass each repository is settled so, its union handed to the next; the novelty total is the sum over accepted files and the number of distinct counted endpoints; every accepted file meets the demand, no known URL is accepted, and the union is all that was folded outside the census |
| `Discovery.NovelCountsAreDistinct` | internal/ghfind/find.go:666-695 | the files' novelty counts add up to a number of distinct endpoints: nothing is counted twice |
| `Discovery.CountedByFirstFold` | internal/ghfind/find.go:682-695 | an endpoint is counted exactly when it is outside the census and the first fold that held it was an accepted file's |
| `Candidates.Candidates` | internal/ghfind/filter.go:107-143 | for every tree: the answer is made of `limit` entries that score, or of all if there are fewer, from different places; the higher score comes first, then the larger size, then the smaller path, and no entry left out is better by that than one taken |
| `Candidates.KeepCandidate` | internal/ghfind/filter.go:149-162 | offering one more entry keeps the slots holding the best `limit` of everything offered, as a heap |
| `Candidates.Heapify` | internal/ghfind/filter.go:178-182 | in place, the array becomes the heapified arrangement of its old contents |
| `Candidates.Sift` | internal/ghfind/filter.go:186-202 | in place, the array becomes the sifted arrangement of its old contents |
| `Candidates.SiftRestoresHeap` | internal/ghfind/filter.go:186-202 | sifting a slot whose subtrees are heaps makes its own subtree a heap |
| `Candidates.HeapifyMakesHeap` | internal/ghfind/filter.go:178-182 | heapifying makes any array a heap |
| `Candidates.RootIsWorst` | internal/ghfind/filter.go:149-162 | the heap's root is the worst entry kept |
| `Candidates.BestReplacesRoot` | internal/ghfind/filter.go:149-162 | replacing the root by a better newcomer leaves exactly the best `limit` of the longer list |
| `Candidates.OrderIsTotal` | internal/ghfind/filter.go:166-174 | the candidate order is a total preorder, as sorting and the heap need |
| `Candidates.LeqIsNotBetter` | internal/ghfind/filter.go:166-174 | the direction of that order: an entry sorts no later than another unless the other has the higher score, or the larger size at equal scores, or the smaller path at equal both |
| `Candidates.AdmitIsScores` | internal/ghfind/filter.go:107-143 | what is admitted and what it scores, in numbers: a blob of at most 10 MiB whose path is not refused, its path's points and one to three for 2, 20 and 200 KiB, and seven points in all below 2 KiB |
| `Strings.LeqIsLexicographic` | internal/ghfind/filter.go:166-174 | string order decides at the first character that differs, a prefix before what it starts |
| `TreePaths.JudgePath` | internal/ghfind/filter.go:117-125 | a path is refused for its name, a directory, its extension or its stem, and otherwise earns its extension's points and two per keyword |
| `TreePaths.DirsRefused` | internal/ghfind/filter.go:225-241 | true exactly when some whole segment between slashes is one of the refused names |
| `TreePaths.KeywordHits` | internal/ghfind/filter.go:282-290 | the number of different keywords on the path, however often each repeats |
| `TreePaths.PointsInNumbers` | internal/ghfind/filter.go:250-290 | the points of a path in numbers: three for txt, one for json, two for the plain extensions, and two for every keyword |
| `TreePaths.CaseIsFolded` | internal/ghfind/filter.go:204-221 | paths that differ in the case of ASCII letters only are judged alike |
| `RangeIndex.LessIsNumeric` | internal/geofeed/lookup.go:47-49 | the two-word comparison is the comparison of the 128-bit numbers |
| `RangeIndex.SubIsNumeric` | internal/geofeed/lookup.go:53-57 | the borrowing two-word subtraction is the difference of the 128-bit numbers |
| `RangeIndex.LookupV4` | internal/geofeed/lookup.go:231-254 | the early-stopping backward walk answers with the covering range least in span, start and position, and the zero code iff none covers |
| `RangeIndex.LookupV6` | internal/geofeed/lookup.go:257-280 | the same for two-word addresses |
| `RangeIndex.AnswerIsUnique` | internal/geofeed/lookup.go:231-254 | a range list and an address have one answer |
| `GeofeedLookup.NewIndexedLookup` | internal/geofeed/lookup.go:96-156 | the index is sorted with its running maxima, and its answers are answers of the usable input ranges of each family, in input order |
| `GeofeedLookup.BuildAndLookup` | internal/geofeed/lookup.go:96-156 | building the index and asking it is a scan of the input ranges, for every range list and address |
| `GeofeedLookup.LookupCountry` | internal/geofeed/lookup.go:219-225 | a probe is unmapped, sent to its family's array and answered from there; an invalid one has no country |
| `PrefixLookup.Ipv4RangeIsBlock` | internal/geofeed/lookup.go:190-198 | for every length an IPv4 prefix's range holds exactly the addresses whose masked bits are the prefix |
| `PrefixLookup.HostMaskFillsBlock` | internal/geofeed/lookup.go:172-185 | in all four mask cases or-ing the host mask into an aligned base gives the last address of its block |
| `PrefixLookup.Ipv6RangeIsBlock` | internal/geofeed/lookup.go:159-185 | an IPv6 prefix's range is its block of addresses |
| `PrefixLookup.KeptUnlessStraddling` | internal/geofeed/lookup.go:96-119 | the index keeps a prefix exactly when it does not end at the top of the IPv4-mapped block while starting below it |
| `PrefixLookup.NewLookupAndFind` | internal/geofeed/lookup.go:201-207 | the answer is the country of the prefix that shares its leading bits with the address and leaves fewest bits open, the first of equal ones, straddling prefixes aside, and no country when there is none, as section 2.1.3 of RFC 8805 asks; an IPv4 address is itself in either spelling |
| `PrefixLookup.ContainsIsSharing` | internal/geofeed/lookup.go:159-225 | the lookup's notion of containment is sharing leading bits: an IPv4 address is in an IPv6 prefix exactly when that is no wider than the mapped block and agrees with its mapped spelling, an address that is none reads as :: |
| `PrefixLookup.StraddlingIsLost` | internal/geofeed/lookup.go:96-119 | the prefixes lost are those of length 80 to 95 around ::ffff:ffff:ffff |
| `PrefixLookup.StraddlingPrefixIsLost` | internal/geofeed/lookup.go:110-118 | a straddling prefix contains its own base address and is answered with no country |
| `PrefixLookup.SlashEightyStraddles` | internal/geofeed/lookup.go:110-118 | ::/80 is a valid prefix that straddles |
| `PrefixLookup.SlashEightyIsLost` | internal/geofeed/lookup.go:110-118 | ::/80 contains ::, and a lookup built from it alone knows no country there |
| `CidrSet.PrefixRangeIsBlock` | internal/cidrset/cidrset.go:154-174 | a parsed prefix's range holds exactly the addresses agreeing with it above the host bits, for every length |
| `CidrSet.NewSet` | internal/cidrset/cidrset.go:178-210 | the in-place sort and merge, over a successor that wraps at 2^32, leaves ascending, disjoint, non-touching ranges with exactly the input's union, and counts its addresses |
| `CidrSet.BuildIsCorrect` | internal/cidrset/cidrset.go:178-210 | the merge keeps the union and leaves gaps, with the wrapping uint32 successor: only the guard at 2^32-1 keeps the last range from being joined or split wrongly |
| `CidrSet.BuildIsCanonical` | internal/cidrset/cidrset.go:178-210 | two inputs with the same union, in any order, build the same list |
| `CidrSet.MergedIsCanonical` | internal/cidrset/cidrset.go:178-210 | a union has only one merged list |
| `CidrSet.TotalIsCardinality` | internal/cidrset/cidrset.go:117-131 | the covered count is the number of addresses in the union |
| `CidrSet.Contains` | internal/cidrset/cidrset.go:101-115 | the binary search is membership in some range of the list |
| `Flights.Layer.Enter` | internal/asn/resolver.go:157-167 | joins the key's flight or registers a new one with one waiter |
| `Flights.Layer.Drop` | internal/asn/resolver.go:227-240 | one waiter leaves; the last to leave an unfinished flight abandons and unregisters it |
| `Flights.Layer.Finish` | internal/asn/resolver.go:247-260 | publishes the answer; only the flight still owning its key, and not abandoned, commits an entry |
| `Flights.Layer.EvictExpired` | internal/asn/resolver.go:276-293 | drops what has expired and, when that frees nothing, an eighth of the rest |
| `Flights.StoreIsBounded` | internal/asn/resolver.go:262-269 | a store keeps the cache within maxCacheEntries, holds the new entry, invents no other, and loses none while there is room |
| `Flights.EvictionIsRight` | internal/asn/resolver.go:262-293 | a store into a full cache throws out everything expired and nothing else if anything has expired, and otherwise exactly 2048 of its 16384 entries |
| `Flights.Layer.CachedResult` | internal/asn/resolver.go:135-143 | answers exactly when the key has an entry and now is before its expiry, with that entry |
| `FlightProtocol.StepKeepsInv` | internal/asn/resolver.go:150-260 | every atomic step of every caller and worker keeps the invariant and takes nothing back from any flight |
| `FlightProtocol.RegisteredIsCounted` | internal/asn/resolver.go:150-178 | in every reachable state a registered flight is unfinished, not abandoned, not cancelled, and counts exactly the callers attached to it, at least one |
| `FlightProtocol.LiveIsRegistered` | internal/asn/resolver.go:227-260 | every flight neither finished nor abandoned is the registered one of its key |
| `FlightProtocol.WaitingIsSafe` | internal/asn/resolver.go:227-240 | nobody else leaving abandons or cancels an unfinished flight a caller still waits on |
| `FlightProtocol.OneAnswer` | internal/asn/resolver.go:214-222 | all callers a flight answers, at whatever time, get the one answer its finish wrote |
| `FlightProtocol.FinishesOnce` | internal/asn/resolver.go:247-260 | a flight is finished at most once |
| `FlightProtocol.ClosesOnce` | internal/asn/resolver.go:247-260 | its done channel is closed at most once, after it finished |
| `FlightProtocol.CacheHoldsOwnedWork` | internal/asn/resolver.go:247-269 | the cache stays within bounds, and holds for a key only the answer of a finished flight of that key that is never abandoned, before or after |
| `FlightProtocol.OnlyOwnersCommit` | internal/asn/resolver.go:247-260 | an entry appears only through the finish of the flight registered for its key at that moment |
| `FlightProtocol.OwnersCommit` | internal/asn/resolver.go:247-260 | the other half: an answer with an expiry, from a flight not abandoned, is cached under its key until that expiry |
| `FlightProtocol.ServedFresh` | internal/asn/resolver.go:135-143 | over every run, a caller answered by the cache, on arrival or at the second look, is given the entry of its own key at a time before that entry expires |
| `FlightProtocol.QueriesOnlyOnMiss` | internal/asn/resolver.go:170-178 | a query starts only when the cache holds no entry of its key or one that has expired |
| `FlightProtocol.RecheckIsEnabled` | internal/asn/resolver.go:170-178 | the opener of a flight can take the cache's answer exactly while its key has an entry that has not expired, and start a query exactly when it has none |
| `FlightProtocol.ArrivesAtItsKey` | internal/asn/resolver.go:157-167 | a caller is attached to a flight of the key it came for |
| `FlightProtocol.AnswerIsWritten` | internal/asn/resolver.go:247-260 | whatever a flight answers, a finish of that flight wrote |
| `FlightProtocol.WaitersGetWhatWasWritten` | internal/asn/resolver.go:214-222 | a caller that waited goes away with what a finish of its own flight wrote, once its done channel is closed |
| `FlightProtocol.OthersReadFresh` | internal/asn/resolver.go:135-178 | every other answer a caller goes away with was read from the cache before it expired |
| `FlightProtocol.AbandonedIsCancelled` | internal/asn/resolver.go:227-240 | abandoned work is cancelled already, or the caller that left last is about to cancel it |
| `FlightProtocol.ClosedIsCancelled` | internal/asn/resolver.go:247-260 | a flight's context is released before its callers wake |
| `FlightProtocol.FlightsGoOn` | internal/asn/resolver.go:150-260 | no flight is stuck: in every reachable state of one whose done channel is open, somebody can take a step that brings it nearer to being closed |
| `FlightProtocol.WorkCanFinish` | internal/asn/resolver.go:247-260 | a running flight can finish with any answer and any lifetime, however full the cache |
| `FlightProtocol.ClosedWakes` | internal/asn/resolver.go:214-222 | every caller of a closed flight can leave, with the answer that flight holds |
| `FlightLayers.IpExpiry` | internal/asn/resolver.go:182-212 | an IP answer is not kept at all iff it is a cancellation, and otherwise expires no later than the AS-name answer behind it |
| `FlightLayers.NamesStayCapped` | internal/asn/resolver.go:370-386 | every step of the name layer keeps a name entry's expiry equal to its answer's, and only a cancelled query without one |
| `FlightLayers.IpNeverOutlivesName` | internal/asn/resolver.go:182-212 | in every interleaving of both layers an IP entry whose worker got an AS-name answer expires no later than that answer, nor than any name entry holding it |
| `FlightLayers.IpLifetime` | internal/asn/resolver.go:182-212 | in numbers: an IP answer lives the ttl, a failure 300 seconds, either cut at the expiry of the AS-name answer behind it; a cancellation is not kept |
| `FlightLayers.NameLifetime` | internal/asn/resolver.go:370-386 | a name lives the ttl, a failed lookup of one 300 seconds, and a cancelled one is not kept |
| `FlightLayers.IpAnswersCarryNames` | internal/asn/resolver.go:182-212 | an IP answer carries the name, failure and expiry of the name answer its worker was given, and fails without one when it was given none |
| `BulkPrune.SameProposal` | internal/crawl/state.go:609-627 | the two sorted proposals are non-empty and share at least 80% of the larger |
| `BulkPrune.CountShared` | internal/crawl/state.go:609-627 | the merge walk counts exactly the intersection of two sorted proposals |
| `BulkPrune.State.ConfirmBulkPrune` | internal/crawl/state.go:583-604 | records, waits or lets through exactly as the two-step rule says, and consumes the record it lets through on |
| `BulkPrune.State.ClearBulkPrune` | internal/crawl/state.go:633-640 | forgets any recorded refusal and says whether there was one |
| `BulkPrune.State.AllowShrink` | internal/crawl/crawl.go:913-929 | a drop of at most 10 or at most 30% passes and withdraws any refusal; a bulk one needs its confirmation |
| `BulkPrune.BulkDeletionNeedsConfirmation` | internal/crawl/state.go:583-604 | over any run a deletion of more than 10 URLs and more than 30% of the corpus is carried out iff an earlier cycle recorded its own refusal, 6 to 24 hours before, which shares 80% of the larger with it and which every merge-reaching cycle between re-proposed and was refused |
| `BulkPrune.SmallDropPasses` | internal/crawl/crawl.go:913-929 | a deletion of at most 10 URLs or at most 30% is always carried out and withdraws whatever was pending |
| `BulkPrune.RecordedIsRefused` | internal/crawl/state.go:583-604 | a cycle that records its proposal deletes nothing and leaves exactly its own time and set pending |
| `BulkPrune.RefusalAuthorisesOnce` | internal/crawl/state.go:583-604 | no refusal authorises two deletions |
| `BulkPrune.OneOrigin` | internal/crawl/state.go:583-604 | a deletion is authorised by one cycle's refusal and no other's, equal times and sets included |
| `BulkPrune.RunCycles` | internal/crawl/crawl.go:478-493 | running the code over a whole run carries out exactly the deletions the run's semantics does |
| `Retirement.ClassifyAll` | internal/crawl/crawl.go:1120-1188 | of the asked URLs not remembered dead: dead are exactly those whose answer is a 404, 410 or 451 or an expired body, live those whose unexpired body has nodes, and undetermined all others |
| `Retirement.RecheckManaged` | internal/crawl/crawl.go:553-599 | every managed URL not rediscovered is asked; live answers join the live set, undetermined ones are recorded, revivals counted |
| `Retirement.State.AgeManaged` | internal/crawl/state.go:511-544 | the stored histories become one fold of the cycle's verdicts, the stale set is exactly those past the window, and the state is marked for saving as the source marks it |
| `Retirement.DirtyIffChanged` | internal/crawl/state.go:511-544 | the fold marks the state for saving exactly when it changes it, unless one instant holds both a live answer and a later miss |
| `Retirement.StreakIsTrailingRun` | internal/crawl/state.go:511-544 | over any run a stored record is the trailing run of not-live observations: its length, its first time, and the live answer before it |
| `Retirement.RetiredExactlyAfterWindow` | internal/crawl/state.go:511-544 | a URL is stale exactly when its trailing run holds six cycles and spans 24 hours |
| `Retirement.NotRetainedIffCondemned` | internal/crawl/crawl.go:779-795 | the retention rule lets go exactly of what a recheck proved dead or the window ran out on |
| `Retirement.AgeOver` | internal/crawl/state.go:511-544 | running the fold over a whole run stores exactly the run's histories |
| `NameMint.TakenRunFits` | internal/crawl/crawl.go:1015-1026 | n taken siblings in a row need n distinct taken names besides the stem: the pigeonhole that ends the search |
| `NameMint.FirstFree` | internal/crawl/crawl.go:1015-1026 | the search ends at or before ordinal |used|+1 with the first free sibling |
| `NameMint.SourceName` | internal/crawl/crawl.go:979-1010 | the name is the kept one, the bare hash, the free stem or its first free sibling, in the source's order of cases, over the normalised slug |
| `NameMint.ChannelSlug` | internal/crawl/crawl.go:1047-1072 | the normalising loop computes the slug of a channel name |
| `NameMint.SlugIsWellFormed` | internal/crawl/crawl.go:1043-1046 | every slug is at most 24 of a-z, 0-9 and single inner dashes, and empty exactly when the name has no usable character |
| `NameMint.SlugIsFixed` | internal/crawl/crawl.go:1043-1046 | normalising twice is normalising once, and what it leaves alone are exactly the well-formed slugs |
| `NameMint.SlugNormalises` | internal/crawl/crawl.go:1047-1072 | wherever it stands in a channel name a capital counts as its small letter, an underscore as a dash, two dashes as one, and any other character as nothing |
| `NameMint.NameIsUnique` | internal/crawl/crawl.go:979-1010 | that description leaves one name |
| `NameMint.CreatedNameIsFree` | internal/crawl/crawl.go:979-1010 | a created name is taken by nobody |
| `NameMint.CreatedNameIsNoHash` | internal/crawl/crawl.go:979-1010 | a created name never reads as a hash name |
| `CorpusMerge.MintRetained` | internal/crawl/crawl.go:712-744 | exactly the candidates that are not denied, retained and valid are minted, each once and in URL order, each name found against those before it; the deleted list is, in order, exactly the file's other undenied URLs |
| `CorpusMerge.MintSource` | internal/crawl/crawl.go:759-767 | a minted entry carries its URL, the superseded entry's hwid or none, and the superseded feed when it keeps its name, else its origin's feed: the origin's own one or the channel's slug |
| `CorpusMerge.Survey` | internal/crawl/crawl.go:621-685 | what is sheltered, what is managed (the last entry of a URL), and exactly the names spoken for: the curated ones and every entry's but the crawler's own aggregate's |
| `CorpusMerge.CreatedIsNew` | internal/crawl/crawl.go:979-1010 | a created name is new to the file, to the curated sets and to every entry minted before it |
| `CorpusMerge.MergedNamesDistinct` | internal/crawl/crawl.go:620-703 | from a file with distinct names the merged list's names are distinct exactly when no bare hash clashes |
| `CorpusMerge.MergeManaged` | internal/crawl/crawl.go:620-703 | the plan: sheltered entries as they were, then the mint sorted by name, each retained URL once with its name, feed and hwid; an entry of the file whose name stays is kept whole, hwid and all, and a renamed one keeps its hwid; its deletions; created names avoid every curated name and every name in the file; names distinct iff no hash clashes |
| `CorpusMerge.HandAddedStay` | internal/crawl/crawl.go:621-640 | the hand-added entries stand first in every plan, all of them, unchanged and in the file's order |
| `CorpusMerge.PlanOwesToFile` | internal/crawl/crawl.go:745-767 | what every minted entry owes to the last entry of its URL: the hwid always, the whole entry unless it was renamed, and a name that is not ten hex digits is never changed |
| `CorpusMerge.PlanIsOrdered` | internal/crawl/crawl.go:690-703 | a plan holds each URL once, in the order of its names |
| `CorpusMerge.PlanIsDetermined` | internal/crawl/crawl.go:706-722 | file, curated names and verdicts leave one plan: map iteration decides nothing |
| `CorpusMerge.MergeIsIdempotent` | internal/crawl/crawl.go:620-767 | merging a file that holds the merged list again, on the same verdicts, keeps every entry as it is and deletes nothing, whatever is curated by then |
| `CorpusMerge.BareHashClashes` | internal/crawl/crawl.go:979-1010 | a retained URL left with its hash for a name clashes with a hand-added entry of that name in every plan |
| `CorpusMerge.ClashingInput` | internal/crawl/crawl.go:979-1010 | such an input: the URL is revived while the re-read file gives its old hash name to a hand-added entry elsewhere |
| `StringSets.SortedStrings` | internal/crawl/crawl.go:712-722 | the set's members in strictly ascending order |
| `CrawlCycle.SameSources` | internal/crawl/crawl.go:1675-1692 | the two lists hold the same entries, each as often |
| `CrawlCycle.UnchangedDeletesNothing` | internal/crawl/crawl.go:466-489 | when the merged list holds the file's entries again, in any order, the plan's deletion list is empty |
| `CrawlCycle.Crawler.Learn` | internal/crawl/crawl.go:422-441 | recheck, darkness test and streaks: a dark cycle changes no streak and condemns nobody |
| `CrawlCycle.Crawler.RunOnce` | internal/crawl/crawl.go:384-505 | one cycle stops (a failed second read included), changes nothing, is held back or writes the merge's plan, exactly as the guards, the comparison and the prune floor say, and leaves exactly that behind; what it writes has distinct names exactly when no hash clashes |
| `CrawlCycle.WrittenFileIsSettled` | internal/crawl/crawl.go:378-383 | a written file merged again on the same verdicts comes out the same, inline aggregate and all, with nothing deleted |
| `CrawlCycle.MayDeleteIffJustified` | internal/crawl/crawl.go:779-795 | what a cycle may delete, in terms of the whole run: in the file, not denied, and proven dead, or undetermined through six observing cycles over a day, or refused by the validator |
| `CrawlCycle.HistoryIsObserved` | internal/crawl/crawl.go:428-441 | over any run, dark and stopped cycles included, the streaks are the histories of the observing cycles alone |
| `CrawlCycle.RunCrawler` | internal/crawl/crawl.go:384-505 | over any run of cycles, in terms of the answers alone: a cycle stops exactly when it was cut short or a managed corpus has vanished; what it would delete is exactly the managed URLs not denied that the validator refuses or that, pruning on and something seen live, answered 404, 410, 451 or an expired body, or were missed by six observing cycles over a day; more than 10 and 30% go only on an earlier refusal; a written file is exactly the entries that stay, in order, and a file is left alone only when it already holds them |
| `CrawlCycle.JustifiedMayGo` | internal/crawl/crawl.go:779-795 | what justifies a deletion by verdicts and streaks is what may go by the answers of the run |
| `CrawlCycle.MergesUnlessMustStop` | internal/crawl/crawl.go:384-458 | a cycle merges unless it was aborted, could not read the file again, or finds no managed entry where an earlier observing cycle left some |
| `CrawlCycle.WrittenIsRight` | internal/crawl/crawl.go:620-703 | a written file holds every hand-added entry, exactly the managed URLs that stay, each entry as the file had it, and the inline aggregate's name |
| `CrawlCycle.PlanIsCorrect` | internal/crawl/crawl.go:442-477 | it is laid out hand-added entries first, then the managed ones by name and each URL once, then the inline aggregate if its name is free |
| `Probation.State.FoldOutcome` | internal/crawl/state.go:267-290 | one reading folds exactly when its publish time advances the record or opens it |
| `Probation.State.FoldReading` | internal/crawl/state.go:308-331 | the whole reading folds, and the due list is exactly the advanced sources at the window, longest-barren first, ties by name |
| `Probation.State.GithubWithdrawals` | internal/crawl/github.go:172-232 | a pass over the file's own GitHub entries withdraws the first due sources up to its room, and keeps records only of known, unwithdrawn names |
| `Probation.OnlyGithubOnProbation` | internal/crawl/github.go:180-185 | a name is on probation exactly when a managed entry with a URL and the phase's feed holds it, with the URL of the last such entry |
| `Probation.RereadIsNoOp` | internal/crawl/state.go:267-290 | reading one snapshot again changes nothing and condemns nobody |
| `Probation.RecordIsLog` | internal/crawl/state.go:267-290 | a record's count is the number of newest-yet publishes since the last survivor, its clock the newest publish time |
| `Probation.RecordTimes` | internal/crawl/state.go:267-290 | a record was opened at the first newest-yet publish and last saw a survivor at the last newest-yet publish that had one |
| `Probation.RecordsAreEvidence` | internal/crawl/github.go:172-232 | over any run every stored record is the one its own evidence leaves, from when it was last dropped |
| `Probation.WithdrawnOnlyWhenBarren` | internal/crawl/github.go:172-256 | a source is withdrawn only on an advancing reading with at least window barren publishes; at most two or a quarter of the population go per pass, and somebody due stays only when one more would be above that, and then was barren no longer than those who went |
| `Probation.Probate` | internal/crawl/github.go:172-232 | running the code over a whole run takes exactly the run's steps: every withdrawal of every pass is earned, every pass withdraws at most two or a quarter of the phase's entries and no fewer while somebody is due, longest barren first, and a pass that reads nothing usable changes nothing |
| `Probation.PassIsWithinCap` | internal/crawl/github.go:200-244 | the cap of one pass in numbers and in both directions, and who goes first, by the readings alone |
| `Exposition.Exposition.EndLine` | internal/metrics/metrics.go:496-501 | a line ends in the text, and the buffer stays below the flush mark |
| `Exposition.Exposition.Flush` | internal/metrics/metrics.go:505-511 | flushing changes what is buffered and nothing of the text |
| `Exposition.AppendLabelValue` | internal/metrics/metrics.go:634-654 | appends the value escaped, or the stand-in for a value that is not UTF-8 |
| `Exposition.RenderLabels` | internal/metrics/metrics.go:352-370 | every slice of the label arena is the label set of its source |
| `Exposition.LinesSpelledOut` | internal/metrics/metrics.go:371-389 | a source's four lines spelled out: which count each family carries, under its feed, owner and name |
| `Exposition.DropsSpelledOut` | internal/metrics/metrics.go:390-411 | a drop line spelled out: the reason's own count under the reason |
| `Exposition.WriteSources` | internal/metrics/metrics.go:351-410 | the five families follow, wherever the buffer flushes |
| `Exposition.Scrape` | internal/metrics/metrics.go:351-410 | what reaches the writer is the families' text |
| `Outcomes.LabelValueEnd` | internal/crawl/outcomes.go:243-254 | finds the closing quote of a label value and whether it held an escape |
| `Outcomes.UnescapeLabel` | internal/crawl/outcomes.go:259-279 | decodes the three escapes and copies any other pair through |
| `Outcomes.SplitSourceSample` | internal/crawl/outcomes.go:200-237 | the label walk, by name and honouring quotes: the source value and what follows the brace |
| `Outcomes.OutcomeReading.FoldSample` | internal/crawl/outcomes.go:171-191 | one family line sets one count of one name, or changes nothing |
| `Outcomes.OutcomeReading.FoldLine` | internal/crawl/outcomes.go:151-166 | a line contributes iff it belongs to one of the three families and parses |
| `Outcomes.ClockLine` | internal/crawl/outcomes.go:151-166 | the clock's line sets the publish time to the whole part of a number below 2^64 and touches no count; one that carries anything else is skipped |
| `Outcomes.CountLine` | internal/crawl/outcomes.go:171-191 | a count's line sets that one count of the source it names to the whole part of a number below 2^63 and touches nothing else; one that carries anything else is skipped |
| `Outcomes.TooLongIsLongStretch` | internal/crawl/outcomes.go:105-124 | the scanner gives up exactly when 1 MiB goes by without a newline |
| `Outcomes.OtherPairsStay` | internal/crawl/outcomes.go:259-279 | a backslash pair that is no escape is left as it is |
| `Outcomes.FetchOutcomes` | internal/crawl/outcomes.go:108-132 | never a partial reading: no reply, a status outside 200 to 299, a body cut off or over 8 MiB, a line of 1 MiB or no family is an error |
| `ScrapeRoundTrip.UnescapeUndoesEscape` | internal/crawl/outcomes.go:259-279 | unescaping undoes escaping, for every string |
| `ScrapeRoundTrip.ValueEndsAtQuote` | internal/crawl/outcomes.go:243-254 | the scan stops at the quote the writer closed the value with, whatever the value and whatever follows |
| `ScrapeRoundTrip.LabelSetWalked` | internal/crawl/outcomes.go:200-237 | the walk over a rendered label set finds the source's name, whatever name and feed hold |
| `ScrapeRoundTrip.ScrapeReadsBack` | internal/metrics/metrics.go:351-410 | reading the rendered text is folding each source's two counts under the name it is shown by; the other families add nothing |
| `ScrapeRoundTrip.ReadingHolds` | internal/crawl/outcomes.go:171-191 | a name holds the counts of the last source shown by it, and nothing else is in the reading |
| `ScrapeRoundTrip.RoundTripIffReadable` | internal/crawl/outcomes.go:200-237 | every source is read back with its own counts exactly when names are non-empty UTF-8 and sources sharing one have equal counts |
| `ScrapeRoundTrip.ConfiguredNamesRoundTrip` | internal/config/config.go:1728-1734 | names of the configuration's alphabet, each given once, always read back whole |
| `ScrapeRoundTrip.UnreadableLists` | internal/metrics/metrics.go:351-410 | lists the printer takes and the parser does not give back: a nameless source, and two of one name with different counts |
| `ScrapeRoundTrip.LawfulIsPossible` | internal/metrics/metrics.go:585-587 | the assumptions on number formatting and parsing can be met |
| `ScrapeRoundTrip.ScrapeAndFetch` | internal/crawl/outcomes.go:89-132 | a scrape rendered by one side and fetched by the other yields that reading, or the size error; for a configured service whose text fits, the reading holds exactly each source's own survivors and valid nodes under its own name |
| `ScrapeRoundTrip.ServiceIsRead` | internal/crawl/outcomes.go:89-191 | with the service's clock in front, the fetch yields its publish time and those counts |
| `Merge.LowerServerPort` | internal/stable/merge.go:231-246 | the key is the server folded, a colon and the port: folded character by character for an ASCII server, by the library's lowercasing otherwise |
| `Merge.KeyArena.Intern` | internal/stable/merge.go:202-210 | the view reads as the key, and every view handed out before still reads as it was cut |
| `Merge.RelabelNode` | internal/stable/merge.go:297-332 | the relabelled line by scheme, with the label owned on the fragment path and cut from the arena on the payload path |
| `Merge.GrowForMerge` | internal/stable/merge.go:166-181 | growth leaves the entries in order and the keys as they were, makes room for all that is wanted when that is more than there is, and does nothing otherwise |
| `Merge.EntryList.Append` | internal/stable/merge.go:123-123 | appending keeps every entry, wherever the array moves |
| `Merge.Merge` | internal/stable/merge.go:66-130 | whatever the growth path does, the entries are exactly the merge's rows and every string they view still reads so at the end; for ports without a colon the rows are, per endpoint, the first publishable node's: each such node is published unless an earlier one has its port and its server up to letter case |
| `Merge.MergeIsFirstWins` | internal/stable/merge.go:66-130 | the rows are the naive first-wins dedupe: over nodes that parse, are no placeholder and can be relabelled, the first with each key, numbered per source |
| `Merge.KeysMeetAtEndpoints` | internal/stable/merge.go:231-246 | for ports without a colon two nodes share a key exactly when their ports are equal and their servers fold to one string |
| `Merge.AsciiServersMeet` | internal/stable/merge.go:231-246 | ASCII servers fold to one string exactly when they agree character by character but for the case of letters |
| `Merge.RowsAreFirstWins` | internal/stable/merge.go:66-130 | each row publishes the first publishable node at its endpoint, every endpoint with one has its row, and rows come in order of their nodes, each line rewritten or cut and labelled by its scheme under the next number of its source |
| `Merge.KeysAreDistinct` | internal/stable/merge.go:66-130 | no key is published twice |
| `Merge.LabelsAreDistinct` | internal/stable/merge.go:92-125 | with distinct source names every label is given once |
| `Merge.LabelsNameTheirSource` | internal/stable/label.go:80-91 | a published label leads back to the source of its node |
| `Labels.AppendPad3` | internal/stable/merge.go:255-264 | appends the decimal zero-padded to three digits |
| `Labels.SourceOfLabel` | internal/stable/label.go:80-91 | everything before the last dash when digits alone follow it, else the label |
| `Labels.SourceIsNumbered` | internal/stable/label.go:80-91 | the source is what stands before a last dash that digits alone follow, and a label without such an ending is its own source |
| `Labels.Pad3IsDigits` | internal/stable/merge.go:255-264 | a padded number is at least three digits, spells its value, and has no leading zero beyond three |
| `Labels.SourceOfItsLabel` | internal/stable/label.go:80-91 | a label gives its source back, whatever the name holds, exactly when the name is not empty |
| `Labels.LabelIsInjective` | internal/stable/merge.go:96-99 | name and ordinal can both be read off a label |
| `Labels.FoldUndoesExpansion` | internal/stable/label.go:55-64 | folding a mieru proxy name gives the label back, for every port and protocol, and any other name is left alone |
| `BodyReader.Grown` | internal/fetch/fetch.go:267-286 | growth is strict, at most double, within the ceiling and at most half of it unless final; while the announcement lies below that half, it is doubling or the announcement and a byte, whichever is less |
| `BodyReader.GrowBody` | internal/fetch/fetch.go:267-286 | the grown buffer starts with the old one's bytes |
| `BodyReader.ReadBody` | internal/fetch/fetch.go:228-252 | for every announced length and every split of reads: the first min(length, limit+1) bytes or the error; announced, the first buffer is the announcement and a byte or 256 KiB and a byte, every growth happens when exactly the old buffer has been read, to at most twice that, and old and new together stay within one and a half ceilings; unannounced, as ReadChunked |
| `BodyReader.ReadChunked` | internal/fetch/fetch.go:293-327 | the same bytes or error, chunk by chunk; the chunks together are never above the ceiling, nor above one and a half times what arrived plus 48 KiB |
| `BodyReader.JoinChunks` | internal/fetch/fetch.go:331-340 | the join is the concatenation of the chunks |
| `BodyReader.ReadResponse` | internal/fetch/fetch.go:190-206 | the whole body or an error: never truncated, and too large exactly when it is |
| `BodyReader.ReadsAgree` | internal/fetch/fetch.go:228-252 | two reads of one stream agree, but for a failure on the very byte that shows an overrun |
| `Pipeline.PipelineContext.Permitted` | internal/filter/filter.go:50-61 | compacts exactly the permitted addresses to the front, in order |
| `Pipeline.PipelineContext.ProcessGeofeed` | internal/preprocess/filters.go:44-53 | the country filter, with its shortcut for a policy that constrains nothing, and its drop booked when nothing is left |
| `Pipeline.PipelineContext.ProcessAsn` | internal/preprocess/filters.go:75-108 | the ASN filter: errors kept, denied names and refused countries dropped, the name's reason booked first |
| `Pipeline.PipelineContext.ProcessCidr` | internal/preprocess/filters.go:123-136 | the allow-list filter and its drop |
| `Pipeline.PipelineContext.ResolveNode` | internal/preprocess/processor.go:759-791 | literals are answered inline, names asked once and remembered, other families refused, and no remembered array is touched |
| `Pipeline.PipelineContext.ProcessNode` | internal/preprocess/processor.go:793-830 | one node is booked and emitted exactly as its verdict says, and the remembered addresses of every server stay as they were |
| `Pipeline.PipelineContext.ProcessBody` | internal/preprocess/processor.go:681-708 | a body is refused above the ceiling before any lookup, otherwise processed node by node until the context ends, the last check after the last node; refused lines are counted apart |
| `Pipeline.KeptIsFirstThrough` | internal/preprocess/processor.go:813-829 | the chain keeps a node exactly when one of its addresses passes every filter, and then at the first such address |
| `Pipeline.TotalsBalance` | internal/preprocess/processor.go:793-830 | after every node Total = Kept + DNS + Geo + ASN + CIDR + GeoBlock + IPv6, and Kept is the number emitted |
| `Pipeline.MemoIsFirstAnswer` | internal/preprocess/processor.go:759-791 | a server's addresses are, for the whole body, what the resolver answered its first node |
| `Pipeline.OutputIsRight` | internal/preprocess/processor.go:793-830 | every emitted node is unblocked, and its address is the first of its server's own addresses to pass every filter |
| `Pipeline.DroppedRightly` | internal/preprocess/processor.go:793-830 | a node is dropped iff it is blocked, of another family, or has no address that passes every filter |
| `Pipeline.VerdictIsDrops` | internal/preprocess/processor.go:793-830 | a node's verdict is a drop for a reason exactly when, by the answers of its first namesake, it is blocked, of another family or unresolved, or that reason's filter leaves none of the addresses those before it let through |
| `Pipeline.ThroughDrops` | internal/preprocess/filters.go:44-136 | a node is dropped by the first filter that leaves it nothing, for that filter's own reason, the denied name before the refused country |
| `Pipeline.TallyCounts` | internal/preprocess/processor.go:793-830 | each counter is the number of nodes dropped for its reason |
| `Pipeline.OutIsEmitted` | internal/preprocess/processor.go:793-830 | the survivors are exactly the nodes not dropped, in order |
| `Pipeline.FilterNodes` | internal/preprocess/processor.go:576-650 | for every body, chain and lookup outcome: an empty policy, more than 50000 nodes, a context that ends or a body without nodes is an error with no survivor; otherwise the survivors are, in order, exactly the nodes that no filter drops, each at the first of its server's addresses that every filter lets through; each counter is the number of nodes dropped for its reason, the totals balance over the nodes reached, and refused lines before the end are counted apart |
| `CountrySets.CountrySet.Has` | internal/filter/filter.go:23-30 | the masked word says whether the code is a member; anything that is no code is not |
| `CountrySets.CountrySet.Add` | internal/filter/filter.go:66-68 | adds exactly the code the part spells once trimmed and upper-cased, and reports whether it spelled one |
| `CountrySets.All` | internal/filter/filter.go:86-94 | every code is a member and no bit above the last is set |
| `CountrySets.IsEmpty` | internal/filter/filter.go:107-114 | all words are zero exactly when no code is a member |
| `CountrySets.FullHoldsAll` | internal/filter/filter.go:102-104 | the whole-bitset comparison holds exactly when every code is a member |
| `CountrySets.Permits` | internal/filter/filter.go:40-45 | an allow-list unless full, a deny-list matched positively: an unknown country passes only where no allow-list was asked for |

## Left out

- HTTP, DNS, TLS, SQLite, file watching, YAML and JSON, logging and the server: fetched bytes, lookup answers, file contents and settings are inputs.
- Goroutine scheduling and mutexes as such: each critical section is one step of `FlightProtocol`, and the code between two of them can be overtaken by anybody; map iteration is an arbitrary order.
- Flights.Layer: a `*flight` is an index into a pool of records, and the context's timeout is a worker that may answer at any time; the two methods' trailing `cancel` and `close` are the protocol's own steps.
- CorpusMerge.MergeManaged: which URLs the curated deny list holds and what the validator refuses are inputs, and withheld entries are not deletions, as in the source.
- CrawlCycle.Crawler.RunOnce: discovery, the scan, the GitHub phase and the dead-URL records are inputs or left out; the state is held in two objects, one per rule, rather than one; each with its own `dirty` flag; the one-time adoption of prefixed names is the `adopted` input.
- Probation.State.GithubWithdrawals: the dead stamp put on what is withdrawn is left out, with the dead-URL memory as a whole.
- NameMint.SourceName: the hash is an abstract function, assumed to give ten hex digits.
- Discovery.Pass.SelectFiles: fetching and counting a file's endpoints are inputs, as are the admitted repositories and the search cursor.
- Exposition.WriteSources: the families of the other writers are left out, and their help texts are parameters without newlines; the float format is abstract.
- Outcomes.FetchOutcomes: the exchange is given as what it came to: no reply, or a status and a body that is whole or broke off.
- Merge.Merge: the subscription parser, placeholder test and payload rewriters are abstract functions.
- BodyReader.ReadBody: the chunk headers' stack array is left out, being only where they live.
- Pipeline.FilterNodes: the address databases and the resolver answer as functions of the node being processed, so they may change between nodes but not within one; the survivors' line arena works as the key arena of `Merge` and is not repeated; the policy's country sets are sets of codes here and bitsets in `CountrySets`.
- Pipeline.PipelineContext.ProcessBody: lines arrive classified as node, refused or other; the parser itself is not modelled.
- Adapters, through-node probers, survivor selection, payload building, the shared breaker, configuration defaults and reload wiring: they rest on libraries or are one-branch facts.
- Per-endpoint census files and their rebuild: the census is an input of `Discovery`.
