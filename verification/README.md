# Safe Zone: verified model

A Dafny model of seven components of the Safe Zone service, each with a proof of what its callers
rely on. Run `dafny verify dfyconfig.toml` to check everything.

| component | files |
|---|---|
| Edit-distance engine of the brand spoof check | `EditDistance.dfy` |
| Token-bucket rate limiter | `LimiterState.dfy`, `Limiter.dfy`, `LimiterRuns.dfy` |
| Domain trie, its text cache, and the block-list sync around it | `TrieRules.dfy`, `TrieTable.dfy`, `DomainTrie.dfy`, `TrieMeaning.dfy`, `TrieCache.dfy`, `CacheMeaning.dfy`, `AdblockSync.dfy`, `AdblockLists.dfy` |
| Scoped exceptions and their revision encoding | `ExceptionRules.dfy`, `ExceptionMeaning.dfy`, `Exceptions.dfy`, `RevisionEncoding.dfy` |
| Threat-feed admission and expiry | `FeedAdmission.dfy`, `FeedExpiry.dfy`, `FeedRuns.dfy` |
| Cursor protocols of the alert and audit tasks | `AlertState.dfy`, `AlertRuns.dfy`, `AlertTask.dfy`, `AuditState.dfy`, `AuditRuns.dfy`, `AuditTask.dfy` |
| Task engine | `EngineState.dfy`, `EngineRuns.dfy`, `TaskEngine.dfy` |

`Text.dfy` holds the string operations they share. Objects of the source are classes; each method is
proved to compute a function on values (`State`, `Table`, ...), and the theorems are about those
functions, so that they cover every input, every run or every interleaving. Where such a function is also
the program (which tasks are due, what a list line adds, what an entry keeps), further theorems say what it
means in the caller's terms.

Concurrency is an interleaving of atomic actions. Failures, crashes, elapsed time and what other
parties write are parameters of the operations: a script the theorem quantifies over.

## What the proofs found

- `internal/ratelimit/limiter.go:22-24` documents the eviction ratio as what a pass leaves behind; the code removes that
  share, and the model does too.
- The weighted capped distance returns `limit + 1.0` also for distances strictly between `limit` and
  `limit + 1.0`; it is therefore not a minimum (`EditDistance.WeightedCapOvershoots`), but no decision
  depends on it. For names of four characters the classic typosquatting step can never fire after the
  keyboard step (`EditDistance.ClassicVerdictExactly`).
- With an IDNA that leaves lower-case ASCII alone, adding a stored ASCII rule again changes it exactly when white space is left around its domain
  (`TrieRules.StableExactly`). That happens behind a wildcard prefix, as in `*. a.b`, and before trailing
  dots, as in `a.b .` (`TrieRules.BlankAfterWildcardIsUnstable`, `TrieRules.BlankBeforeDotIsUnstable`).
  Staging and merging equals direct insertion, and a cache file restores its table, exactly when no rule
  is of that kind (`TrieTable.StagingIsTransparentExactly`, `TrieTable.BlankIsLostInMerge`,
  `TrieCache.CacheRoundTripExactly`).
- `internal/risk/adblock_exceptions.go:335-337` refuses entries that can never fire, but not all of them:
  an accepted entry can fire exactly when the rule it names is registrable, which validation asks of
  suffix selectors only, so that an entry naming `com` is accepted in vain
  (`ExceptionRules.AcceptedFiresExactly`, `ExceptionRules.UnregistrableRuleIsAccepted`).
- A body that arrives but cannot be saved contributes nothing even when an older source cache exists
  (`internal/risk/adblock_sync.go:221-223`), although `internal/risk/adblock_io.go:414-418` promises the old cache
  (`AdblockSync.RemoteContributesExactly`, `AdblockSync.UnsavedBodyBlocksCache`).
- A `Start` that is overtaken by `Stop` launches the scheduler after `Stop` returned; no task runs
  (`EngineRuns.StopEndsTheLoopExactly`, `EngineRuns.OvertakenStart`).
- `internal/agent/alert.go:137-139` says that a cursor that cannot be loaded never skips a backlog. It does: the
  fallback is the current second, also when nothing had been stored yet (`AlertRuns.NothingIsLost`,
  `AlertRuns.FallbackExactly`, `AlertRuns.FallbackSkips`). A fallback in the second of the stored event also
  leaves the stored cursor ahead of the one in memory, until a later write (`AlertRuns.StepExactly`).
- `internal/agent/audit.go:329-330` says that a new window starts where the old one ended; it starts a lookback before
  its own end, and times between the two are covered by neither exactly when the new end is more than
  about a lookback later (`AuditRuns.WindowsMeetExactly`). The window is not frozen at its end either:
  the text comparison of times admits entries up to two seconds later (`AuditRuns.FreezesExactly`), and
  such an entry can make a domain qualify that the cursor has passed (`AuditRuns.LateEntryIsSkipped`).
- Several processes write the threat feed by design, and a sync reads its clock once before it streams
  and writes (`internal/feed/sync.go:304-316`), with a ZADD that overwrites (`internal/cache/redis.go:394-402`). A sync
  with the older clock can therefore write last and lower a score (`FeedRuns.OverlappingSyncsFall`).
  Scores never fall exactly when no write ends its window before the last write did
  (`FeedRuns.NeverFallsExactly`), as when syncs do not overlap (`FeedRuns.SerialSyncsRise`).
- The startup check asks that the churn window exceed the sync interval. What keeps a listed member in
  the feed is a window a whole second longer than the greatest age of its score
  (`FeedRuns.WindowExactly`), and that age is the time between two writes plus the time a write takes
  from its clock read (`FeedRuns.PromptSyncsRelist`). Windows and intervals of whole days pass; the
  shortest churn window with an interval just below it passes the check and is not enough
  (`FeedRuns.CheckedSyncsNeverExpire`, `FeedExpiry.CheckedConfigWithoutMargin`).
- `internal/domaintrie/trie.go:191-192` says that Unicode and Punycode forms of a name always match. Behind a wildcard
  prefix they do not when IDNA refuses the whole entry: the name is stored unconverted
  (`TrieRules.WildcardSkipsIdna`), and no query for it finds it (`TrieTable.InternationalWildcardMisses`); a
  query finds a stored name exactly when it is normalised to that name or below it
  (`TrieTable.OneRuleAnswersExactly`).
- The list scanner and the cache scanner have the same line limit, but a cache record is longer than the
  name it holds, and the registrability test bounds the host of a name only, not a path behind it. One
  list line just under the limit makes the whole cache unreadable (`AdblockSync.PublishedComesBackExactly`,
  `AdblockSync.LongNameLosesAll`, `AdblockSync.LongPath`).
- Saving the global block-list cache can lose the old one, because the file is removed before the new
  one is renamed (`internal/risk/adblock_io.go:130-144`); a restart in which every source fails then has no rules
  (`AdblockSync.RestartAfterSync`).

## Model

| member | source | states |
|---|---|---|
| EditDistance.Levenshtein | internal/analysis/brand.go:287-327 | the in-place one-column program returns the recursive edit distance, plain or keyboard-weighted, whatever the pooled buffer held |
| EditDistance.TakeColumn | internal/analysis/brand.go:298-311 | a reused or new buffer ends up holding column 0 of the distance table |
| EditDistance.LevenshteinCapped | internal/analysis/brand.go:336-386 | the early exit returns the full distance when it is within the limit and limit plus one edit otherwise; for empty input the uncapped length |
| EditDistance.RowStaysAbove | internal/analysis/brand.go:329-336 | once every cell of a row exceeds the limit, every cell of every later row does |
| EditDistance.DistanceIsMetric | internal/analysis/brand.go:287-327 | both distances are zero exactly on equal strings, symmetric, and obey the triangle inequality |
| EditDistance.Triangle | internal/analysis/brand.go:849-899 | the triangle inequality on all pairs of prefixes |
| EditDistance.OneEditBound | internal/analysis/brand.go:287-327 | one edit moves a string no further than its cost |
| EditDistance.ScriptsCostAtLeastDistance | internal/analysis/brand.go:287-327 | no edit script is cheaper than the distance |
| EditDistance.CheapestScript | internal/analysis/brand.go:849-899 | an edit script with exactly the cost of the distance, for all pairs of prefixes |
| EditDistance.DistanceIsCheapestScript | internal/analysis/brand.go:287-327 | the distance is the minimum cost over all edit scripts, and attained |
| EditDistance.WeightedBounds | internal/analysis/brand.go:849-899 | in full edits, the weighted distance is at most the plain one and at least half of it |
| EditDistance.CapIsMinimum | internal/analysis/brand.go:900-965 | the capped value is min(distance, limit + one edit) exactly when the distance is not strictly between the two, so always for the plain distance |
| EditDistance.WeightedCapOvershoots | internal/analysis/brand.go:900-965 | a distance of half an edit under limit 0 is reported as a whole edit |
| EditDistance.CapKeepsDecision | internal/analysis/brand.go:1203-1227 | a threshold test at or below the limit cannot tell the capped from the full distance |
| EditDistance.CheckTyposquat | internal/analysis/brand.go:1200-1236 | the two capped calls of the spoof check give the verdict that uncapped distances give |
| EditDistance.ClassicVerdictExactly | internal/analysis/brand.go:1203-1236 | the classic verdict falls exactly on longer names at plain distance 2 and weighted distance 2.0 |
| EditDistance.VerdictExactly | internal/analysis/brand.go:1200-1236 | which verdict falls, by the two distances: the keyboard one up to one edit for four characters and one and a half above |
| EditDistance.SingleEdits | internal/analysis/brand.go:849-899 | what single edits cost: one, and for neighbouring keys half of that when weighted |
| EditDistance.NeighboursAreListed | internal/analysis/brand.go:849-899 | keys are neighbours exactly when the layout lists one for the other, whatever their case |
| RateLimiter.Limiter.constructor | internal/ratelimit/limiter.go:110-125 | a new limiter tracks nothing and is consistent |
| RateLimiter.Limiter.RemoveKey | internal/ratelimit/limiter.go:267-281 | removes one key from the map, its own list and the one-shot count, and nothing else |
| RateLimiter.Limiter.File | internal/ratelimit/limiter.go:188-201 | files a key at the front of the list of its state, out of the other one |
| RateLimiter.Limiter.EvictPass | internal/ratelimit/limiter.go:240-262 | one pass removes the first n candidates of its list from the back and keeps the order of the rest |
| RateLimiter.Limiter.EvictLocked | internal/ratelimit/limiter.go:227-265 | the three passes remove exactly the first n keys of one eviction order, although the first is skipped when the counter is zero |
| RateLimiter.Limiter.Trim | internal/ratelimit/limiter.go:170-184 | a pass removes at least one key if there is any, never more than there are, and otherwise nine tenths of the cap up to rounding down |
| RateLimiter.Limiter.Allow | internal/ratelimit/limiter.go:128-168 | one request is the function that the theorems on reachable states, rate and wait are about, answer and state alike |
| RateLimiter.Limiter.SecondsUntilNextToken | internal/ratelimit/limiter.go:285-300 | the advertised wait, changing nothing |
| RateLimiter.Limiter.SweepList | internal/ratelimit/limiter.go:338-345 | sweeping a list from the back removes its idle tail |
| RateLimiter.Limiter.Cleanup | internal/ratelimit/limiter.go:331-346 | an idle sweep removes both idle tails and nothing else |
| LimiterRuns.EvictExactly | internal/ratelimit/limiter.go:175-265 | evicting n keys removes exactly n, changes no remaining entry, and every survivor ranks above every victim |
| LimiterRuns.EvictionPreference | internal/ratelimit/limiter.go:203-226 | a blocked key goes only when no active one remains, a repeat visitor only when no active one-shot key does, and within a class the longest idle goes first |
| LimiterRuns.VictimsInOrder | internal/ratelimit/limiter.go:227-265 | any two keys of the eviction order are in the order of preference |
| LimiterRuns.VictimsCover | internal/ratelimit/limiter.go:227-265 | the eviction order lists every tracked key once |
| LimiterRuns.ReachableStatesAreSafe | internal/ratelimit/limiter.go:128-281 | after any events: the two lists partition the keys, a key is in the blocked list exactly when it has less than a token, the one-shot count is exact, and the cap holds |
| LimiterRuns.ReachableStatesAreTimed | internal/ratelimit/limiter.go:188-201 | under a clock that does not run back both lists stay ordered by last use, and tokens stay within the burst, also when a sweep uses a clock read before requests that precede it |
| LimiterRuns.SweepIsExact | internal/ratelimit/limiter.go:331-346 | stopping at the first key in use still removes every idle key of the limiter |
| LimiterRuns.SweepsChangeNoAnswer | internal/ratelimit/limiter.go:331-346 | without a cap, and when an idle bucket is a full one, a run with any sweeps, however late, answers every request like the run without them |
| LimiterRuns.SweepsInvisibleExactly | internal/ratelimit/limiter.go:331-346 | without a cap, sweeps never change an answer exactly when an idle bucket has had time to fill |
| LimiterRuns.RepeatAnswers | internal/ratelimit/limiter.go:152-167 | n requests at one time are all allowed exactly when the key has n tokens |
| LimiterRuns.AllowExactly | internal/ratelimit/limiter.go:128-168 | with any cap a request is allowed exactly when the bucket, refilled up to the burst for the elapsed time, or full for a new key, holds a token; the key is then tracked with what is left, this time and one more hit |
| LimiterRuns.DisabledAllowsAll | internal/ratelimit/limiter.go:128-133 | without a rate every request is allowed and nothing changes |
| LimiterRuns.OthersAfterAllow | internal/ratelimit/limiter.go:138-146 | a request changes no other entry and drops others only when a new key meets the cap, and then exactly the trim count |
| LimiterRuns.RateBound | internal/ratelimit/limiter.go:128-168 | in any stretch of any run a key is allowed at most burst plus rate times the time, and one burst more for each time it is dropped with a bucket that is not full |
| LimiterRuns.UncappedNeverRefunds | internal/ratelimit/limiter.go:331-346 | without a cap, and when an idle bucket has had time to fill, no such drop happens |
| LimiterRuns.UndroppedRateBound | internal/ratelimit/limiter.go:128-168 | then, or while the key stays tracked, the bound is burst plus rate times the time |
| LimiterRuns.HitsCountVisits | internal/ratelimit/limiter.go:147-150 | while a key stays tracked its hit count is the number of its requests, denied ones included |
| LimiterRuns.WaitIsExact | internal/ratelimit/limiter.go:285-300 | a denied key is allowed at a time exactly when the advertised wait has passed |
| LimiterRuns.NoWaitIsNeeded | internal/ratelimit/limiter.go:285-300 | a key with a token, or a new one, is told no wait and is allowed |
| Text.PathPrefixIsSuffix | internal/domaintrie/trie.go:257-338 | for host names, sharing labels from the top is being the name or ending in a dot and the name |
| TrieRules.StoredDomain | internal/domaintrie/trie.go:193-299 | with an IDNA that is the identity on lower-case ASCII, what normalisation leaves of an ASCII rule: lower case, no wildcard, no double or trailing dot, registrable |
| TrieMeaning.FieldsStored | internal/domaintrie/trie.go:278-299 | the fields of an accepted rule: exact scope only when asked for without a wildcard, a known category or unknown, always a block, its own source |
| TrieMeaning.HostIsStored | internal/domaintrie/trie.go:242-276 | with an IDNA that is the identity on lower-case ASCII, a host name in any case, alone, behind a wildcard or before a dot, is stored as that name exactly when it is registrable and the action is none or block |
| TrieMeaning.ConvertedIsStored | internal/domaintrie/trie.go:191-204 | a name whose converted form is a host is stored under that form |
| TrieMeaning.InnerWildcardsAreRefused | internal/domaintrie/trie.go:205-214 | with an IDNA that is the identity on lower-case ASCII, a name with a wildcard inside is refused |
| TrieRules.StableExactly | internal/domaintrie/trie.go:242-299 | with an IDNA that is the identity on lower-case ASCII, adding a stored ASCII rule again stores it unchanged exactly when no white space surrounds its domain |
| TrieRules.UnstableShrinks | internal/domaintrie/trie.go:242-299 | with an IDNA that is the identity on lower-case ASCII, a stored rule with white space around its domain is stored again under a strictly shorter name, or refused |
| TrieRules.StableInAnyScript | internal/domaintrie/trie.go:193-299 | a stored rule of any script is stored again unchanged exactly when queries for its domain are normalised to that domain; IDNA may convert, but must return lower case, no white space, and more than the same name with other dots |
| TrieRules.WildcardSkipsIdna | internal/domaintrie/trie.go:193-254 | an international name behind a wildcard is stored unconverted when IDNA refuses the whole entry |
| TrieRules.BlankAfterWildcardIsUnstable | internal/domaintrie/trie.go:205-214 | the entry `*. a.b` is stored as ` a.b`, which would be stored again as `a.b` |
| TrieRules.BlankBeforeDotIsUnstable | internal/domaintrie/trie.go:258-265 | the entry `a.b .` leaves a stored rule that would not be stored again |
| TrieTable.IngestLookup | internal/domaintrie/trie.go:231-338 | after any rules a slot holds what it held before, else the earliest accepted rule for it |
| TrieTable.MergeIsUnion | internal/domaintrie/trie.go:457-474 | merging a trie of stable rules gives the union in which the destination wins, in whatever order the rules are walked |
| TrieTable.StagingIsTransparent | internal/domaintrie/trie.go:457-474 | decoding into a staging trie of stable rules and merging it equals inserting the rules directly |
| TrieTable.MergeExactly | internal/domaintrie/trie.go:457-474 | with an IDNA that is the identity on lower-case ASCII, merging a table of stored ASCII rules into an empty trie gives it back exactly when no stored domain has white space around it, for each order of the walk |
| TrieTable.MergesBackExactly | internal/domaintrie/trie.go:457-474 | with an IDNA that is the identity on lower-case ASCII, a table ingested from ASCII rules merges back to itself in every order exactly under that condition |
| TrieTable.StagingIsTransparentExactly | internal/risk/adblock_io.go:320-337 | with an IDNA that is the identity on lower-case ASCII, staging ASCII rules and merging them equals inserting them directly, into every trie and in every order, exactly under that condition |
| TrieTable.BlankIsLostInMerge | internal/risk/adblock_io.go:388-410 | the legacy cache line `*. a.b` stages a rule for ` a.b` that merges as a rule for `a.b` |
| TrieTable.OneRuleAnswersExactly | internal/domaintrie/trie.go:351-401 | a trie with one rule answers a query exactly when the form it is normalised to is the stored name or, for a suffix rule, lies below it |
| TrieMeaning.WildcardsAnswerBelow | internal/domaintrie/trie.go:250-285 | an accepted rule written with a wildcard answers its stored name and every name below it, whatever scope was passed |
| TrieMeaning.ScopeDecides | internal/domaintrie/trie.go:278-289 | one without a wildcard answers its name only when its scope was exact, and below it too for any other scope |
| TrieTable.InternationalWildcardMisses | internal/domaintrie/trie.go:191-254 | such a rule answers no query for its name, in Unicode or in Punycode |
| TrieTable.PlainIngestStable | internal/risk/adblock_io.go:261-320 | with an IDNA that is the identity on lower-case ASCII, ASCII rules without white space leave only rules that merge unchanged |
| TrieTable.MatchIsScan | internal/domaintrie/trie.go:351-401 | the trie answers like a scan of the accepted rules: the earliest exact rule, else the earliest of the deepest suffix rules at or above the query |
| TrieMeaning.AnswerIs | internal/domaintrie/trie.go:351-401 | the answer in terms of names: a rule at or above the query, an exact one if there is any, else one with the longest name, and among rules stored alike the first that was added |
| TrieTable.AnswerIsUnique | internal/domaintrie/trie.go:351-401 | that order of preference singles out one rule of the list |
| DomainTrie.Node.FindChild | internal/domaintrie/trie.go:136-151 | binary search finds the child of a label exactly when there is one |
| DomainTrie.Node.AddChild | internal/domaintrie/trie.go:154-173 | inserts a new child in place or returns the existing one, and keeps the children sorted |
| DomainTrie.SanitizeDomain | internal/domaintrie/trie.go:205-214 | stripping wildcard prefixes and refusing interior wildcards |
| DomainTrie.CollapseDots | internal/domaintrie/trie.go:261-265 | replacing double dots until none is left |
| DomainTrie.Trie.Insert | internal/domaintrie/trie.go:301-314 | walks and extends the tree to the node of a domain; the stored rules do not change |
| DomainTrie.Trie.Prepare | internal/domaintrie/trie.go:242-299 | the checks and normalisation before insertion |
| DomainTrie.Trie.AddRule | internal/domaintrie/trie.go:242-338 | first-wins insertion: the table gains the normalised rule exactly when it is accepted and its slot is free, with tree shape, sortedness and counters kept |
| DomainTrie.Trie.MatchRuleDetail | internal/domaintrie/trie.go:359-401 | the walk over the labels returns the best rule of the table and the normalised query |
| DomainTrie.Trie.Walk | internal/domaintrie/trie.go:430-452 | the recursive walk lists every rule at and below a node in reverse-label order |
| DomainTrie.Trie.ForEach | internal/domaintrie/trie.go:425-454 | every stored rule is visited once, exact before suffix, parents before children, siblings by label |
| DomainTrie.WalkIsDeterministic | internal/domaintrie/trie.go:420-424 | a table has only one such order, so every walk of it is the same |
| DomainTrie.Trie.MergeFrom | internal/domaintrie/trie.go:462-474 | merging ingests the walked rules, counts exactly the new ones, and is the union for stable sources |
| DomainTrie.Trie.AddAll | internal/domaintrie/trie.go:467-472 | inserting a list of rules is its first-wins ingest, and the count is the growth of the table |
| DomainTrie.Trie.Count | internal/domaintrie/trie.go:484-505 | the two counters add up to the number of stored rules |
| TrieCache.LineRoundTrip | internal/domaintrie/trie.go:570-631 | a stored rule is read back from its record, up to its origin, exactly when its domain and source are non-empty, free of tabs, and the source does not end in a carriage return |
| CacheMeaning.RecordExactly | internal/domaintrie/trie.go:597-631 | a line is a record exactly when it reads as a non-empty domain, a known scope, a known category, the block action and a non-empty source between tabs, and which rule it is |
| CacheMeaning.FileIs | internal/domaintrie/trie.go:556-595 | the file is the version header and one line a rule, fields in that order |
| CacheMeaning.FileMeans | internal/risk/adblock_io.go:356-396 | a header on the first line makes a file version 2; without it the first line is already a domain |
| CacheMeaning.LinesMean | internal/risk/adblock_io.go:360-396 | what a line adds: in version 2 its record or nothing, in a legacy file a suffix rule of unknown category, and a blank line nothing |
| CacheMeaning.ScanIs | internal/risk/adblock_io.go:351-361 | the lines of a text, and that one line over the limit fails the whole scan |
| TrieCache.Render | internal/domaintrie/trie.go:556-595 | the header and one record per rule |
| TrieCache.WriteToV2 | internal/domaintrie/trie.go:556-595 | the file lists every rule of the trie once, in walk order |
| TrieCache.Decode | internal/risk/adblock_io.go:351-400 | decoding ingests the records of the lines, version 2 or legacy, into a staging trie |
| TrieCache.ParseAdblockCache | internal/risk/adblock_io.go:347-412 | a cache that cannot be read whole or holds no rule changes nothing; any other is merged whole |
| TrieCache.CacheRoundTrip | internal/domaintrie/trie.go:551-631 | writing a trie whose rules the format can hold and reading the file back restores every rule's domain, scope, category, action and source |
| TrieCache.CacheRoundTripExactly | internal/domaintrie/trie.go:551-631 | with an IDNA that is the identity on lower-case ASCII, a trie built from ASCII rules with ASCII sources comes back from its file, written in any order, exactly when every stored domain is free of surrounding white space, domains and sources are free of tabs and line breaks, sources are non-empty and do not end in a carriage return, and every record fits on a line |
| AdblockSync.SourceRulesPlain | internal/risk/adblock_io.go:261-320 | a list that is ASCII outside its comments yields only ASCII rules without white space, labelled with its source |
| AdblockLists.LineAddsItsNames | internal/risk/adblock_io.go:261-320 | a line with words, whatever white space and comment surround them, adds one rule for every name, in order, except those of the local host; an address in front is skipped; the section in force decides the category |
| AdblockLists.AddressIsSkipped | internal/risk/adblock_io.go:298-316 | a hosts-file line adds exactly what the line without its address adds |
| AdblockLists.EmptyLineAddsNothing | internal/risk/adblock_io.go:285-296 | an empty line, or a comment that is no marker, adds nothing and keeps the section |
| AdblockLists.MarkerExactly | internal/risk/adblock_io.go:237-259 | a comment is a start marker exactly when it reads Start and one more word, an end marker exactly when its first word is End |
| AdblockLists.SectionLasts | internal/risk/adblock_io.go:268-284 | the category of a section applies from its start marker to the next end marker, and to no line after it |
| AdblockLists.UncommentedFields | internal/risk/adblock_io.go:285-293 | the words of a line are those before its comment |
| AdblockSync.ParseInto | internal/risk/adblock_io.go:261-320 | the scanner loop with its section state adds exactly the rules of the lines, in order |
| AdblockSync.ParseAdblockSource | internal/risk/adblock_io.go:327-337 | a list that fails while it is read adds nothing; any other is ingested whole |
| AdblockSync.RemoteContributesExactly | internal/risk/adblock_sync.go:186-241 | a remote source with a readable cache contributes a list exactly when its first fetch is not a body that fails to scan or to be saved |
| AdblockLists.LocalContributesExactly | internal/risk/adblock_sync.go:171-184 | a local source contributes its lines exactly when it can be opened and read to its end |
| AdblockLists.RemoteContributes | internal/risk/adblock_sync.go:186-241 | what a remote source contributes, with or without a cache: the body of the deciding fetch when it was read and saved, without a body the cached lines when they can be read, else nothing |
| AdblockSync.UnsavedBodyBlocksCache | internal/risk/adblock_io.go:414-418 | a body that cannot be saved next to a readable cache: nothing is contributed, where a failed fetch would have used the cache |
| AdblockSync.AdblockEngine.SaveSourceCache | internal/risk/adblock_io.go:414-450 | rules are merged only once the cache file is in place; what each failure leaves behind |
| AdblockSync.AdblockEngine.LoadSourceCache | internal/risk/adblock_io.go:476-488 | the cached list is ingested whole or not at all |
| AdblockSync.AdblockEngine.SyncSource | internal/risk/adblock_sync.go:171-241 | one source contributes its decisive fetch, its cache, or nothing, and leaves the cache as stated |
| AdblockSync.AdblockEngine.BuildTrie | internal/risk/adblock_sync.go:146-246 | the new trie is the sequential ingest, in configuration order, of the sources that succeeded; failed sources contribute no rule |
| AdblockLists.SourcesInTurn | internal/risk/adblock_sync.go:146-246 | sources are taken in the order of the configuration, each with its own label and after the cache writes of those before |
| AdblockLists.EarlierSourcesWin | internal/risk/adblock_io.go:320-326 | where two sources list a name with the same scope the rule of the earlier one stays |
| AdblockLists.PublishesExactly | internal/risk/adblock_sync.go:243-278 | a sync counts as a success exactly when some source, in its turn, contributes |
| AdblockSync.AdblockEngine.SyncAdblockLists | internal/risk/adblock_sync.go:146-278 | a success publishes that ingest and leaves the global cache saved, as it was, or lost; total failure never replaces rules in force and falls back to the global cache only when there are none |
| AdblockSync.AdblockEngine.Publish | internal/risk/adblock_sync.go:243-310 | the new trie is in force whatever becomes of the cache; a rename that fails leaves no cache file |
| AdblockSync.AdblockEngine.RebuildAdblockRules | internal/risk/adblock_sync.go:138-144 | a disabled engine drops its rules, an enabled one syncs |
| AdblockSync.SyncRulesStable | internal/risk/adblock_sync.go:171-241 | with an IDNA that is the identity on lower-case ASCII, what ASCII sources contribute merges without change |
| AdblockSync.RestartRestores | internal/risk/adblock_sync.go:262-323 | the table written to the global cache comes back whole, up to origins, after a restart in which every source fails |
| AdblockSync.PublishedComesBackExactly | internal/risk/adblock_sync.go:243-262 | with an IDNA that is the identity on lower-case ASCII, what ASCII sources with digest identifiers publish can be written to the cache and read back exactly when every record fits on a line; otherwise the file is unreadable |
| AdblockSync.LongNameLosesAll | internal/risk/adblock_io.go:347-412 | a list line that the list scanner accepts and whose record does not fit: the saved file yields no rule of any source |
| AdblockSync.LongPath | internal/analysis/registrable.go:19-26 | a registrable name of that length, a host and a long path |
| AdblockSync.RestartAfterSync | internal/risk/adblock_sync.go:243-323 | after a published sync, a restart and a sync in which every source fails, with an IDNA that is the identity on lower-case ASCII and ASCII sources with digest identifiers: the rules in force are the published ones, up to origins, when the cache was saved and every record fits on a line, and none when one does not; those of the old file when it was kept; none when it was lost |
| ExceptionRules.CheckedEntry | internal/risk/adblock_exceptions.go:286-337 | an accepted entry has host names for both domains, known scopes, a registrable suffix selector, and a selector that meets its rule |
| ExceptionMeaning.FieldsAreKept | internal/risk/adblock_exceptions.go:286-353 | what becomes of the fields of an accepted entry: nothing is widened, and it is for every category only when none was written |
| ExceptionMeaning.AcceptedExactly | internal/risk/adblock_exceptions.go:286-337 | which entries pass, in terms of their raw fields |
| ExceptionMeaning.ProperNamesAreAccepted | internal/risk/adblock_exceptions.go:164-199 | a host name that IDNA leaves alone is accepted as itself, in any case and with white space around it |
| ExceptionMeaning.AcceptedNamesAreProper | internal/risk/adblock_exceptions.go:164-199 | what is accepted as a domain is a host name, and the field held no path, port, wildcard or blank |
| ExceptionMeaning.SourceExactly | internal/risk/adblock_exceptions.go:244-260 | a source is a reserved label as written or a digest of 32 hexadecimal digits, in lower case |
| ExceptionMeaning.DigestsIgnoreCase | internal/risk/adblock_exceptions.go:238-243 | a digest in either case is accepted as the same source |
| ExceptionRules.SelectorKeyIsInjective | internal/risk/adblock_exceptions.go:338-343 | the joined key is equal exactly for equal selectors |
| ExceptionRules.IntersectExactly | internal/risk/adblock_exceptions.go:201-222 | the selector test holds exactly when some name is covered by both selectors on label boundaries |
| ExceptionRules.AcceptedFiresExactly | internal/risk/adblock_exceptions.go:330-337 | some trie built by adding rules returns, for some query, a rule that the accepted entry suppresses, exactly when the rule it names is registrable |
| ExceptionRules.UnregistrableRuleIsAccepted | internal/risk/adblock_exceptions.go:330-337 | an accepted entry that names the rule `com` and can never fire |
| ExceptionRules.ReturnedIsRegistrable | internal/domaintrie/trie.go:267-276 | a trie built by adding rules returns registrable rules only |
| ExceptionRules.RejectedNeverFires | internal/risk/adblock_exceptions.go:335-337 | an entry the test rejects fires for no rule that any trie returns for any query |
| ExceptionRules.WinnerIsUnique | internal/risk/adblock_exceptions.go:475-504 | at most one entry wins for a query and a rule |
| ExceptionRules.OrderDoesNotMatter | internal/risk/adblock_exceptions.go:455-458 | with distinct selectors the answer is the same for every order of the file |
| Exceptions.Validate | internal/risk/adblock_exceptions.go:265-356 | a file is accepted exactly when every entry passes its checks, ids and selectors are distinct, and version and size are right; each refusal has its class |
| Exceptions.PutIndexes | internal/risk/adblock_exceptions.go:371-398 | one turn of the build loop keeps both index levels equal to the last entry per key |
| Exceptions.LookedExactly | internal/risk/adblock_exceptions.go:459-474 | the two lookups in a bucket find the entry a scan of that selector would prefer, or show there is none |
| Exceptions.NextParent | internal/risk/adblock_exceptions.go:489-502 | cutting at the first dot skips no name at or above the query |
| Exceptions.Snapshot.constructor | internal/risk/adblock_exceptions.go:365-403 | the build loop indexes exactly the given entries |
| Exceptions.Snapshot.Match | internal/risk/adblock_exceptions.go:481-504 | the lookup answers like a scan of all entries: exact selectors first, deeper suffixes before shallower, a category before none; none exactly when no entry fires |
| ExceptionMeaning.SuppressesExactly | internal/risk/adblock_exceptions.go:265-504 | validation and lookup together: a rule is suppressed for a query exactly when some entry of the file, as written, is about both, and then by one of those |
| ExceptionMeaning.OtherCategoriesAreSafe | internal/risk/adblock_exceptions.go:262-264 | an entry that names a category suppresses no rule of another |
| ExceptionMeaning.PreferenceIs | internal/risk/adblock_exceptions.go:475-504 | an exact entry before any suffix entry, a longer name before a shorter, at one name the category before none |
| RevisionEncoding.SortIsUnique | internal/risk/adblock_exceptions.go:413-438 | a list has only one ordered permutation under the eight-field order |
| RevisionEncoding.Sort | internal/risk/adblock_exceptions.go:411-438 | sorting yields that permutation |
| RevisionEncoding.Encode | internal/risk/adblock_exceptions.go:410-453 | the loop writes separator, count and eight length-framed fields of the entries in sorted order |
| RevisionEncoding.FramesReadBack | internal/risk/adblock_exceptions.go:112-127 | a length-framed string followed by anything reads back in one way only |
| RevisionEncoding.EncodingIsInjective | internal/risk/adblock_exceptions.go:405-453 | different sorted lists never have the same bytes, whatever their fields contain |
| RevisionEncoding.RevisionIdentifiesEntries | internal/risk/adblock_exceptions.go:405-453 | the digested bytes of two lists are equal exactly when the lists are permutations of each other |
| RevisionEncoding.SameRevisionSameAnswers | internal/risk/adblock_exceptions.go:358-364 | lists with the same bytes answer every lookup alike |
| TaskEngine.Engine.Trigger | internal/agent/engine.go:150-167 | the first task of the name decides; only an accepted trigger enters the queue |
| TaskEngine.Engine.StartLocks | internal/agent/engine.go:113-120 | only the first call goes on to launch the scheduler |
| TaskEngine.Engine.StopLocks | internal/agent/engine.go:131-138 | only one call goes on to shut down and wait |
| TaskEngine.Engine.ReadsDue | internal/agent/engine.go:219-236 | the loop under the lock collects the due tasks in order |
| TaskEngine.Engine.Executes | internal/agent/engine.go:265-273 | the lock region starts a run unless the engine is stopped or the task is running |
| TaskEngine.Engine.Finds | internal/agent/engine.go:248-263 | resolves a queued name to the first task of that name |
| TaskEngine.Engine.SetTaskResult | internal/agent/engine.go:338-351 | records a completion, a failure or a panic |
| EngineRuns.EveryInterleavingIsSafe | internal/agent/engine.go:99-351 | in every interleaving: at most one run per task, marked running exactly then; only enabled tasks run or wait in the bounded queue; a scheduled run keeps its interval; counters equal completions and failures, and each record is that of the latest completion; the wait group counts the goroutines |
| EngineRuns.OneRunKept | internal/agent/engine.go:265-273 | no step lets a task have two runs in progress |
| EngineRuns.QueueKept | internal/agent/engine.go:150-167 | the queue holds only names whose first task is enabled, whatever is registered later |
| EngineRuns.LogKept | internal/agent/engine.go:219-246 | a scheduled run starts no sooner than the interval after each earlier completion |
| EngineRuns.CountedKept | internal/agent/engine.go:338-351 | run and error counts equal completions and failures, begun runs are completed or in progress |
| EngineRuns.RecordedKept | internal/agent/engine.go:338-351 | last run, last error and failed state are those of the latest completion |
| EngineRuns.StoppedStartsNothing | internal/agent/engine.go:265-270 | once Stop has taken the lock no run begins |
| EngineRuns.DuePassStartsAllDue | internal/agent/engine.go:219-273 | a pass of a running engine starts every due task, in order of registration, and no other |
| EngineRuns.PassBeginsExactly | internal/agent/engine.go:219-246 | a pass begins a task exactly when it is enabled, not running, and never completed or completed an interval ago, whether that run failed or not |
| EngineRuns.EndIsRecorded | internal/agent/engine.go:338-351 | what the end of a run records: the time, one more run, the error or none, and for an error one more failure |
| EngineRuns.TriggeredTaskStarts | internal/agent/engine.go:248-273 | a received trigger starts the first task of its name unless that is running |
| EngineRuns.ReturnedIsFinal | internal/agent/engine.go:131-147 | after the shutting-down Stop returned nothing runs and nothing ever happens to a task |
| EngineRuns.StopCanReturn | internal/agent/engine.go:131-147 | from every reachable state in which Stop waits, some continuation lets it return |
| EngineRuns.StopEndsTheLoopExactly | internal/agent/engine.go:113-147 | when Stop returns the scheduler is not running, and stays so in every continuation exactly when no Start call is between its unlock and its launch |
| EngineRuns.StartedFirst | internal/agent/engine.go:113-147 | a Stop after a Start that has returned ends the scheduler for good |
| EngineRuns.OvertakenStart | internal/agent/engine.go:113-147 | a run in which the scheduler starts after Stop returned |
| AlertTask.Task.constructor | internal/agent/alert.go:112-162 | a process starts at the stored cursor, or at the current second when there is none it can read |
| AlertTask.Task.AdvanceCursor | internal/agent/alert.go:175-200 | memory moves first; a failed write keeps the progress in memory |
| AlertTask.Task.Run | internal/agent/alert.go:202-331 | for every script of arrivals, failures and crashes the paging loop delivers, stores and ends like the cycle the theorems below are about |
| AlertRuns.PrefixIsSlice | internal/store/telemetry.go:402-452 | a keyset page is the slice of wanted events between two cursors, and the rest stays pending |
| AlertRuns.PendingExactly | internal/store/telemetry.go:402-452 | what is pending: the auto-block and feed-error events after the cursor by time and id, ascending, a hundred to a page |
| AlertRuns.PagesAreContiguous | internal/agent/alert.go:246-318 | in any life a running process has delivered exactly the wanted events between its start and its cursor, in order, once each |
| AlertRuns.NothingIsLost | internal/agent/alert.go:67-75 | at every point of a life every wanted event after the start is delivered on all channels or still ahead of both cursors, exactly when no restart falls back past an undelivered one; the stored cursor never passes the other, exactly when none falls back in the second of the stored event |
| AlertRuns.StepExactly | internal/agent/alert.go:112-162 | the same for one step of any kind |
| AlertRuns.FallbackExactly | internal/agent/alert.go:126-139 | a fallback is harmless if no wanted event lies between the lost cursor and the current second, and only then unless a crash cut off a delivered page |
| AlertRuns.FallbackSkips | internal/agent/alert.go:126-139 | an event before the first stored cursor, a crash and a restart: never delivered, no longer pending |
| AlertRuns.CleanCycleDrains | internal/agent/alert.go:246-318 | a cycle without failures delivers the pending events in order, up to 20 pages of 100 |
| AlertRuns.GatedCycle | internal/agent/alert.go:202-245 | without channels, without a count, or with fewer events than the minimum nothing is sent; else the page loop runs |
| AlertRuns.FailureLeavesThePage | internal/agent/alert.go:246-318 | a page that cannot be queried or sent ends the cycle as failed and leaves the cursor |
| AlertRuns.SentMovesOn | internal/agent/alert.go:246-318 | a page that was sent moves the cursor to its last event, and only a full page is followed by another |
| AuditTask.Task.constructor | internal/agent/audit.go:108-138 | defaults filled in, and the stored cursor or a fresh window |
| AuditTask.Task.StoreCursor | internal/agent/audit.go:213-242 | memory moves first; a failed write keeps the progress in memory |
| AuditTask.Task.Run | internal/agent/audit.go:244-335 | for every script of audit results, cancellation and crashes the page loop audits, stores and retires like the cycle the theorems below are about |
| AuditRuns.PageIs | internal/store/telemetry.go:486-538 | a page is ascending, holds only qualifying domains after the resume point, and leaves one out only when full and greater |
| AuditRuns.InWindowExactly | internal/store/telemetry.go:496-511 | which times the text comparison counts into a window |
| AuditRuns.CountsOccurrences | internal/store/telemetry.go:486-538 | the count of a domain is the number of its entries in the window |
| AuditRuns.PrefixAudited | internal/agent/audit.go:282-327 | the audited prefix of a page, with what the cursor vouches for, is everything up to its last domain |
| AuditRuns.CleanCycleAdvances | internal/agent/audit.go:282-335 | a cycle without failures audits exactly the next page of the remaining domains and moves past it, or all of them and retires the window |
| AuditRuns.CycleEnds | internal/agent/audit.go:282-335 | a cycle that fails or is cancelled after n audits: what it audited, where it stands, what it stored, how it ended |
| AuditRuns.WindowExactly | internal/agent/audit.go:256-267 | which window a cycle takes: the stored one while it has progress or is recent, else a new one |
| AuditRuns.DefaultsAre | internal/agent/audit.go:108-125 | the defaults: three occurrences, fifty domains, one day |
| AuditRuns.AuditedUpToTheCursor | internal/agent/audit.go:213-335 | at every point of a life every qualifying domain up to the cursor, in memory or stored, was audited in its window, and a window was retired only when all were, exactly when no entry arrives that makes a passed domain qualify unaudited |
| AuditRuns.StepExactly | internal/agent/audit.go:213-335 | the same for one step of any kind |
| AuditRuns.ProgressKeepsTheWindow | internal/agent/audit.go:261-267 | a window with progress is resumed or retired, never replaced |
| AuditRuns.LateEntryExactly | internal/agent/audit.go:282-327 | an entry added to a window in progress breaks that claim exactly when it makes a passed domain qualify unaudited |
| AuditRuns.LateEntryIsSkipped | internal/store/telemetry.go:496-502 | a life from a fresh process in which an entry logged half a second after the window's end makes a passed domain qualify, and the window is retired without it |
| AuditRuns.FreezesExactly | internal/store/telemetry.go:496-511 | the entries after the end of a window that the query still counts |
| AuditRuns.WindowsMeetExactly | internal/agent/audit.go:328-331 | two successive windows leave no time uncovered exactly when the new end is at most about a lookback later |
| FeedAdmission.BoundedSeenSet.Mark | internal/feed/parse.go:195-205 | an unseen domain counts as a duplicate exactly when the set is full, and then as overflow |
| FeedAdmission.TrackedExactly | internal/feed/parse.go:195-205 | a domain is kept exactly when the set has room at its first appearance |
| FeedAdmission.OverflowCountsOccurrences | internal/feed/parse.go:30-36 | the overflow counter is the number of occurrences of domains that were not kept |
| FeedAdmission.DeliveredAre | internal/feed/parse.go:66-72 | the callers of ParseEach see every kept domain once and no other |
| FeedAdmission.DeliveredInOrder | internal/feed/parse.go:58-72 | they see them in the order of first appearance |
| FeedAdmission.ParseEach | internal/feed/parse.go:58-72 | delivers the kept domains in order of first appearance, with exact counters |
| FeedAdmission.SummaryMeans | internal/feed/admission.go:142-181 | remembering one resource decides the class: authoritative exactly with whole-domain, pathless or IP evidence, or two different resources |
| FeedAdmission.Observe | internal/feed/admission.go:144-181 | one run of the handler keeps the states equal to the history of their hosts |
| FeedAdmission.Classify | internal/feed/admission.go:192-212 | the loops over the states give sorted, complete and disjoint lists and exact counts |
| FeedAdmission.PlanAdmission | internal/feed/admission.go:127-215 | the plan describes the stream: classes, counters and overflow under both caps |
| FeedAdmission.PlanMeans | internal/feed/admission.go:127-215 | a tracked host is authoritative exactly on evidence in the stream, so every IP host is, and in legacy mode every host |
| FeedAdmission.PlanCounts | internal/feed/admission.go:192-212 | the three counters in terms of the stream |
| FeedAdmission.SharedCapBalances | internal/feed/admission.go:133-151 | under one shared cap, valid is authoritative plus contextual, the classes are disjoint, both overflow counters agree, and together they are what ParseEach delivers |
| FeedAdmission.OrderDoesNotMatter | internal/feed/admission.go:127-215 | without a cap the whole plan is the same for every order of the feed |
| FeedExpiry.MemberTTL | internal/feed/ttl.go:75-86 | a window is positive, never above the base, and shorter only for a churn-prone host |
| FeedExpiry.MemberTTLExactly | internal/feed/ttl.go:75-86 | the churn window applies exactly to churn-prone members when it is positive and below the base; the base is the configured window or 14 days |
| FeedExpiry.ConfiguredWindowsAreWhole | internal/feed/ttl.go:15-47 | configured windows are whole seconds, an enabled churn window at least two days |
| FeedExpiry.MarginExactly | internal/feed/sync.go:337-376 | a score set by a clock read at most an interval ago survives every sweep exactly when its window exceeds the interval by a second |
| FeedExpiry.CheckedConfigHasMargin | internal/feed/ttl.go:54-66 | settings in whole units that pass the startup check leave, for every member, a margin over interval and sync time when the unit exceeds the sync time by a second |
| FeedExpiry.CheckedConfigWithoutMargin | internal/feed/ttl.go:38-66 | a churn window of two days and an interval a nanosecond below it pass the check and are not enough, nor is an interval a second below it when a sync takes any time |
| FeedExpiry.ThreatFeed.QueueAll | internal/feed/sync.go:316-367 | the batching closures write a whole number of batches before a failure, and the failing one too when only its answer is lost, and all members otherwise, each with its own score, among whatever other processes do before each flush |
| FeedExpiry.ThreatFeed.Flush | internal/feed/sync.go:316-327 | a flush writes the waiting batch, to the key or to the staging set |
| FeedExpiry.ThreatFeed.CleanUp | internal/feed/sync.go:369-392 | the sweep by its own clock read, and the rename of a staging set that is not empty, whose answer may be lost |
| FeedExpiry.ThreatFeed.Rename | internal/feed/sync.go:378-392 | refusals of an empty parse and an empty set; otherwise the staging set takes the place of the feed |
| FeedExpiry.ThreatFeed.Run | internal/feed/sync.go:293-392 | for every failure and every interleaving with other processes a sync is the sequence of operations the theorems below are about: clock read, batch writes by that clock, sweep, rename |
| FeedRuns.OneStep | internal/feed/sync.go:304-392 | what one operation does to one member: rewritten when listed, removed by a sweep of its score or by a rename that leaves it out, otherwise kept |
| FeedRuns.SyncAlone | internal/feed/sync.go:293-376 | what a completed sync that no other process disturbs leaves, member by member: listed ones rescored, others kept, expired ones swept when it sweeps |
| FeedRuns.ReplaceAlone | internal/feed/sync.go:378-392 | the same for a replace sync: exactly the listed members, scored, or the old feed when there would be none |
| FeedRuns.AheadExactly | internal/feed/sync.go:304-392 | in every interleaving of any writers a member is in the feed and ahead of the clock at all times exactly when its last write is current at all times and no replace sync leaves it out; no sweep takes it away |
| FeedRuns.ListedNeverExpires | internal/feed/sync.go:304-376 | in every interleaving a member whose score is never older than its window less a second stays in the feed, ahead and matching |
| FeedRuns.WindowExactly | internal/feed/sync.go:304-376 | that holds in all runs exactly when the window exceeds the age by a whole second |
| FeedRuns.PromptSyncsRelist | internal/feed/sync.go:200-206 | a member written within every period by syncs that take no longer than a timeout has a score no older than both together |
| FeedRuns.CheckedSyncsNeverExpire | internal/feed/ttl.go:49-66 | when every writer's base window exceeds the interval, its churn window passes the startup check, and all are whole units that exceed two sync timeouts by a second, a member that every period's syncs list is never swept, stays ahead and matches, in every interleaving of the writers |
| FeedRuns.NeverFallsExactly | internal/cache/redis.go:394-402 | in every interleaving a member's score never falls exactly when no write is scored by an earlier end of the window than the last one |
| FeedRuns.SerialSyncsRise | internal/feed/sync.go:304-376 | so it never falls when no writer reads its clock between another's clock read and write and all give the member the same window |
| FeedRuns.SyncsInTurnAreSerial | internal/feed/sync.go:293-392 | syncs one after the other are such a run, failed, partial and replace syncs included |
| FeedRuns.OverlappingSyncsFall | internal/feed/sync.go:304-316 | two overlapping syncs of one member after which its score is lower than before |
| FeedRuns.DroppedStopsMatching | internal/risk/feed.go:185-215 | a member no operation writes any more matches no later than the second in which the window of its last write ends |
| FeedRuns.ChurnProneStopsSooner | internal/feed/ttl.go:67-86 | a churn-prone member that nothing writes any more matches at no time a second past its churn window |
| FeedRuns.MatchesExactly | internal/risk/feed.go:185-215 | until a sweep it matches exactly through that second |
| FeedRuns.ReplaceNeverEmpties | internal/feed/sync.go:378-392 | a rename changes nothing or installs a non-empty feed of the listed members, scored by the sync's clock |
| FeedRuns.FailedReplaceLeavesNothing | internal/feed/sync.go:351-392 | a replace sync whose rename takes effect ends with it and reports success unless the answer was lost; any other leaves the feed as the other writers made it |

## Left out

- Network, disk, Redis and SQLite: ordered logs, maps and scripted outcomes. Store pages are ascending keyset pages, alert event ids grow, and clocks do not run backwards.
- IDNA conversion, public-suffix, IP, shared-host and churn tests are parameters; of IDNA only its identity on lower-case ASCII is assumed, and only where a row says so (`TrieRules.StableInAnyScript` has an assumption of its own). `golang.org/x/net` is not part of this model.
- JSON decoding, URL and CSV parsing, SHA-256: the revision theorem is about the bytes before hashing, the classifier starts from parsed indicators.
- Strings are sequences of characters. Lower-casing is ASCII and white space is that of Latin-1; invalid UTF-8 is not modelled, and lengths count characters. For rules that are not ASCII it is stated which are stored again unchanged, and that tables of such rules merge unchanged, not the converse for whole tables.
- Floating point is `real` in the limiter and half-units in the weighted distance; the 32-bit one-shot counter does not wrap.
- RateLimiter.Limiter.File: buckets are values in the map and lists hold keys, so pointer identity of list elements is not captured.
- TaskEngine.Engine.Executes: tasks are values in a sequence; aliasing of the registered task objects is not captured. Task timeouts, logging and the telemetry of panics are not modelled.
- EngineRuns.ReturnedIsFinal: nothing is claimed about when Stop returns; a task that never ends blocks it, and fairness is not modelled. A second Stop call returns at once.
- DomainTrie.Trie.ForEach: a callback that stops the walk early is not modelled; every caller here visits all rules.
- TrieCache.WriteToV2: the legacy domains-only writer `WriteTo` is not modelled.
- AdblockSync.AdblockEngine.SyncSource: of a source's metadata only the decision between a body, a not-modified answer and the cache is modelled, not the header values.
- Exceptions.Snapshot.Match: the query arrives normalised; the identity on ASCII before it is not modelled.
- Exceptions.Validate: error messages are reduced to the class a reload reports. Keeping the previous snapshot on a failed reload is a plain assignment.
- RevisionEncoding.Sort: the standard library sort is an insertion sort here; the theorems hold for any sort.
- AlertRuns.NothingIsLost: an event counts as delivered when the page with it was sent on every configured channel; what each channel shows of it is not modelled.
- AuditRuns.AuditedUpToTheCursor: deletion of old log entries by retention is not modelled. The audit of one domain is an outcome; its scoring and proposals are left out.
- FeedAdmission.PlanAdmission: the retention ratio, a quotient of two counts, is left out, as is the evaluation-only summary of the filter gap.
- FeedExpiry.ThreatFeed.Run: revision counters and status writes after the data write are left out. Processes read one clock; skew between hosts is not modelled.
- The language models, TF-IDF, entropy, the result-cache epoch check, static brand and host tables, configuration, commands and metrics: floating point, case lists or plumbing.
