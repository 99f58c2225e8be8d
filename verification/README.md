# Verified models of EmareCloud's protocol code

This Dafny 4.11 project models the parts of EmareCloud that keep state over time or
translate between representations, and proves what they promise on every input and over
every run. `dafny verify dfyconfig.toml` checks all of it.

- **Linux protections** (`Netfilter`, `Plans`, `Protections`, `PlanRuns`, `PlanEffects`,
  `PartialRemoval`, `Tightening`, `Coverage`, `L7Manager`, `Decisions`). The filter table is a
  map from chains to ordered rules; the iptables commands the firewall manager issues are data, run
  by a small interpreter in which an operation that fails changes nothing. A packet is any
  predicate on rule tests, so every theorem about verdicts holds for every packet. Commands may
  be lost on the way to the host. What each protection, and any list of them, decides about every packet is told from
  the packet's tests. Removal restores all verdicts after any history, although for three
  protections it leaves a jump to an emptied chain behind; removing some protections leaves
  the firewall of the others; applying is idempotent; and it is said exactly when applying
  only tightens.
- **Emare OS text** (`Text`, `TerseParser`) and the **command multiplexer** (`ExecMulti`):
  printing with `_mq` and parsing with `_parse_emareos_terse` is a round trip; splitting the
  joined output returns the outputs exactly under a stated condition, and what the fallback
  runs a second time is stated too.
- **Caches** (`DictCache`, `RedisCache`, `StatusCache`, `SharedStatus`): lazy expiry refines eager
  expiry, the counter is a fixed-window counter, answers are never older than their ttl whatever the
  Redis server does, the circuit breaker spaces failing attempts, and a cached status is
  stale only for the reasons given, in the manager's own process and on Redis.
- **Hash chain of law 5651** (`Sorting`, `HashChain`): stamped logs verify over restarts
  that see the last entry and break where one missed it, verification finds the longest
  good prefix, edited, removed and restamped entries are found, and the last hash fixes the
  whole log.
- **EP rewards** (`RewardLedger`, `RewardProofs`): the daily cap, the cooldowns, and the
  claim protocol with awards in between.
- **Ports** (`PortRegistry`), **scheduler** (`Scheduler`, `CronJobs`), **failover**
  (`Failover`) and the **login limiter** (`LoginLimiter`).

Objects the program updates in place are classes whose methods are proved against functions
of the old state; the lemmas are about those functions. Clock readings are parameters: reals
in seconds where the program reads `time.time()` or `time.monotonic()`, whole microseconds
where it uses `datetime`. Health checks, command outcomes, transaction results, the time
stamping authority, SHA-256 and the canonical JSON form are inputs too.

Where the code and its documentation differ, the model follows the code:

- `emarefirewall/README.md:458` speaks of 16 bogon blocks; the code has 14.
- Removing `syn_flood`, `http_flood` or `l4_udp_flood` reports success, yet the rule that
  jumps to the chain stays in INPUT, because it was inserted with a match and is deleted
  without one. `L7Manager.RulesetComesBackExceptForThree` says so exactly, and
  `L7Manager.RemovingProtectionsRestoresVerdicts` that no packet can tell.
- Protections are meant to tighten. `L7Manager.ProtectionsTightenExactly` says when a list
  does so on every ruleset with the user chains at hand: exactly when `icmp_flood` is not
  among them and the chain of each of them, where there is one, refuses only what the
  protection's own rules refuse. An absent or emptied chain, the protection's own one, and
  one that only lets packets pass meet this; `L7Manager.OperatorsChainIsFlushed` gives a
  ruleset that does not, for each of the five protections with a chain.
- `_mq` leaves a backslash in an unquoted value as it is, so such a value reads back
  unchanged, while a quoted value reads back escaped. `TerseParser.ReadBackMeaning` says
  when the parsed value is the printed one and when it unescapes to it.
- A released port can never be allocated again, because its row stays and the port column is
  unique; one such row can end all default allocation (`PortRegistry.StuckForEver`), and no
  default allocation succeeds once one has failed (`PortRegistry.FailureIsForEver`).
- `verify_5651_chain` verifies only the last entries; unless these are the whole log it
  reports a break at the first of them, as `HashChain.OnlyPrefixesVerify` states.
- The comment in `scheduler.py:187` gives the 55-second guard. A task can pass it twice in a
  calendar minute, exactly when the last check of the minute comes 55 seconds after the first
  run was entered (`CronJobs.TaskFiringsInMinute`). The scheduler's 60 seconds between rounds
  do not exclude this: the task check reads its own clock, and when the jobs before it take
  less time than in the round before, checks come closer
  (`CronJobs.ShrinkingDelayFiresTwice`).
- `_invalidate_cache` can be missed by Redis. With a ttl of at most 30 seconds (the program
  uses 5) this takes a first delete that is refused while the failures in a row, this one and
  one of the second delete counted, stay below five: the server then keeps an item that the
  next read may show (`SharedStatus.FreshAfterWriteExactly`, `SharedStatus.MissedDeleteServesOldStatus`).
  A delete that is carried out without an answer does no harm, and neither does one that meets
  the open circuit or opens it, since the item expires before the circuit lets a call through.
  With a longer ttl an item can outlast the open circuit
  (`SharedStatus.OpenCircuitExposesExactly`).
- Verification does not notice an edited `chain_index`, a last entry that was edited and
  stamped anew, or last entries that were removed (`HashChain.EditedMetadata`,
  `HashChain.RestampedEntry`, `HashChain.RemovedEntry`).
- On Redis a counter that was set to 0 begins a new ttl when it is counted to 1, in memory it
  does not (`RedisCache.CounterFromZeroRestarts`).
- When the joined command of `_exec_multi` fails, every command is sent again, also those the
  shell ran already (`ExecMulti.FallbackRepeats`).

## Model

| member | source | states |
|---|---|---|
| Netfilter.RunConcat | emarefirewall/manager.py:3148-3157 | running two command lists in turn is running their concatenation |
| Netfilter.VerdictAnyRank | emarefirewall/manager.py:2233-2337 | the verdict of a packet depends on the ruleset alone, for every acyclic set of chains |
| Protections.PlansAreValid | emarefirewall/manager.py:2233-2337 | every protection's own chain only drops or returns; all but the ICMP one never accept |
| Protections.FirstTests | emarefirewall/manager.py:2236-2581 | every match that a protection other than icmp_flood refuses begins with a test that echo requests do not decide |
| Protections.ChainsAreDistinct | emarefirewall/manager.py:2856-2864 | no two protections share a chain |
| PlanRuns.CommandsAllowed | emarefirewall/manager.py:2846-2991 | applying and removing a protection touches only its own chain and its own rules in INPUT |
| PlanRuns.EffectKeepsOverlay | emarefirewall/manager.py:2236-2337 | each such operation, successful or not, keeps the operator's chains, the operator's INPUT rules in order, the policies, and at most one copy of each added rule |
| PlanRuns.RunKeepsOverlay | emarefirewall/manager.py:3148-3157 | the same over any command list with any commands lost |
| PlanRuns.OtherHooksUntouched | emarefirewall/manager.py:2236-2337 | FORWARD and OUTPUT treat every packet as before, whatever protections are installed |
| PlanRuns.WalkStripped | emarefirewall/manager.py:2856-2871 | with the protections' chains empty, the remaining jumps to them change nothing in what INPUT does to a packet |
| PlanRuns.GoneMeansRestored | emarefirewall/manager.py:2856-2871 | when every protection is gone or emptied, all verdicts are the original ones |
| PlanRuns.RemovalMakesGone | emarefirewall/manager.py:2864-2871 | a complete removal disables its protection even where `-D` and `-X` fail, and revives no other |
| PlanRuns.RemovalRestoresVerdicts | emarefirewall/manager.py:2846-2991 | after any run of applications and removals with commands lost, removing all restores every verdict at every hook |
| PlanEffects.ApplyInstalls | emarefirewall/manager.py:2236-2337 | the whole effect of an application on any ruleset: the chain refilled, the missing rules put in place |
| PlanEffects.InstalledStays | emarefirewall/manager.py:2456-2541 | applying what is applied already changes nothing |
| PlanEffects.ApplyingTwiceIsOnce | emarefirewall/manager.py:2206-2231 | applying a list twice leaves exactly the ruleset of applying it once |
| PlanEffects.OneCopyOfEachRule | emarefirewall/manager.py:2236-2337 | the number of copies of every rule in INPUT after a list: one for each rule that was missing, all others as before |
| PlanEffects.RestoredExactlyUnlessConditionalJump | emarefirewall/manager.py:2856-2871 | apply then remove gives the same ruleset exactly when the jump has no match; otherwise which ruleset it leaves |
| Tightening.WalkGrown | emarefirewall/manager.py:2236-2337 | refilling chains with rules that cover what they held makes every chain that leads to them at least as strict |
| Tightening.InstallingTightens | emarefirewall/manager.py:2236-2337 | one restrictive protection whose chain is absent or covered accepts no packet that was kept out |
| Tightening.ListTightens | emarefirewall/manager.py:2206-2231 | the same for any list |
| Tightening.RefillableIsCovered | emarefirewall/manager.py:2236-2249 | a chain that holds a first part of the protection's rules (its own, emptied, or half-filled) is covered |
| Tightening.HarmlessIsCovered | emarefirewall/manager.py:2236-2249 | so is an operator's chain that only accepts, returns or logs |
| Tightening.FlatChainCovered | emarefirewall/manager.py:2236-2249 | of a chain without jumps, coverage is a matter of its rules and the protection's alone |
| Coverage.TightensExactly | emarefirewall/manager.py:2206-2231 | a list of restrictive protections tightens every ruleset with these user chains if and only if it covers what their chains hold |
| Coverage.UncoveredIsLost | emarefirewall/manager.py:2236-2249 | any packet that a present chain refuses and the protection's rules let pass gets through some such ruleset |
| Coverage.AdmittingListLoosens | emarefirewall/manager.py:2290-2300 | an appended ACCEPT for a packet no other protection decides about lets it in |
| Coverage.OwnChainIsLost | emarefirewall/manager.py:2236-2249 | a ruleset with an operator's chain of that name, where a dropped packet is accepted afterwards |
| Tightening.AcceptingPlanExactly | emarefirewall/manager.py:2290-2300 | an appended ACCEPT lets a packet in exactly when it ran off the end of INPUT into a refusing policy |
| L7Manager.Host.RunCmds | emarefirewall/manager.py:3148-3157 | all commands are sent in order; success means that the last nonempty error strips to nothing |
| L7Manager.Host.ApplyL7Protection | emarefirewall/manager.py:2206-2231 | one result for each name, failure for unknown names, success for every known one when no command is lost, and the ruleset reached |
| L7Manager.Host.RemoveL7Protection | emarefirewall/manager.py:2846-2991 | the ruleset reached, and success whenever the commands reach the host |
| L7Manager.NoComplaintNoError | emarefirewall/manager.py:3148-3157 | without a reply that fails with an error text the list is reported as successful |
| L7Manager.LastComplaintDecides | emarefirewall/manager.py:3148-3157 | otherwise the last such reply decides: success exactly if its text strips to nothing |
| L7Manager.SmoothResults | emarefirewall/manager.py:2206-2231 | on a host all commands reach, every known name is reported as applied |
| Decisions.ProtectionDecides | emarefirewall/manager.py:2236-2581 | each of the thirteen protections, applied where it has left no trace, decides about every packet of INPUT by the tests spelled out: six before the operator's rules, seven about what runs off their end |
| Decisions.ProtectionVerdicts | emarefirewall/manager.py:2236-2581 | in verdicts: which packets a protection drops, rejects or accepts, at which hook, and that every other packet keeps its verdict |
| Decisions.ListDecides | emarefirewall/manager.py:2206-2231 | the same for any list of different protections: the last applied of the first kind decides first, the others in their order |
| Decisions.RequestDecides | emarefirewall/manager.py:2206-2231 | the same for a call whose commands reach the host |
| Decisions.PlansDecide | emarefirewall/manager.py:2236-2581 | the command list of each protection comes to the decision spelled out |
| Decisions.PlanDecides | emarefirewall/manager.py:2236-2337 | an applied plan adds its decision to what INPUT does, in front or behind |
| L7Manager.QuietCommandsReportNothing | emarefirewall/manager.py:2864-2871 | removal commands never report an error once delivered |
| L7Manager.DeliveredInstallationReportsSuccess | emarefirewall/manager.py:2236-2337 | on any well-formed ruleset every command of an application succeeds at its turn or is silenced |
| L7Manager.RequestsApplyAll | emarefirewall/manager.py:2206-2231 | a list of names applies its protections in order |
| L7Manager.RemovingProtectionsRestoresVerdicts | emarefirewall/manager.py:2846-2991 | for any set of the thirteen protections, any history and any losses, removing them restores every verdict |
| L7Manager.ApplyingProtectionsTwice | emarefirewall/manager.py:2206-2231 | any list of the thirteen protections is idempotent |
| L7Manager.ProtectionsOnlyTighten | emarefirewall/manager.py:2206-2231 | any list without icmp_flood whose present chains are covered accepts no packet that was kept out |
| L7Manager.ProtectionsTightenExactly | emarefirewall/manager.py:2206-2231 | for the thirteen protections: a list tightens every ruleset with these user chains if and only if icmp_flood is not in it and the present chains are covered |
| L7Manager.OperatorsChainIsFlushed | emarefirewall/manager.py:2236-2238 | where the chain name is taken by an operator, each of the five chain protections can let a packet in |
| PartialRemoval.RemovingSomeLeavesTheOthers | emarefirewall/manager.py:2856-2991 | applying a list and removing some of it gives every packet the verdict of applying only the others |
| PartialRemoval.StripInputAfter | emarefirewall/manager.py:2236-2337 | the rules of the others stand in INPUT in the order in which they would have been put in alone |
| PartialRemoval.ForeignEffect | emarefirewall/manager.py:2236-2991 | an operation of one protection has the same effect with others in the ruleset and without |
| PartialRemoval.RemovingSomeUndoesTheirHistory | emarefirewall/manager.py:2846-2991 | after any run of applications and removals with commands lost, removing some protections gives every packet the verdict of the same run, losses included, without them |
| L7Manager.RemovingSomeUndoesThem | emarefirewall/manager.py:2846-2991 | the same for any of the thirteen protections |
| L7Manager.RemovingSomeProtections | emarefirewall/manager.py:2846-2991 | applying a list of them and removing some gives every packet the verdict of applying only the others |
| L7Manager.OwnerIsUnique | emarefirewall/manager.py:2236-2337 | no two protections put the same rule into INPUT |
| L7Manager.RulesetComesBackExceptForThree | emarefirewall/manager.py:2856-2871 | apply then remove restores the ruleset itself exactly for all but syn_flood, http_flood and l4_udp_flood, and what those leave |
| L7Manager.IcmpProtectionExactly | emarefirewall/manager.py:2290-2300 | which packets icmp_flood lets in: echo requests within the limit that used to run off the end of INPUT into a refusing policy |
| TerseParser.UnescapeEscape | emarefirewall/manager.py:183-185 | the two replacements of `_mq`, one after the other, are undone by dropping one backslash before each escaped character |
| TerseParser.CloseOfEscaped | emarefirewall/manager.py:214 | the pattern for quoted values stops at the closing quote and at no escaped one |
| TerseParser.ReadBackMeaning | emarefirewall/manager.py:175-186 | exactly when the parsed value equals the printed one, and exactly when it unescapes to it |
| TerseParser.RefusedExactly | emarefirewall/manager.py:179-182 | a value is refused if and only if it holds `;`, newline, carriage return or NUL |
| TerseParser.QuotedTextIsSafe | emarefirewall/manager.py:175-186 | no quoted text holds one of these |
| TerseParser.QuotedExactly | emarefirewall/manager.py:177-186 | which values are given as they are, and what the others are put between quotes as |
| TerseParser.OtherCharsArePassedOver | emarefirewall/manager.py:214 | a character that is no letter, digit, underscore or hyphen belongs to no key |
| TerseParser.UnclosedQuoteIsOrdinary | emarefirewall/manager.py:214 | a quote that is not closed is read as part of an unquoted value |
| TerseParser.LinesExactly | emarefirewall/manager.py:196-204 | a line counts if and only if, stripped, it begins with digits and white space |
| TerseParser.LastPairCounts | emarefirewall/manager.py:214-217 | of pairs with the same key the last one counts |
| TerseParser.OwnEntriesAreOverwritten | emarefirewall/manager.py:212-217 | a key `_index` or `_flags` overwrites the parser's own entry |
| Text.FirstDigitCounts | emarefirewall/manager.py:204 | the index is read in base ten |
| Text.SpacesExactly | emarefirewall/manager.py:197 | the 29 characters that are white space |
| TerseParser.BareValueReadsBackExactly | emarefirewall/manager.py:214-216 | an unquoted value reads back exactly if it holds no white space |
| TerseParser.ScanPrintedPairs | emarefirewall/manager.py:213-217 | all printed pairs are found, in order, with nothing between them mistaken for a pair |
| TerseParser.ParsePrintedLine | emarefirewall/manager.py:196-218 | a printed line parses to its index, flags, keys and values |
| TerseParser.RecordsWithoutPairsAreLost | emarefirewall/manager.py:200-211 | a line without pairs is skipped, or loses its flags |
| TerseParser.ParsePrinted | emarefirewall/manager.py:189-219 | the same for any number of lines: one dictionary for each, in order |
| TerseParser.EntryHolds | emarefirewall/manager.py:212-218 | with distinct keys the dictionary holds exactly the index, the flags and every pair |
| TerseParser.ParseEmareosTerse | emarefirewall/manager.py:189-219 | the loop over the lines computes the parse the lemmas are about, for any text |
| ExecMulti.Executor.Run | emarefirewall/manager.py:249-272 | the results and the state of the host; on a failure of the joined command, those of sending each command after it; never fewer results than commands |
| ExecMulti.CombineIsAndLine | emarefirewall/manager.py:257 | the joined command is the commands and the echoes of the separator joined by `&&` |
| ExecMulti.CombinedIsShell | emarefirewall/manager.py:257-258 | on a host whose shell stops at the first failure of such a line and whose echo prints the separator, it does what the results are about |
| ExecMulti.StrippedOutputs | emarefirewall/manager.py:266-268 | each result is a success with the stripped output and no error |
| ExecMulti.ShellRuns | emarefirewall/manager.py:257-258 | a shell runs the joined command up to the first failure, and prints the outputs joined if there is none |
| ExecMulti.FallbackRepeats | emarefirewall/manager.py:259-261 | after a failure the fallback runs every command, and those up to the failing one for the second time |
| ExecMulti.EnoughParts | emarefirewall/manager.py:262-265 | when all commands succeed the splitting yields at least one part for each, whatever the outputs are |
| ExecMulti.FinishedLinesAreSeparable | emarefirewall/manager.py:249-258 | outputs that end their lines and do not hold the separator are separable, even if the separator overlaps itself |
| ExecMulti.ResultsAreOutputsExactly | emarefirewall/manager.py:257-272 | when all commands succeed each runs once, and the results are the stripped outputs in order if and only if no separator is seen before the printed ones |
| ExecMulti.FinishedLinesComeBack | emarefirewall/manager.py:249-272 | with a separator without newline and leading white space, finished outputs without it come back |
| ExecMulti.SepIsPlain | emarefirewall/manager.py:249 | `___SEP___` is such a separator |
| DictCache.Cache.Lookup | emarefirewall/cache.py:28-36 | the value, and the store without an expired item |
| DictCache.Cache.Put | emarefirewall/cache.py:38-41 | the item entered with its expiry, default or given |
| DictCache.Cache.RemovePrefix | emarefirewall/cache.py:47-51 | exactly the keys with the prefix go |
| DictCache.Cache.Increment | emarefirewall/cache.py:57-68 | a new window, or one more in the window that is open; an error on a value that is no number |
| DictCache.StepRefines | emarefirewall/cache.py:28-68 | each operation answers as on an eagerly expiring map and leaves the same live items |
| DictCache.LazyIsEager | emarefirewall/cache.py:28-68 | so does every run with a clock that never goes back |
| DictCache.GetExactly | emarefirewall/cache.py:28-51 | get answers the value set last, if it was not deleted since and its ttl is not over, and None otherwise |
| DictCache.IncrExactly | emarefirewall/cache.py:57-68 | what incr answers and stores in every case |
| DictCache.IncrCountsWindows | emarefirewall/cache.py:57-68 | on a key no other operation writes, incr counts 1, 2, 3, ... in each window |
| DictCache.TwoWindows | emarefirewall/cache.py:57-68 | a closed interval of one ttl meets at most two windows |
| DictCache.AtMostTwiceTheLimit | emarefirewall/cache.py:57-68 | at most twice the limit of answers up to the limit in any such interval |
| DictCache.RateLimit | emarefirewall/cache.py:57-68 | the last two for the answers of any run on an empty cache |
| RedisCache.Cache.Get | emarefirewall/cache.py:120-134 | the answer and the whole new state, for every circuit state and every outcome on the server |
| RedisCache.Cache.Put | emarefirewall/cache.py:136-146 | the same; the fallback is always written |
| RedisCache.Cache.Remove | emarefirewall/cache.py:148-156 | the same |
| RedisCache.Cache.RemovePrefix | emarefirewall/cache.py:158-173 | the same |
| RedisCache.Cache.Clear | emarefirewall/cache.py:175-181 | clearing is deleting the empty prefix, and the fallback is empty afterwards |
| RedisCache.Cache.Increment | emarefirewall/cache.py:183-196 | the same as for get, with the expire call that may fail after the increment |
| RedisCache.Cache.RecordFailure | emarefirewall/cache.py:110-115 | the fifth failure in a row and every later one opens the circuit for 30 seconds |
| RedisCache.RunKeepsJustified | emarefirewall/cache.py:120-173 | in every run, what the fallback and the server hold for a key was set by the run, with the expiry of that set |
| RedisCache.WithoutServerAsEagerMap | emarefirewall/cache.py:120-196 | as long as the server answers nothing, all answers are those of one eagerly expiring map |
| RedisCache.WithServerAsEagerMap | emarefirewall/cache.py:120-196 | as long as it answers everything and loses nothing, the same, at the times it carries the calls out |
| RedisCache.UnansweredGetExactly | emarefirewall/cache.py:120-134 | whatever happened before, a get without an answer gives the value set last, if it was not deleted since and its ttl is not over |
| RedisCache.OpenGetExactly | emarefirewall/cache.py:120-122 | and so does a get that meets the open circuit |
| RedisCache.CounterFromZeroRestarts | emarefirewall/cache.py:183-196 | a counter that comes from 0 to 1 begins a new ttl on the server and none in memory |
| RedisCache.BreakerExactly | emarefirewall/cache.py:97-115 | when the server is asked, and what an answer and a failure do to the breaker, in numbers |
| RedisCache.AttemptFailsExactly | emarefirewall/cache.py:120-196 | which attempts count as failures |
| RedisCache.AnswersAreNeverOlderThanTheirTtl | emarefirewall/cache.py:97-156 | a value returned was set for that key no more than its ttl earlier, whatever failed, was lost or deleted in between |
| RedisCache.OpenStretchIsSilent | emarefirewall/cache.py:97-103 | until the 30 seconds are over no call of a run reaches the server, and the breaker stands still |
| RedisCache.FailingAttemptsAreSpaced | emarefirewall/cache.py:97-115 | in a stretch of failing attempts each one from the fifth failure on is more than 30 seconds after the last |
| RedisCache.DeadServerIsSeldomAsked | emarefirewall/cache.py:97-115 | n failing attempts take at least 30 (n - 5) seconds from the fifth on |
| StatusCache.Manager.GetStatus | emarefirewall/manager.py:318-335 | with an in-process cache: the cached status while fresh, else the device's, which is cached; other servers untouched |
| StatusCache.Manager.WriteDevice | emarefirewall/manager.py:684-770 | with an in-process cache: the device's new state and an empty cache entry |
| StatusCache.Manager.DeleteRuleAt | emarefirewall/manager.py:1027-1073 | delete_rule leaves the state before the deletion in the cache |
| StatusCache.Manager.WriteSilently | emarefirewall/manager.py:772-838 | a writer that never invalidates leaves the cache as it is |
| StatusCache.RunExplained | emarefirewall/manager.py:274-281 | in every run with an in-process cache a cached status is the device's or was overtaken by an unannounced write since it was read |
| StatusCache.StaleOnlyAfterUnannouncedWrite | emarefirewall/manager.py:318-335 | with an in-process cache a status that differs from the device's means such a write within the last ttl seconds |
| StatusCache.ReadAfterInvalidatingWriteIsFresh | emarefirewall/manager.py:1077-1140 | with an in-process cache, from a writer that invalidates to the next unannounced write every read is the device's state |
| StatusCache.ReadsAfterDeleteRuleAreOld | emarefirewall/manager.py:1027-1031 | after delete_rule every read within the ttl shows the old state, wrong exactly when the deletion changed something |
| StatusCache.ReadsAfterSilentWriteExactly | emarefirewall/manager.py:772-838 | after a writer that never invalidates, what every read shows: the cached status while it is fresh, wrong exactly when the device now differs from it, and then the device's |
| StatusCache.StatusIsKeptForItsTtl | emarefirewall/manager.py:318-335 | for how long a status is shown without asking the device, for both in-process caches |
| StatusCache.NoTtlNoCache | emarefirewall/manager.py:318-335 | without a ttl nothing is cached and every read shows the device |
| SharedStatus.Manager.GetStatus | emarefirewall/manager.py:318-335 | on Redis: what the cache answers, else the device's status, which is cached; the whole new state for every outcome of the cache calls |
| SharedStatus.StatusIsKeptOnServer | emarefirewall/manager.py:318-335 | a status that was set is shown by every read the server answers within the ttl, without asking the device |
| SharedStatus.NoTtlReadsDevice | emarefirewall/manager.py:318-335 | without a ttl the cache is not asked |
| SharedStatus.Manager.InvalidateCache | emarefirewall/manager.py:274-278 | on Redis: both keys are deleted, as far as the deletes get |
| SharedStatus.Manager.WriteDevice | emarefirewall/manager.py:684-770 | the device's new state, and the cache after the two deletes, heard or missed |
| SharedStatus.Manager.DeleteRuleAt | emarefirewall/manager.py:1027-1073 | the cache is asked, and filled if need be, before the device changes |
| SharedStatus.RunKeepsFine | emarefirewall/manager.py:274-335 | in every run, whatever fails, an item held for a status is the device's, or can no longer be served, or since it was set there was an unannounced write or a missed invalidation |
| SharedStatus.CallKeepsBounds | emarefirewall/cache.py:97-115 | with a ttl of at most 30 seconds an open circuit outlasts the server's item, through every call |
| SharedStatus.HeardDrops | emarefirewall/manager.py:274-278 | an invalidation that is not missed leaves nothing in the fallback and nothing on the server that can be served |
| SharedStatus.StaleOnlyAfterMissedInvalidation | emarefirewall/manager.py:318-335 | on Redis a status that differs from the device's means, within the last ttl seconds, a silent write, a delete_rule, or a missed invalidation: for ttls up to 30 a first delete refused with the circuit left closed, for longer ones a first delete refused or met by the open circuit |
| SharedStatus.NextReadExactly | emarefirewall/manager.py:318-335 | with the key gone from the fallback every read from a time on is fresh if and only if the server holds no wrong status that it may still serve |
| SharedStatus.StaysFreshExactly | emarefirewall/manager.py:318-335 | the same for all reads of all later runs up to the next such event |
| SharedStatus.WriteExposesExactly | emarefirewall/manager.py:274-281 | which item a write leaves to be served, told from the state before it and the fates of its two deletes |
| SharedStatus.FreshAfterWriteExactly | emarefirewall/manager.py:684-770 | with a ttl of at most 30 seconds all reads after a write are fresh, up to the next such event, if and only if its deletes do not miss an item that is still there, still valid and not the new status |
| SharedStatus.OpenCircuitExposesExactly | emarefirewall/cache.py:97-103 | a write whose deletes meet the open circuit leaves an item to be served if and only if the item outlasts the circuit |
| SharedStatus.ReadAfterHeardInvalidationIsFresh | emarefirewall/manager.py:274-281 | for every ttl and whatever the cache held before, a first delete that is sent and not refused makes all reads up to the next such event fresh |
| SharedStatus.MissedDeleteServesOldStatus | emarefirewall/cache.py:148-156 | a delete refused at second 2 makes the read at second 3 show the status of second 1 |
| Sorting.SortSorts | emarefirewall/law5651.py:289 | entries come out in key order, none lost or added |
| Sorting.OrderIsUnique | emarefirewall/law5651.py:289 | with distinct increasing keys every reordering sorts back to the same sequence |
| HashChain.Stamper.RestoreFromEntries | emarefirewall/law5651.py:224-240 | the chain state after reading the entries of a log in any order |
| HashChain.Stamper.StampEntry | emarefirewall/law5651.py:242-282 | the metadata and the next chain state; every stamp is counted in exactly one of the three counters |
| HashChain.Stamper.VerifyEntries | emarefirewall/law5651.py:284-334 | the report of the loop is the one the lemmas are about |
| HashChain.RestoreFindsLatest | emarefirewall/law5651.py:224-240 | restoring from any entries of a log, in any order, stands at least as far as the latest of them, with the right hash |
| HashChain.RunIsSound | emarefirewall/law5651.py:224-282 | over any restarts that see the last entry the log stays one chain and the stamper stands at its end |
| HashChain.StampedLogVerifies | emarefirewall/law5651.py:284-334 | such a log verifies in full, in whatever order it is handed over |
| HashChain.OnlyPrefixesVerify | emarefirewall/store.py:376-386 | a stretch of it verifies exactly if it is empty or begins with the first entry; otherwise which break is reported |
| HashChain.RestartStands | emarefirewall/law5651.py:224-240 | a restart stands at the end of the log if and only if it sees the last entry |
| HashChain.RestartExactly | emarefirewall/law5651.py:224-334 | after a restart and a stamp the log verifies if and only if the restart saw the last entry; otherwise the break is reported at the stamped entry |
| HashChain.MissedEntryBreaksForEver | emarefirewall/law5651.py:284-334 | and is reported there after any further restarts and stamps |
| HashChain.VerifiedIsLongestGoodPrefix | emarefirewall/law5651.py:284-334 | `verified` is the length of the longest prefix in id order that verifies, `broken_at` the id behind it |
| HashChain.SameHashSameEntries | emarefirewall/law5651.py:242-250 | the last chain hash determines the number and the canonical form of all entries |
| HashChain.VerifiedLogsAgree | emarefirewall/law5651.py:284-334 | two logs that verify and end in the same hash agree entry by entry |
| HashChain.VerifiedLogsHaveSameContent | emarefirewall/law5651.py:202-219 | and in every id, every field and all extras, if the canonical form tells their contents apart |
| HashChain.EditedContent | emarefirewall/law5651.py:202-219 | an edited entry with its old metadata is reported at that entry, if and only if its id, a field or the rest of its extra was changed |
| HashChain.EditedMetadata | emarefirewall/law5651.py:293-331 | edited metadata is reported by the hash that was touched; an edited index is not noticed |
| HashChain.RestampedEntry | emarefirewall/law5651.py:314-331 | an edited entry with hashes made up anew is given away by the next entry, and only in the last place goes unnoticed |
| HashChain.RemovedEntry | emarefirewall/law5651.py:314-320 | so is an entry taken out |
| HashChain.FirstEntryFollowsZeros | emarefirewall/law5651.py:290 | the first entry of a log that verifies follows 64 zeros |
| HashChain.EveryNthIsStamped | emarefirewall/law5651.py:259-270 | of n entries every stamp_every-th is time-stamped |
| HashChain.UnusableEntryIsPassedOver | emarefirewall/law5651.py:224-240 | a restart passes over entries without a full hash or a greater index |
| HashChain.UsableEntryIsTaken | emarefirewall/law5651.py:234-240 | and takes any other as the end of the chain, its hash in small letters |
| RewardLedger.LastAction | models.py:1007-1012 | the creation time of the latest record of that user and action, or none |
| RewardLedger.UnclaimedUsers | models.py:1014-1021 | exactly the users with unclaimed records, each once |
| RewardLedger.RewardEngine.AwardEp | blockchain/reward_engine.py:82-141 | a record is added exactly when the call returns a report, and what the report says |
| RewardProofs.AwardedExactly | blockchain/reward_engine.py:93-134 | a record is added if and only if the action is known, the day's points and the new ones are at most 5000, and the cooldown is over, with all numbers spelled out |
| RewardProofs.ReportedExactly | blockchain/reward_engine.py:136-156 | the points, total and claim type that are reported |
| RewardLedger.RewardEngine.ProcessPendingClaims | blockchain/reward_engine.py:158-193 | the records and the number of claims after a round, whatever is awarded meanwhile; nothing without a chain |
| RewardProofs.SnapshotExactly | models.py:1014-1021 | each user with unclaimed points once, with these points |
| RewardProofs.RoundMarks | blockchain/reward_engine.py:176-191 | an unclaimed record of a user of the snapshot is marked, with that user's transaction, if and only if there is a wallet and a transaction |
| RewardProofs.RoundKeeps | blockchain/reward_engine.py:176-191 | all other records stay as they are |
| RewardProofs.RoundSends | blockchain/reward_engine.py:176-188 | such a user is sent the points of the snapshot, any other nothing |
| RewardLedger.ClaimedPlusUnclaimed | models.py:971-994 | claimed and unclaimed points are the total, in every ledger |
| RewardLedger.MarkMoves | models.py:1023-1029 | marking claims all of one user's points and touches nobody else |
| RewardProofs.AwardKeepsCap | blockchain/reward_engine.py:107-112 | no award takes any user over 5000 EP on any UTC day, not even across midnight |
| RewardProofs.AwardKeepsSpacing | blockchain/reward_engine.py:114-121 | no award puts two records of a cooled-down action closer than the cooldown |
| RewardProofs.LimitsAlwaysHold | blockchain/reward_engine.py:82-141 | both in every run of awards and claims |
| RewardProofs.PaymentsInStretch | blockchain/reward_engine.py:114-121 | a stretch shorter than k + 1 cooldowns pays at most k + 1 times |
| RewardProofs.CooldownBoundsPayout | blockchain/reward_engine.py:54-63 | over T seconds such an action pays at most its reward times (T / cooldown + 1) |
| RewardProofs.ProcessIsRun | blockchain/reward_engine.py:158-193 | a round of claims is a run of awards and markings |
| RewardProofs.ClaimMarksSubmittedAndLate | blockchain/reward_engine.py:174-191 | what is marked exceeds what was submitted by exactly the points awarded since the snapshot; equal exactly if there were none |
| RewardProofs.ProcessNeverOverpays | blockchain/reward_engine.py:158-193 | in a round no user is sent more than is marked, and exactly as much if nothing was awarded |
| RewardProofs.SentAtMostClaimedAtMostEarned | blockchain/reward_engine.py:158-193 | the same over the whole life of the ledger, and what is marked was earned |
| RewardProofs.ClaimedStaysClaimed | models.py:1023-1029 | a claimed record is never changed again, so none is claimed twice |
| PortRegistry.NextFree | models.py:1253-1263 | the port found is free and no port between the start and it is |
| PortRegistry.Registry.LeastFreePort | models.py:1253-1263 | the scan finds that port |
| PortRegistry.Registry.AllocatePort | models.py:1265-1300 | the row or the error, and the rows afterwards |
| PortRegistry.Registry.ReleasePort | models.py:1302-1306 | the row is kept and marked released |
| PortRegistry.NextFreePortIsLeast | models.py:1253-1263 | the least assignable port not in use; it fails if and only if all are in use |
| PortRegistry.ExhaustionNeeds1998Rows | models.py:1227-1231 | the registry runs out of ports only with 1998 rows |
| PortRegistry.PortsStayUnique | models.py:1239 | no two rows share a port, over every run |
| PortRegistry.DefaultAllocationExactly | models.py:1265-1300 | default allocation succeeds exactly when the least free port has no row left |
| PortRegistry.PreferredAllocationExactly | models.py:1275-1284 | a preferred port is granted exactly if it is not reserved and never had a row |
| PortRegistry.PreferredResultExactly | models.py:1275-1300 | the row or the error for every preferred port |
| PortRegistry.DefaultResultExactly | models.py:1253-1300 | the row or the error when any port is asked for |
| PortRegistry.NoPortLeftExactly | models.py:1253-1263 | the call says that no port is left if and only if all are in use |
| PortRegistry.AssignableExactly | models.py:1227-1231 | 8001 to 9999 without 9378 |
| PortRegistry.StuckForEver | models.py:1265-1306 | once the least free port carries a released row, default allocation fails after any further calls |
| PortRegistry.FailureIsForEver | models.py:1265-1306 | every failed default allocation, exhaustion included, is final: none succeeds after any further calls |
| PortRegistry.ReleaseBelowAllFreePortsSticks | models.py:1302-1306 | one release of a port with no free port below it brings that about |
| PortRegistry.TwoCallsCanStick | models.py:1265-1306 | an empty registry gets there with one default allocation and its release |
| Scheduler.Loop.Run | scheduler.py:51-89 | the readings at which each of the four jobs runs |
| Scheduler.RunsExactly | scheduler.py:51-89 | a job runs at readings only, an interval apart, and passes none over that is an interval after the last run |
| Scheduler.JobsRunRegularly | scheduler.py:51-89 | successive runs are at least the interval and less than interval + G apart, and none is overdue at the end |
| CronJobs.Profile.RunBackup | backup_manager.py:12-76 | last run, status and size for every outcome |
| CronJobs.CheckBackupSchedules | backup_manager.py:89-103 | exactly the due profiles run |
| CronJobs.Task.CheckTask | scheduler.py:130-157 | a task runs exactly if it is due; its last run and status for every outcome |
| CronJobs.RunScheduledTasks | scheduler.py:119-162 | exactly the due tasks run, each with its own last run |
| CronJobs.FiresAreSpaced | backup_manager.py:134-135 | whatever the schedule, firings are at least the guard apart |
| CronJobs.SchedulesExactly | scheduler.py:173-185 | which part of a schedule is compared with what |
| CronJobs.FirstBackupFires | backup_manager.py:108-113 | a profile that never ran fires at the first check |
| CronJobs.NoScheduleNeverFires | backup_manager.py:108-109 | without a schedule nothing fires |
| CronJobs.OtherMinutesAreQuiet | scheduler.py:165-195 | outside matching minutes nothing fires |
| CronJobs.BackupFiringsInMinute | backup_manager.py:106-138 | in a matching minute a profile fires once, if a check comes 60 seconds after its last run, and otherwise not |
| CronJobs.BackupFiresOncePerMinute | backup_manager.py:106-138 | a profile fires at most once in a calendar minute |
| CronJobs.TaskFiresTwicePerMinute | scheduler.py:165-195 | a task fires at most twice |
| CronJobs.TaskFiringsInMinute | scheduler.py:165-195 | how often it fires in a matching minute, 0, 1 or 2 times, for every last run and all checks of that minute |
| CronJobs.TaskFiringsInRun | scheduler.py:165-195 | the same for a minute in the midst of a run |
| CronJobs.TaskFiresTwiceExactly | scheduler.py:187-191 | twice if and only if the last check comes 55 seconds after the first run was entered |
| CronJobs.TaskCanFireTwice | scheduler.py:187-191 | and it can fire twice: at seconds 0 and 55 of a matching minute |
| CronJobs.TaskFiresOncePerMinuteIfCheckedOnce | scheduler.py:165-195 | whatever the runs take, checks a minute apart fire at most once in a minute |
| CronJobs.SchedulerFiresOnce | scheduler.py:51-127 | under the scheduler a task fires at most once in a minute while the delay of its check behind the loop's reading does not shrink |
| CronJobs.ShrinkingDelayFiresTwice | scheduler.py:51-127 | with delays of 10 and then 5 seconds it fires at seconds 0 and 55 |
| Failover.Monitor.RunOnce | failover_monitor.py:117-155 | the state and the DNS change for each data centre from its own check alone |
| Failover.CounterIsTrailingRun | failover_monitor.py:117-134 | the counter is the length of the trailing run of failures, and traffic is away exactly while it is at least 3 |
| Failover.ChangesAlternate | failover_monitor.py:117-134 | failovers and failbacks alternate, and the last one says where the traffic is |
| Failover.FailoversCostThreeFailures | failover_monitor.py:127-134 | three failed checks for every failover, those pending included |
| Failover.SitesAreIndependent | failover_monitor.py:117-155 | the two data centres' histories do not influence each other |
| LoginLimiter.Limiter.IsRateLimited | auth_routes.py:49-52 | the list is pruned, and the limit is five recent failures |
| LoginLimiter.Limiter.Login | auth_routes.py:72-113 | the answer, and the lists of all addresses afterwards |
| LoginLimiter.AttemptsExactly | auth_routes.py:72-113 | an attempt is limited if and only if five of the address's earlier attempts were rejected less than 300 seconds ago; otherwise its password decides |
| LoginLimiter.PruningIsHarmless | auth_routes.py:49-56 | for every run the pruned lists answer as the full histories do |
| LoginLimiter.AnswersFromTheStart | auth_routes.py:44-56 | the same from the empty table |
| LoginLimiter.HistoryIsSlow | auth_routes.py:72-113 | any six failures of an address in a row take at least 300 seconds |
| LoginLimiter.WindowsHoldAtMostFiveFailures | auth_routes.py:72-113 | no half-open window of 300 seconds holds more than five failures of an address |

## Left out

- Protections: hashlimit, limit and connlimit keep counters in the kernel; here each test is a fixed predicate on the packet, and the theorems hold for every such predicate. The sysctl commands of slowloris, the nginx snippets, the mangle rule of l4_mss_clamp and the Emare OS side of the protections are not modelled, nor is `-g`.
- Rules: two rules are the same when their tests are the same list, which is how `-C` and `-D` see rules the manager itself wrote; an operator's rule spelled differently counts as a different one.
- Operators' copies: an operator's rule equal to a protection's would be deleted with it, so restoration assumes there is none.
- TerseParser: digits and key characters are the ASCII ones, where Python's classes also take those of other alphabets, and Python's limit on the length of int() is not modelled.
- RedisCache: values are kept as they are; that JSON encoding and decoding gives them back is taken for granted. The server's clock and the manager's are one clock, and a call reads it at most three times. Other writers of the same keys are not modelled.
- RedisCache.Cache.RemovePrefix: takes the prefix literally, where Redis reads glob characters in it as a pattern; the program's own prefixes have none.
- RedisCache.AnswersAreNeverOlderThanTheirTtl: is for keys incr does not touch, because an incr whose expire call fails leaves a key without expiry.
- StatusCache and SharedStatus: the cache of device types, what the devices answer, the aliasing of a cached status that is handed out, and changes made on the device by others are not modelled.
- HashChain: SHA-256 and the canonical JSON form are arbitrary functions. The hash is assumed to have 64 hex digits, and to be free of collisions only on what is hashed in the two logs compared, since no function on all strings to 64 digits is injective. The RFC 3161 exchange is its status. `lower()` is the ASCII one.
- RewardLedger: commits that fail, several workers at once, a crash between submission and marking, and an engine without a database are not modelled; awards between the steps of a claim are.
- ExecMulti: what a line does on a host is any function; that a shell runs commands joined by `&&` up to the first failure and that echo prints the separator are hypotheses of the theorems that need them.
- PortRegistry: the descriptive columns and two registries writing at once are not modelled.
- Scheduler and CronJobs: reading a schedule string and the calendar are inputs. Jobs catch their own exceptions, so the loop's handler is not modelled; neither are failing commits and the clean-up of old backups.
- Failover: health checks and their TCP and HTTP details are inputs, the DNS update always takes place, and the state file is read back as it was written.
- LoginLimiter: sessions, second factors and password checks are the outcome of an attempt.
- Everything else of the program — web routes, SSH, Cloudflare, GitHub and Web3 calls, access control, quotas, the market, encryption and licences — is outside the model: one-branch facts or library code.
