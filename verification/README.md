# Jeden: a Dafny model of its protocols and algorithms

Jeden is a coding-agent harness. Most of it talks to models, terminals and foreign services. This project
models the parts that stand on their own and whose correctness is not visible from reading one function,
and proves what they promise. Each part is a module.

| module | what it models |
|---|---|
| `Dyadic`, `ChatTree`, `ChatLines`, `ChatView` | the summary tree of a chat and the view of it that grows by leaves and is merged, most due sibling pair first, until it fits a byte budget |
| `Resolver` | the backtracking search for plugin releases and the rejection of dependency cycles |
| `MigrationPlan`, `CrashDisk`, `Migration` | the journalled migration of a store over a disk with volatile contents and directory entries, its recovery, and crashes between any two system calls |
| `Fleet`, `FleetProgress`, `FleetAnswers` | the one database client shared by any number of threads, opened once, with waiting, failure, panics and cancellation; why every call for it returns, and with which answer |
| `Worker`, `Outbox`, `Conflict` | the memory store's leased job queue, its at-most-once outbox and its conflict groups |
| `Pipe` | the reader thread, wakers and consumer of a child process's pipe |
| `Secrets` | masking of secrets in text, its lift over JSON values, and the loading of the secrets |
| `Registry` | the build of the capability registry, its index, the second finder of duplicates and the audit |
| `Freshness` | the registry among threads: look-ups, rebuilds, changed sources and invalidations, step by step |
| `Civil`, `Timestamp` | days since the epoch as calendar dates, printed as section 5.6 of RFC 3339 asks |
| `ChatLog`, `TornLog` | the append-only chat log in day files, read back in the order of file names; appends that are cut off |
| `Lexicographic`, `Text`, `Numerals` | the order of strings; white space; numbers read from their digits |

The model takes the program's form. Code that updates state is a class or a method with a loop, proved
against a function or predicate; expressions and recursion are functions. What other hosts or threads do
between two steps of a method is a parameter: any sequence of their steps, so a proof covers every
interleaving. A model call, a clock, a parser or an operating system error is an arbitrary answer or a
parameter. `Codec.Faithful` (in `MigrationPlan` and `ChatLog`), `TornLog.Delimited` and `Semver.Ordered` state
what the models of serde_json and semver may be relied on for. `dafny verify dfyconfig.toml` checks everything.

Findings that the proofs settle, with their conditions:

- A solution the resolver answers may miss a feature: `solve` rechecks the version of a release that is
  already selected, but not its features (`Resolver.LateFeatureIsMissed`). No solution can, if the roots and
  the catalogue agree on what they ask of each id, which can be told before the search
  (`Resolver.AgreedFeaturesAreMet`); a single solution does if and only if a choice asked too late
  (`Resolver.FeaturesMetIffNoLateRequest`).
- A migration of a store whose original is YAML, interrupted before its commit, recovers, but the call that
  recovers answers an error, because it reads the store as JSON only. The next call migrates it
  (`Migration.JournalledStoreReads`, `Migration.Machine.Converge`). A program whose plan ends at another
  version refuses the journal an older one left, every time (`Migration.Machine.RecoverFor`).
- A lease keeps a job from others until its end as long as nobody claims at or after that end by its own clock
  and the holder neither gives the job back nor, by a heartbeat of an earlier clock or a shorter length,
  shortens the lease (`Worker.Queue.Run`); anything else frees the job (`Worker.DisrespectFrees`).
- The comment of the outbox says "at most once per consumer". The code is stricter: at most once for all
  consumers together, as the first one makes the event done. An event whose call dies after the claim is
  never taken again (`Outbox.Outbox.ConsumeOne`, `Outbox.Outbox.Run`).
- `add_edge` writes the two directions of a conflict in two inserts outside a transaction. A failure between
  them leaves half a conflict, and groups may then split it (`Conflict.Store.AddEdge`,
  `Conflict.HalfConflictSplits`). Ids with colons can make two groups share a name (`Conflict.JoinsCollide`);
  the ids the store makes hold none.
- A secret that begins or ends with `*` can survive its own masking (`Secrets.HiddenIffCapped`); without
  stars none does (`Secrets.StarFreeSurviveNot`).
- A chat log reads back whole if and only if its days never go back and no date begins with `T`: such a
  date's file has no extension to be listed by. Otherwise it is refused, or, when only such entries came
  last, lacks those silently; it is never misread (`ChatLog.ReadsBack`, `ChatLog.UnlistedIsEmptyDay`).
- An append to the chat log that is cut off is never misread: the log then lacks the message, has it, or is
  refused at it, according to whether none, all but the line end, or another part of the line was written
  (`TornLog.TornReads`). Where only the line end is missing, the next message of the day is appended without
  an error and makes the log unreadable (`TornLog.AppendedAfterTear`).
- An invalidation of the capability registry is lost if a build under way has already collected from a source
  whose change it announces, and only then (`Freshness.InvalidationIsLost`,
  `Freshness.NextLookUpIsFreshIff`). Even one that is honoured can be missed by a look-up that loads the
  snapshot before, and tests the mark after, another thread's rebuild (`Freshness.RacedRun`,
  `Freshness.LookUpIsFresh`).

## Model

| member | source | states |
|---|---|---|
| Dyadic.MergeKeepsCover | rust/chat_memory/view.rs:186-197 | replacing a sibling pair by its parent keeps the view an aligned, ordered cover without a gap |
| Dyadic.NothingToMergeIffExpansion | rust/chat_memory/view.rs:183-197 | a cover of `0..T` has no sibling pair if and only if it is the binary expansion of `T` |
| Dyadic.ExpansionCovers | rust/chat_memory/view.rs:183-197 | the binary expansion is itself a cover, with no pair and levels falling to the right |
| Dyadic.ExpansionLevelIffBit | rust/chat_memory/view.rs:183-197 | the expansion has a node of level `b` exactly where bit `b` of `T` is set |
| ChatTree.WordExact | rust/chat_memory/tree/mod.rs:42-56 | the 64-bit shifts of `count`, `first` and `last` compute the true numbers for every place of a chat below 2^64 messages |
| ChatTree.HalvesIffSiblings | rust/chat_memory/tree/mod.rs:62-68 | `halves` of the parent answers exactly the two given nodes if and only if they are adjacent siblings |
| ChatTree.Compress | rust/chat_memory/tree/mod.rs:217-255 | in one conversation, which grows by each line that is too long and by where it had to be cut, the model is asked until an answer fits, a call fails or the attempts are used up; the shortest of the answers is kept, and an empty one counts as a failed call |
| ChatTree.Cut | rust/chat_memory/tree/mod.rs:239-244 | the whole characters at the front of a line that fit the limit, and as many of them as do |
| ChatTree.Tree.Build | rust/chat_memory/tree/build.rs:71-130 | on every outcome no held node changes, and every new node was wanted, stands on its halves and is its source word for word when that fits and otherwise the shortest line of the conversation about it; a wish whose conversation gives no line makes success impossible, and with writes that succeed it is the only cause of a failure; a refusal names a node that is not ready |
| ChatTree.Tree.BuildRound | rust/chat_memory/tree/build.rs:93-127 | a round keeps only nodes of the round, each made from what the tree held before it |
| ChatTree.Tree.Parent | rust/chat_memory/tree/build.rs:134-154 | answers the node of the parent place, held, or made from its halves as `Build` makes it; fails, when writes succeed, exactly if the conversation about it gives no line |
| ChatLines.LineGives | rust/chat_memory/tree/mod.rs:57-78 | a line shows the first message of its node, how many there are, and the text with line ends as spaces |
| ChatLines.LineTellsPlace | rust/chat_memory/tree/mod.rs:57-78 | nodes of two places never give the same line |
| ChatLines.TextsInOrder | rust/chat_memory/tree/mod.rs:150-206 | where every source fits, a node's text is the labelled texts of its messages, in order, on lines of their own |
| ChatView.NothingToMergeIsShort | rust/chat_memory/view.rs:183-197 | a view with nothing left to merge has one line for each set bit of the message count, so at most 64, and at most 64 times the longest line |
| ChatView.OperatorSizesSuffice | rust/chat_memory/view.rs:183-197 | with a low size of 64000 bytes every fully merged view fits as long as no summary passes 957 bytes |
| ChatView.MergeIsShownItsPast | rust/chat_memory/view.rs:55-62 | the context of a merge is the view up to the end of its pair and nothing later |
| ChatView.Pairs | rust/chat_memory/view.rs:66-81 | wishes for all sibling pairs of the view and for nothing else |
| ChatView.DueComparison | rust/chat_memory/view.rs:211-230 | the cross-multiplied 128-bit shifts lose no bits and compare the two real quotients (T - last) / 2^l |
| ChatView.MostDue | rust/chat_memory/view.rs:211-230 | the pair of greatest due, the oldest among equals; none exactly when no neighbours are siblings |
| ChatView.MostDueUnique | rust/chat_memory/view.rs:211-230 | there is only one such pair |
| ChatView.BatchFits | rust/chat_memory/view.rs:183-197 | if every line of the view and of the tree fits 64 times into the low size, a batch ends at or under it |
| ChatView.View.Covered | rust/chat_memory/view.rs:116-118 | the sum of the node counts is the number of messages covered |
| ChatView.View.Nodes | rust/chat_memory/view.rs:121-133 | all the view's nodes in order, or the first place the tree does not hold |
| ChatView.View.Grow | rust/chat_memory/view.rs:152-198 | on every outcome the view is a gap-free cover of held nodes, and what the tree gained was made for messages shown the view before their round, which is of `calls` messages unless it is the last, and for pairs shown the view up to their end, word for word or by the conversation about it; a failed build means such a conversation gave no line; without a batch the view gained exactly the leaves and fits the high size; after one it is the grown view merged most due pair first, no more often than needed; with lines that fit 64 times into a low size under the high one every finished growth ends at or under the high size; an error part way leaves old view plus leaves |
| ChatView.View.MergeLoop | rust/chat_memory/view.rs:188-195 | the loop ends at the low size or with no pair left, having merged the most due pair every time |
| Resolver.Candidates | rust/marketplace/resolver.rs:12-54 | exactly the releases of the id that meet every recorded requirement, the platform and the requested features, highest version first and equal versions as the catalogue lists them; an unreadable version or an empty list is the matching error |
| Resolver.AddAllDependencies | rust/marketplace/resolver.rs:56-73 | the requirements of the followed dependencies are recorded behind those held, their features added, and nothing else changes; it fails if and only if the requirement of a followed one does not parse |
| Resolver.CheckSelected | rust/marketplace/resolver.rs:80-92 | succeeds exactly when every selected release meets all requirements recorded for it |
| Resolver.Solve | rust/marketplace/resolver.rs:75-122 | answers a solution if and only if one exists; the answer is a chain of admissible choices, and at each choice every higher candidate leads to none |
| Resolver.SettledIsSolvable | rust/marketplace/resolver.rs:75-122 | completeness: if all versions parse and some assignment meets every demand of the roots and of its own releases, the search finds a solution |
| Resolver.SolutionIsSound | rust/marketplace/resolver.rs:75-122 | every constrained id is selected and its release meets the accumulated requirements and its platform |
| Resolver.DependencyIsSelected | rust/marketplace/resolver.rs:56-73 | every followed dependency of a selected release is selected with a version its requirement matches |
| Resolver.AgreedFeaturesAreMet | rust/marketplace/resolver.rs:75-122 | if, among roots and catalogue, whoever depends on an id asks the same of it, as far as its releases differ in features, every solution has all requested features |
| Resolver.FeaturesMetIffNoLateRequest | rust/marketplace/resolver.rs:80-92 | a single solution has them all if and only if no choice on its way asked a feature of a release already selected that lacks it |
| Resolver.LateFeatureIsMissed | rust/marketplace/resolver.rs:80-92 | a catalogue of releases 1.0.0 and 2.0.0 in which an assignment with all features exists and the search still answers one without |
| Resolver.Visit | rust/marketplace/resolver.rs:125-147 | the depth-first visit finds a cycle or lists everything reachable, dependencies first |
| Resolver.RejectCycles | rust/marketplace/resolver.rs:124-154 | succeeds if and only if the dependencies among the selected releases have no cycle; a refusal names an id on a cycle |
| Resolver.Resolve | rust/marketplace/resolver.rs:156-172 | a success lists one release for each id in their order, each of the catalogue, for every platform or the market's, asked for by a root or a listed release, and every dependency of roots and releases that is not optional, or asks for a feature, is met by a listed version; the list is an acyclic solution made of the highest choices that lead to one; a cycle error comes from such a solution that has that cycle; any other error but a bad root means there is no solution; where some assignment meets all this and all features, the only error is a cycle; with agreeing requests a success has all requested features |
| MigrationPlan.Validate | rust/migrations/plan.rs:33-62 | accepts exactly the plans whose steps form a chain from the first to the last version |
| MigrationPlan.RunSteps | rust/migrations/mod.rs:153-176 | under a valid plan the answer is the last of a trail of documents that begins with the one given, each next one being what the next step makes of the one before, stamped; there is an answer if and only if there is such a trail; the gap and early-stop refusals cannot be reached, and the answer has the target version |
| MigrationPlan.ChainIs | rust/migrations/plan.rs:46-62 | a chain of steps is one whose step k leads from version `from + k` to the next, up to the greatest version |
| MigrationPlan.JudgeFits | rust/migrations/mod.rs:128-176 | what is to become of a document, by its version and by what the steps make of it: unfit, without a version, newer, older, current, without a path, failed, or rewritten |
| MigrationPlan.RewrittenIsKept | rust/migrations/mod.rs:141-176 | a migrated document read again is at the target version and is left alone |
| Migration.CrashKeepsSafe | rust/migrations/mod.rs:178-206 | a crash that keeps any durable directory and any unsynced content keeps: the store is the whole original or the whole migrated document, and a journal tells the truth |
| Migration.CommitKeepsSafe | rust/migrations/mod.rs:199-201 | the rename over the store is safe only behind a durable backup and a complete staged file |
| Migration.JournalledStoreReads | rust/migrations/mod.rs:114-120 | recovery reads the store back as JSON if and only if it is already migrated or its original was JSON |
| Migration.RewriteIsOfOriginal | rust/migrations/mod.rs:141-152 | a store that would be rewritten is the original: no document is migrated twice |
| Migration.FirstDiskIsSafe | rust/migrations/mod.rs:123-128 | a disk with a durable original and nothing else is a safe start |
| Migration.Machine.WriteSynced | rust/migrations/mod.rs:250-263 | a finished write is complete, durable and disturbs no other name, with every disk in between safe |
| Migration.Machine.WriteDurable | rust/migrations/journal.rs:42-58 | a finished journal write is durable and every disk in between has the old journal or the new one |
| Migration.Machine.RecoverFor | rust/migrations/mod.rs:64-121 | nothing without a journal; a journal is refused, and the disk left alone, if and only if its store, target or version is not the requested one; otherwise recovery keeps the store as it is, answers the version it reads there, removes the journal durably when no call fails, and then errs only where the store is no JSON |
| Migration.Machine.MigrateJson | rust/migrations/mod.rs:123-212 | one call leaves the store as it was or wholly migrated; with a journal present it only recovers; without one the answer is told by how the store reads and by its version, refusals and a current store leave the disk as it was, and after a migration the store holds what the steps made of its document, and the backup what it held |
| Migration.Machine.Converge | rust/migrations/mod.rs:123-212 | from every state crashes can leave, two calls without failures end with no journal and the migrated document |
| Migration.Machine.StopAfterPrepared | rust/migrations/mod.rs:78-120 | a run stopped right after its first journal write: the next call recovers the original and errs if and only if that is not JSON |
| Migration.Machine.AnyRun | rust/migrations/mod.rs:64-212 | any number of calls, each cut short by a crash at any system call, stays safe |
| Fleet.StepKeepsInv | rust/fleet/mod.rs:112-150 | every atomic step keeps: the lock has one holder, Opening has exactly one live opener, no sleeper is forgotten |
| Fleet.RunInv | rust/fleet/mod.rs:112-150 | the invariant holds in every state of every run of any number of threads |
| Fleet.ReadyIsForGood | rust/fleet/mod.rs:112-150 | once the client is ready the slot never changes again |
| Fleet.OneClientForAll | rust/fleet/mod.rs:112-150 | any two calls that succeed, at any times, got the same client |
| FleetAnswers.AnswersAreTrue | rust/fleet/mod.rs:112-150 | a call answers a client only if some call opened it and it is in the slot, a failure only if it failed to open the client itself, a cancellation only if its caller was cancelled |
| FleetAnswers.LateCallIsAnswered | rust/fleet/mod.rs:112-119 | a call that begins when the client is ready never waits and ends with that client, or with the cancellation of its caller |
| Fleet.NoWaiterIsStranded | rust/fleet/mod.rs:36-47 | whoever sleeps, another thread will notify, also when the opener failed or panicked; a cancelled sleeper's wake will be run |
| Fleet.NoDeadlock | rust/fleet/mod.rs:112-150 | as long as a call has not returned some step that makes progress is enabled |
| Fleet.CancelledWaiterLeaves | rust/fleet/cancellation.rs:27-41 | a cancelled sleeper, rung, wakes and returns the cancellation |
| FleetProgress.StepPays | rust/fleet/mod.rs:112-150 | every step of progress of any thread lowers one potential, also when opening fails and the slot is reopened or a wake-up rings for all; only new cancellations and wakes without a cause raise it, by a fixed amount |
| FleetProgress.RunIsBounded | rust/fleet/mod.rs:112-150 | a run of n threads with c cancellations and w wakes without a cause has at most n(5n + 13) + c(n(5n + 1) + 3) + 6w steps, however it is scheduled: no thread loops for ever |
| FleetProgress.EndedRunHasReturned | rust/fleet/mod.rs:112-150 | a run in which no more progress is possible has every call answered |
| FleetProgress.EveryCallReturns | rust/fleet/mod.rs:112-150 | every run can be continued by progress alone until every call has returned |
| Civil.YearOfEraIsTheYear | rust/goal_lifecycle/classify.rs:33-47 | the division formula finds the year of the 400-year era the day lies in |
| Civil.MonthLengths | rust/goal_lifecycle/classify.rs:33-47 | the (153m + 2) / 5 formula gives every month its Gregorian length, leap Februaries included |
| Civil.FromDaysIsValid | rust/goal_lifecycle/classify.rs:33-47 | every integer day count gives a valid Gregorian date that counts back to it |
| Civil.ToDaysInverts | rust/goal_lifecycle/classify.rs:33-47 | every valid date is the date of its day count: the map is a bijection |
| Civil.NextDayIsNextCount | rust/goal_lifecycle/classify.rs:33-47 | the calendar's next day has the next count |
| Civil.FromDaysIsTheCalendar | rust/goal_lifecycle/classify.rs:33-47 | day 0 is 1970-01-01 and day n+1 is the calendar successor of day n |
| Timestamp.ClockIsTheTime | rust/goal_lifecycle/classify.rs:47-54 | the time of day is in range and, with the day, gives the seconds back |
| Timestamp.MomentShape | rust/goal_lifecycle/classify.rs:47-54 | in years of four digits the text is a full-date, `T` and a time in UTC as in section 5.6 of RFC 3339, and begins with the local day |
| Timestamp.MomentReadsBack | rust/goal_lifecycle/classify.rs:47-54 | the digits of the text, read as year, month, day, hour, minute and second, give the seconds back |
| Timestamp.MomentOrder | rust/goal_lifecycle/classify.rs:47-54 | text order is time order |
| Secrets.ProtectText | rust/context/secrets.rs:75-87 | the loop replaces the secrets one after the other; its containment test only saves work |
| Secrets.ReplaceKeepsParts | rust/context/secrets.rs:83 | replacing puts the cover at the occurrences of the secret that a scan from the left meets and keeps all the text between them |
| Secrets.OneSecret | rust/context/secrets.rs:75-87 | what stands there is the replacement, or one star for each character |
| Secrets.NoSecretSurvives | rust/context/secrets.rs:75-87 | in both modes, if no cover shares a character with a secret, no secret occurs in the result and a second pass changes nothing |
| Secrets.StarFreeSurviveNot | rust/context/secrets.rs:75-87 | obfuscating leaves no secret when none holds a star, keeps the length and is done after one pass |
| Secrets.RedactedSurviveNot | rust/context/secrets.rs:75-87 | redacting leaves no secret when the replacement shares no character with one |
| Secrets.ChangesOnlySecrets | rust/context/secrets.rs:75-87 | obfuscating keeps the length, and a changed character becomes a star and lay inside an occurrence of a secret in the original |
| Secrets.StandaloneIsMaskedWhole | rust/context/secrets.rs:67-87 | an occurrence that no earlier-listed secret overlaps is starred whole, which is why longer secrets come first |
| Secrets.HiddenIffCapped | rust/context/secrets.rs:157-161 | one secret is gone from every obfuscated text if and only if it neither starts nor ends with a star |
| Secrets.StarredCounterexample | rust/context/secrets.rs:157-161 | for each secret that does, a text in which masking leaves it |
| Secrets.NoRoomHides | rust/context/secrets.rs:75-87 | secrets with stars inside are hidden too, if each is capped and has no room for the stars of a later one |
| Secrets.JsonIsClean | rust/context/secrets.rs:92-106 | no string and no key anywhere in a protected value holds a secret |
| Secrets.EveryPathIsProtected | rust/context/secrets.rs:92-106 | where the masked keys of each object differ, every path leads to the same kind of value as before: a text has become its own protected text, a primitive is itself, a list or an object has the same size, a key is its own protected key |
| Secrets.LastFieldStays | rust/context/secrets.rs:97-103 | where masked keys meet, the value of the last of the fields stays |
| Secrets.CleanIsKept | rust/context/secrets.rs:92-106 | a value free of secrets passes unchanged, so protecting twice is protecting once |
| Secrets.FieldsKeepPlaces | rust/context/secrets.rs:97-103 | an object whose masked keys differ becomes the object of its fields masked one by one, each where it stood |
| Secrets.Load | rust/context/secrets.rs:65-67 | every value that is not empty, once, longest in bytes first and ties in the order named |
| Conflict.Store.AddEdge | rust/memory/conflict.rs:11-57 | refusals change nothing, success writes both directions unless the relation is support, and edges that hold both ways stay so unless the database fails between the two inserts |
| Conflict.BuildGraph | rust/memory/conflict.rs:106-118 | the adjacency lists hold exactly the conflicts between requested ids |
| Conflict.Collect | rust/memory/conflict.rs:125-133 | the stack walk visits exactly what its start reaches and no earlier walk had visited, and ends |
| Conflict.ConflictGroups | rust/memory/conflict.rs:102-141 | on any edges, even one-sided ones: ids are grouped by the first requested id with a conflict that reaches them, and a group is named after its sorted members |
| Conflict.GroupsAreComponents | rust/memory/conflict.rs:102-141 | with edges both ways and no colon in the ids: exactly the ids in conflict inside the request are grouped, and two share a group if and only if a path of conflicts inside the request joins them |
| Conflict.JoinInjective | rust/memory/conflict.rs:134-135 | without colons the joined name tells its members |
| Conflict.JoinsCollide | rust/memory/conflict.rs:134-135 | two conflicts, each held both ways and unconnected, share a name when their members join to one text |
| Conflict.ColonsCollide | rust/memory/conflict.rs:134-135 | there are such ids |
| Conflict.HalfConflictSplits | rust/memory/conflict.rs:31-56 | with a direction missing, two ids in conflict get groups of different names |
| Worker.LeaseUntil | rust/memory/worker.rs:11-18 | a lease end is answered exactly when the duration is positive and the sum is in range, and lies after now |
| Worker.DisrespectFrees | rust/memory/worker.rs:130-230 | the respect that keeps a lease is the least: a claim at or after its end, or the holder giving the job back or shortening the lease, leaves the job free to be taken, in the latter cases before its end |
| Worker.Queue.Enqueue | rust/memory/worker.rs:41-67 | a new job is queued, unclaimed and available at once |
| Worker.Queue.Oldest | rust/memory/worker.rs:137-157 | the oldest eligible row that is not locked, or none exactly when all eligible rows are locked |
| Worker.Queue.Claim | rust/memory/worker.rs:130-188 | takes a job that is available and is queued or has a lease that ended by `now`, the oldest such that is not locked, and counts the attempt; finds nothing exactly when every unlocked job is done, not yet available or leased past `now`; refuses only a lease out of range, an unreadable payload or a full attempt count; every other answer changes nothing |
| Worker.Queue.UpdateLeased | rust/memory/worker.rs:20-38 | changes the one job only under an unexpired lease of the worker, and then no other worker has claimed it since the worker's latest claim, whatever the clocks |
| Worker.Queue.Heartbeat | rust/memory/worker.rs:190-202 | a renewed lease holds from now on until `now` plus its length; the same exclusion |
| Worker.Queue.Complete | rust/memory/worker.rs:203-215 | the job is done; the same exclusion |
| Worker.Queue.Retry | rust/memory/worker.rs:216-230 | the job is queued again with its error, available at once; the same exclusion |
| Worker.Queue.Run | rust/memory/worker.rs:130-230 | over any run of transactions of any hosts: attempts equal claims, claims only grow, a done job never changes, and a leased job is claimed by nobody as long as claims come before its end by their own clocks and its worker neither gives it back nor shortens the lease |
| Worker.Queue.ProcessOne | rust/memory/worker.rs:232-259 | with any transactions of others in between: which job is taken or why none is; the pass is lost exactly if the renewal or the record finds the lease gone, and never while the others respect the lease and the worker is in time; otherwise a reindexing job whose work went well is done, and any other queued again with its error; the latest claim is then the worker's, and its only one unless another claims under the same name |
| Worker.Queue.QueueStatus | rust/memory/worker.rs:69-128 | total = queued + leased + done + failed is the number of jobs, failed is 0, each number counts its state, and every job is listed once: leased, queued, failed, done, each group by the latest update, then by id |
| Outbox.Outbox.Enqueue | rust/memory/outbox.rs:29-69 | a known key changes nothing and answers its event; keys stay unique |
| Outbox.Outbox.Claim | rust/memory/outbox.rs:81-124 | takes the oldest pending event that is available and not locked, and there is none exactly when it finds none; the branch for an event already processed cannot be reached |
| Outbox.Outbox.Consume | rust/memory/outbox.rs:129-136 | a delivery is the event's first |
| Outbox.Outbox.Release | rust/memory/outbox.rs:136-157 | the update names the event only, and still touches no other call's claim |
| Outbox.Outbox.Finish | rust/memory/outbox.rs:158-191 | record and done event are written together, for this call's event only |
| Outbox.Outbox.Die | rust/memory/outbox.rs:125-136 | a call that dies or gives up leaves its event stuck in processing |
| Outbox.Outbox.Run | rust/memory/outbox.rs:71-192 | over any run of concurrent calls with crashes: each event is delivered at most once, processed records imply done, done and stuck events never change, and a running call still holds its event alone |
| Outbox.Outbox.ConsumeOne | rust/memory/outbox.rs:71-192 | one call among others: which event it takes, or that there is none; unreadable exactly if the payload does not parse, else unrecorded exactly if the last transaction fails, else delivered or refused as the consumer says; and for each the row, the record and the delivery it leaves |
| Pipe.Reader.Send | rust/platform/mod.rs:95-118 | a message joins the queue behind all bytes sent before, and a failure is the thread's last |
| Pipe.Reader.Waker | rust/platform/mod.rs:78-87 | a wake is sent exactly while the slot is filled; one that is not finds a pipe that has ended |
| Pipe.Reader.Run | rust/platform/mod.rs:90-118 | whatever thread and wakers do, delivered, pending and queued bytes are the produced ones in order, and an ended pipe sends nothing more |
| Pipe.Reader.TakePending | rust/platform/mod.rs:41-46 | the buffer's front is the pending bytes' front, the rest of both is untouched |
| Pipe.Reader.Receive | rust/platform/mod.rs:51-62 | a failure leaves the queue only after every byte was delivered |
| Pipe.Reader.ReadAvailable | rust/platform/mod.rs:50-64 | no byte is lost; takes pending bytes, or else wakes and then at most one message, whose bytes are served or whose failure is answered; `Ok(0)` into a buffer with room means the pipe is over; would-block means everything was delivered and a sender is left |
| Pipe.Reader.ReadBlocking | rust/platform/mod.rs:66-76 | the same with one message at most: it is interrupted exactly if that is a wake, fails exactly if it is a failure, and a wake is never the end |
| Pipe.Reader.OverStays | rust/platform/mod.rs:90-118 | the end of a pipe is for good |
| Registry.Build | rust/capability/registry.rs:180-242 | each candidate that is the first acceptable one of its id is found by the id as it is published, field by field; every other has a diagnostic that tells why and who won; no other id is found; ids are unique, and acceptances and diagnostics together as many as the candidates |
| Registry.GetIsSearch | rust/capability/registry.rs:49-53 | a look-up through the index is a search through all descriptors |
| Registry.FirstAcceptableWins | rust/capability/registry.rs:188-234 | an id is answered by its first acceptable candidate, and by nothing when there is none |
| Registry.CandidateIsTold | rust/capability/registry.rs:188-234 | every candidate is accepted or told of in its diagnostic |
| Registry.PassesMeans | rust/capability/registry.rs:189-218 | the acceptance conditions on a candidate as it came, before stamping and normalizing |
| Registry.AcceptedSurface | rust/capability/descriptor.rs:147-171 | what is published executable is coherent, healthy, evidenced, of this generation and has an action |
| Registry.Audit | rust/conformance/report.rs:176-238 | reports each broken rule once for each id, in order; on a snapshot a build made these are exactly the visible surfaces that name no operation or reach nothing, under no rule but the one for a missing handler |
| Registry.DiagnosticsFor | rust/capability/queries.rs:109-130 | the second finder is a build that judges no candidate by itself |
| Registry.FindersAgree | rust/capability/queries.rs:109-130 | the two finders agree if and only if the build rejects nothing for another reason |
| Registry.Published.Refresh | rust/capability/registry.rs:111-246 | a clean snapshot of the directory is reused; any other call builds the next generation from the sources and clears the mark |
| Freshness.LookUpAnswers | rust/capability/registry.rs:101-129 | with the rebuild lock free a look-up that nothing disturbs ends, answers the sources of now unless a clean snapshot of its directory is published, publishes its answer and leaves the lock free |
| Freshness.OneBuildServesAll | rust/capability/registry.rs:101-129 | once a build is published, nobody builds again before the next invalidation or a call for another directory, and whoever waited for the lock gets what was built |
| Freshness.NextLookUpIsFreshIff | rust/capability/registry.rs:83-129 | after an invalidation, once the build under way has ended, the next look-up answers every announced source as new as announced if and only if no build of its directory had by then collected from one of them as it was before |
| Freshness.HonouredForGood | rust/capability/registry.rs:83-129 | an invalidation no build under way has missed is honoured for good: from then on, through any steps of any threads, either the mark stands or what is published is new, and no build has collected anything old |
| Freshness.LookUpIsFresh | rust/capability/registry.rs:101-129 | every look-up that begins after such an invalidation answers the announced sources or newer ones, unless a build publishes between its load of the snapshot and its test of the mark |
| Freshness.InvalidationIsLost | rust/capability/registry.rs:128-245 | a change of any source announced between its collection and the end of the build: the next look-up answers the old sources |
| Freshness.FirstBuildCollects | rust/capability/registry.rs:101-128 | the first look-up of a process gets as far as that |
| Freshness.LookUpIsRaced | rust/capability/registry.rs:101-108 | two look-ups after an invalidation, one of them answered the old sources, because the other published between its load and its test |
| Freshness.RacedRun | rust/capability/registry.rs:101-129 | such a race from the start of a process: a first look-up, a change of any source, its invalidation, and the two look-ups |
| ChatLog.Log.Append | rust/chat_memory/log.rs:222-234 | entries are appended in order up to the first date that is not one, and those before it stay |
| ChatLog.Log.ReadLines | rust/chat_memory/log.rs:141-178 | the lines that are not blank of the listed files in the order of their names |
| ChatLog.LinesReadBack | rust/chat_memory/log.rs:168-176 | lines written with a line feed, or a carriage return and a line feed, read back as they were, and an open last one with them |
| ChatLog.BlankIsSkipped | rust/chat_memory/log.rs:168-176 | a line is skipped if and only if it is nothing but white space; the others keep their order |
| ChatLog.ListedNames | rust/chat_memory/log.rs:153-165 | listed are the names that are something followed by `.jsonl` |
| ChatLog.DayStands | rust/chat_memory/log.rs:108-113 | the day is what stands before the first `T`, and there is none without one |
| ChatLog.Log.Read | rust/chat_memory/log.rs:198-219 | all entries, if every line is a message in its place, else the first line that is not; on files that hold appended entries with consecutive ids, the exact answer of `ReadsBack` |
| ChatLog.ReadsBack | rust/chat_memory/log.rs:198-234 | appended entries with consecutive ids read back exactly if and only if the file names never go back and every file is listed; the log is refused unless the listed files never go back and the entries in unlisted files came last, and then lacks exactly those |
| ChatLog.InPlaceIsPrefix | rust/chat_memory/log.rs:208-216 | entries whose ids fit their places are the first appended ones, never others |
| ChatLog.UnlistedIsEmptyDay | rust/chat_memory/log.rs:116-164 | a file that appending writes is not listed if and only if the date begins with `T` |
| ChatLog.ClockedLogReadsBack | rust/chat_memory/log.rs:70-113 | a log dated by a clock that never goes back is answered as it was appended |
| TornLog.TornReads | rust/chat_memory/log.rs:122-139 | after an append of which only some beginning of the line was written, reading answers the log as before when nothing was, the log with the message when only the line end is missing, and otherwise refuses it at that message |
| TornLog.AppendedAfterTear | rust/chat_memory/log.rs:122-139 | after an append that lacks only its line end, another one to the same day makes reading refuse the log at the first of the two |
| TornLog.NothingIsTorn | rust/chat_memory/log.rs:122-139 | an append of which nothing was written can be made again |

## Left out

- Migration.Machine.RecoverFor: the restore from the backup for a store that is missing is proved unreachable from every state the protocol can leave, and so not executed.
- Migration.Machine.MigrateJson: the backup is the original followed by a line end, as the code writes it; a step that leaves a document which is no object, where the code panics, counts as a failed step: both leave the disk as it was. What a step does to a document is a parameter.
- Resolver.Resolve: does not try other releases after a cycle, as the code does not.
- Worker.Queue.Claim: an attempt count at the integer limit and an unreadable payload are refusals; how JSON is parsed is a parameter.
- Outbox.Outbox.Finish: an error of its transaction is the end of the call, as a crash is.
- Conflict.Store.AddEdge: provenance and time of an edge are not modelled, and an edge inserted again stays one row.
- ChatTree.Compress: the model's answers are taken as trimmed, and the words of the task and of the retry messages are not modelled, only what they tell.
- ChatTree.Tree.Build: the model is one function of the conversation for the length of a call, so a wish named twice is answered alike.
- Secrets.Load: where the values come from (configuration, environment, files) is not modelled; it takes the values in the order they are named.
- Registry.Build: metadata, policy and labels of a descriptor are not modelled; what the sources name is a parameter.
- ChatLog.Log.Append: a day that holds a path separator and errors of the file system are not modelled; appends that are cut off are in `TornLog`.
- TornLog.TornReads: a line cut inside a character is not modelled; the program then refuses the file as no text.
- ChatView.View.Grow: loading and saving the view's file are not modelled, and the text a model answers is taken as trimmed.
- FleetProgress.RunIsBounded: opening the client is one step, so a connection attempt that never ends is outside the bound.
- Fleet.StepKeepsInv: what opening the client does (homes, URLs, the stand-in database) is one step that answers a client, fails or panics; spurious wake-ups are among the steps.
- Network, model calls, leases on foreign hosts, credentials and cryptography: foreign services behind libraries.
- SQL: rows are maps, a transaction is one step, and rows locked by others are a parameter.
- Terminal, pickers, onboarding, translation, web script and build script: user interface.
- The internals of semver, serde_json, serde_yaml and the regular expressions: parameters with stated laws.
- Approval tables, schema negotiation, hook matching, loop counters and connection bookkeeping: decided by reading a branch or two.
- Hill-climb and Pursuit orchestration: short loops around conversations the program does not control.
- Disks beyond atomic rename, synced files and synced directories.
