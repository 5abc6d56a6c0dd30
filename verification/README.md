# ZHAC firmware core: models and proofs

Dafny models of the state machines at the centre of the ZHAC hub firmware (ESP32, C++), with proofs
of what they keep over every run. `dafny verify dfyconfig.toml` checks the whole project.

| module | models | main results |
|---|---|---|
| `ExprEval` | the value-expression compiler and its stack machine | compiler correctness in both directions; the exact set of accepted texts |
| `ZapStore` | the device table on flash | crash safety of save, delete, repair and load under power cuts after any write |
| `DataPart` | moving the store from `nvs` to `zhac_data` | over any run of boots, trials, rollbacks and cuts, the newest store wins whenever a change can be told, and exactly when it can |
| `EventBus` | the subscription slot protocol | exact pins, no deleted queue used, no drainer asleep forever, in every interleaving |
| `RuleStore` | the rule store's write-back cache | linearizable reads, one-instant listing, a durable flush barrier |
| `ZapStoreFlush` | deferred device writes | no lost mark; a removed device is never written back |
| `Cron` | cron expressions | the skipping search equals the second-by-second search; parsed sets are what the lists denote |
| `HapProtocol` | framing, CRCs, stream decoding | round trips; every one- or two-byte change detected |
| `HapSession` | retransmit window and dedup ring | at-most-once dispatch, acknowledgement only after dispatch, at most six transmissions, over a lossy channel |
| `ZigbeePool` | the device pool and its two hash indexes | lookups equal a linear scan; rebuilds end |
| `ShadowPipeline` | debounce and the attribute cache | debounce refines direct update |
| `DeviceShadow` | the shadow table's flash copies | removed devices stay removed; skipped writes are right; flush_now is durable for what nothing missed |
| `ShadowTable` | the shadow array and its timers | compaction keeps timers on their entries |
| `SimpleRules` | triggers, event chains, the run cap | chains die out within 144 dispatches; feedback is bounded; exactly when a rule in a table fires |

Beside them stand modules that state what those models mean without using the models' own tables and
step functions, so that a wrong character, branch or order in a model contradicts a lemma:

| module | about | states |
|---|---|---|
| `ExprMeaning` | `ExprEval` | what the characters of a text compute, in plain arithmetic; every tree has a text |
| `StoreMove` | `DataPart` | what each boot leaves on both partitions; a run of trial boots leaves the old store as it was |
| `EventOrder` | `EventBus` | of each queue, received and held is sent without evicted, in order; each message is handed on once |
| `HapWire` | `HapProtocol` | which byte carries what; the checksums in closed form |
| `HapSteps` | `HapSession` | sends, retransmission turns, arrivals and acknowledgements, with the source's numbers |
| `RuleStoreSteps` | `RuleStore` | where an edit goes, what a load answers, what a flush leaves |
| `ZapFlushSteps` | `ZapStoreFlush` | where a mark goes, and what a flush and a removal leave |
| `ShadowMeaning` | `ShadowPipeline`, `DeviceShadow` | which report a slot shows, what is kept from cache and flash, what a restart gives back |
| `RuleMeaning` | `SimpleRules` | when a report, event or timer fires a rule; the order of runs and events; the cap |

Where the source changes state, a class holds that state and each locked region or loop is a method
proved against a specification function; where tasks interleave, the same functions are the steps of
a machine whose invariants are proved for every run. A step under one lock is atomic; each flash
write or queue operation is a step of its own; a power cut may follow any flash write.

## Results that differ from the source's own words

These are properties the source's comments promise and the code does not keep. Each has a lemma with
a concrete run or family of inputs, and the exact condition under which the promise holds.

- `ZapStore.DeletedComesBack`: two cut writes can bring a deleted device back (`ComesBack` says
  exactly when; `LoadIsLive` proves it cannot happen while no delete is cut).
- `DataPart.FailedClearLosesSave`: when clearing the "done" mark fails, an acknowledged save can be
  lost (`SaveOverStaleCopy` says exactly when).
- `DataPart.ChangeBackIsMissed`: "copies afresh once `nvs` changed" (zap_store.cpp:46-51, 408-427)
  fails when an older build changes the store and changes it back: the boot takes `nvs` for
  untouched (`RollbackExactly` and `WipeExactly` say exactly when it can tell).
- `HapSession.TornFirst`, `TornAfterAck`: a first transmission can carry another frame's bytes when
  its slot came free before it went out, by a link reset, by the ACK of a retransmission or by giving
  up after five retries (`FirstIsOriginal` says exactly when it does not). Retransmissions cannot.
- `Cron.LeapDayIsMissed`: a yearly 29 February schedule is not found from one leap day to the next
  (`LeapDayFound` says exactly from where, `FoundExactly` for every expression).
- `Cron.DayStepIgnored`, `WeekDayStepIgnored`: "`*/N` still matches every Nth slot"
  (cron_parser.cpp:36-38) does not hold of the two day fields: such a field is a bare star
  (`StepIsStar`), and the two lemmas say exactly when nobody can tell.
- `HapProtocol.RoundTrip`: a payload over 4096 bytes is encoded and then refused by every decoder.
- `DeviceShadow.FlushNowMisses`: flush_now is to write every device's unsaved attributes, but a
  removal meanwhile can move a device behind its loop (`SavedExactly` and `FlushNowIsDurable` say over
  a whole call when it is saved).
- `DeviceShadow.FailedSaveHides`: "no edit is ever lost" fails after a settings save that reached
  flash but was reported as failed (`ConfigSkipRight` says exactly when).
- `ShadowPipeline.SecretTakesASlot`: secret keys, which the cache never keeps, take places in the
  debounce buffer and can push a kept key out (`DropMatters` says exactly when one lost report is
  noticed, `DebounceExactly` when a whole list reads differently).
- `SimpleRules.ReloadForgets`: a reload that leaves a rule out resets its run cap
  (`ReloadAdmits` says exactly when; `FeedbackIsBounded` holds while the rule stays in the table).
- `SimpleRules.CrowdedOut`: a trigger is to fire "on a change, not on every report"
  (simple_rules.cpp:358-364), but a dispatch stops at the sixteenth picked rule (848-853), so a rule
  behind it misses a change and fires on the heartbeat (`FiresExactly` says exactly when a rule fires).
- `SimpleRules.EditedRuleFires`: an edit can fire a rule when the shadow does not know its attribute
  (simple_rules.cpp:364 and 1163 say never); `EditFires` says exactly when, for every edit.

## Model

| member | source | states |
|---|---|---|
| ExprEval.CompiledProgramComputesTree | components/simple_rules/expr_eval.cpp:82-262 | Compiler correctness: for every text that spells a grammatical tree within the caps and every int32 value, the compiled program computes the tree (unary tightest, then `* / %`, then `+ -`, left-associative, each result clamped) and fails exactly when some divisor in it is zero; what the characters compute in plain arithmetic is `ExprMeaning` |
| ExprEval.Compile | components/simple_rules/expr_eval.cpp:82-216 | Accepts exactly the texts of at most 48 characters that spell a grammatical tree within the caps and without a literal-zero divisor, and leaves exactly that tree's postfix in the program, which is what the character machine of `ExprMeaning`'s lemmas emits |
| ExprEval.Evaluate | components/simple_rules/expr_eval.cpp:218-262 | Runs any program, damaged ones included, without stack under- or overflow and without leaving int64; succeeds exactly when the program has a result and returns it |
| ExprEval.DriveCorrect | components/simple_rules/expr_eval.cpp:112-215 | The machine over characters accepts a text if and only if the text spells a tree within the caps, whichever tree that is |
| ExprEval.AcceptsTree | components/simple_rules/expr_eval.cpp:112-215 | Completeness: every well-formed tree within the caps is accepted, with its postfix |
| ExprEval.ConsumeTree | components/simple_rules/expr_eval.cpp:112-198 | From every state with room, at every precedence level, consuming a tree's tokens leaves the stacks as if its operand had been taken at once |
| ExprEval.RunSound | components/simple_rules/expr_eval.cpp:112-215 | Soundness: whatever the machine accepts is the spelling of one well-formed tree, whose postfix it emitted |
| ExprEval.Unambiguous | components/simple_rules/include/expr_eval.h:7-11 | The grammar is unambiguous: two trees with the same tokens are the same tree, so "the parsed expression" is well defined |
| ExprEval.DriveIsRunOfLex | components/simple_rules/expr_eval.cpp:112-202 | Reading and parsing in one pass equals tokenising the text first and parsing the tokens |
| ExprEval.DepthFollowsFromOps | components/simple_rules/expr_eval.cpp:54-78 | A program of n cells never needs more than (n + 1) / 2 stack places, so the depth cap never decides |
| ExprEval.PostfixComputes | components/simple_rules/expr_eval.cpp:222-258 | On any stack with room, running a tree's postfix pushes exactly the tree's value, or stops exactly when the tree has none |
| ExprEval.FailsOnZeroDivisor | components/simple_rules/expr_eval.cpp:250-251 | A tree has no value if and only if some divisor in it evaluates to zero |
| ExprEval.TruncatedDivision | components/simple_rules/expr_eval.cpp:250-251 | Division truncates: quotient and remainder recompose, the remainder is smaller than the divisor and has the dividend's sign |
| ExprEval.Wide | components/simple_rules/expr_eval.cpp:247-254 | The unclamped result of any operation on two int32 operands is an int64 |
| ExprEval.EmitOp | components/simple_rules/expr_eval.cpp:54-78 | Appends a cell unless the operation or the depth cap is passed; a refusal leaves the program as it was |
| ExprEval.PopOp | components/simple_rules/expr_eval.cpp:101-110 | Emits the top operator, refusing a division by the literal zero just emitted |
| ExprEval.PopOps | components/simple_rules/expr_eval.cpp:176-178 | The pop loop of all three places pops exactly the operators of at least the given precedence above the last parenthesis |
| ExprEval.TakeOperand | components/simple_rules/expr_eval.cpp:116-171 | Takes exactly one token where an operand is due, or the text is refused there |
| ExprEval.TakeBinary | components/simple_rules/expr_eval.cpp:173-188 | Takes one binary operator after popping what binds at least as tightly, or refuses |
| ExprEval.TakeClose | components/simple_rules/expr_eval.cpp:189-199 | Closes the innermost open parenthesis, or refuses when there is none |
| ExprEval.TakeEnd | components/simple_rules/expr_eval.cpp:204-215 | At the end of the text, accepts exactly when nothing is open or due |
| ExprEval.ReadInteger | components/simple_rules/expr_eval.cpp:117-126 | Stops early only on a run of digits whose value exceeds INT32_MAX, and otherwise reads the whole run |
| ExprEval.Cell | components/simple_rules/expr_eval.cpp:222-258 | One cell of the evaluator's switch on the stack array is one step of the stack machine, for every opcode and every stack |
| ZapStore.BootLoadsLive | components/zap_store/zap_store.cpp:504-585 | After any run of saves, deletes, boots and power cuts after any flash write, a boot and a load return, for every device saved and not deleted since, exactly its last completed save, and no device twice |
| ZapStore.CutDeleteAllOrNothing | components/zap_store/zap_store.cpp:719-775 | A delete cut after any number of its writes reads back, after a boot, as all (no write made) or nothing |
| ZapStore.LoadIsLive | components/zap_store/zap_store.cpp:781-852 | While no delete was cut, whatever saves and boots were, a load returns the live devices and nothing else |
| ZapStore.ComesBack | components/zap_store/zap_store.cpp:600-680 | A device without a record gets one in exactly two ways: a save of it, or an append cut after its count write over a key that an earlier cut delete left behind |
| ZapStore.DeletedComesBack | components/zap_store/zap_store.cpp:710-717 | A concrete run of two cut writes after which a deleted device is loaded again |
| ZapStore.InvStep | components/zap_store/zap_store.cpp:504-775 | Every save, delete and boot, cut anywhere, keeps every live device's record intact and findable |
| ZapStore.InvRun | components/zap_store/zap_store.cpp:504-775 | So does every run of them from an empty store |
| ZapStore.SaveKeeps | components/zap_store/zap_store.cpp:600-680 | A save cut anywhere keeps every other device; completed, it stores the record and keeps the table free of twins and the index exact |
| ZapStore.DeleteKeeps | components/zap_store/zap_store.cpp:719-775 | A delete cut anywhere keeps every other device; from its first write on, its own device has no row left |
| ZapStore.RepairKeeps | components/zap_store/zap_store.cpp:504-521 | The boot's repair, cut anywhere, keeps every device; completed, it leaves no device twice |
| ZapStore.LoadDistinct | components/zap_store/zap_store.cpp:781-827 | A load of any flash contents, damaged ones included, returns no device twice |
| ZapStore.LoadIsFirst | components/zap_store/zap_store.cpp:781-827 | A load returns exactly the first intact record of each device |
| ZapStore.LoadHolds | components/zap_store/zap_store.cpp:781-827 | And a device is in what a load returns if and only if some counted slot holds an intact record of it |
| ZapStore.ZapTable.Init | components/zap_store/zap_store.cpp:523-585 | The boot: repairs an interrupted delete and becomes ready |
| ZapStore.ZapTable.SaveDevice | components/zap_store/zap_store.cpp:682-688 | A save writes nothing before the store is ready, and otherwise exactly the writes of one save in their order |
| ZapStore.ZapTable.SaveLocked | components/zap_store/zap_store.cpp:600-680 | Rewrites a known device in its slot; appends a new one, count first; refuses only a new device when the table is full |
| ZapStore.ZapTable.SaveAt | components/zap_store/zap_store.cpp:600-680 | A known device's record is rewritten in place, by one write |
| ZapStore.ZapTable.Append | components/zap_store/zap_store.cpp:600-680 | A new device: the count, then the record, in that order |
| ZapStore.ZapTable.DeleteDevice | components/zap_store/zap_store.cpp:719-775 | A delete makes exactly its at most three writes in their order, and drops the RAM index |
| ZapStore.ZapTable.DeleteSlot | components/zap_store/zap_store.cpp:719-775 | The last record moves into the hole before the count drops, and the tail key is erased last |
| ZapStore.ZapTable.RepairInterruptedDelete | components/zap_store/zap_store.cpp:504-521 | Drops a tail that is a twin of an earlier record, and changes nothing otherwise |
| ZapStore.ZapTable.LoadDevices | components/zap_store/zap_store.cpp:781-827 | The pool is filled with each intact record whose device is not there yet, up to the caller's room |
| ZapStore.ZapTable.IndexBuildLocked | components/zap_store/zap_store.cpp:88-100 | The RAM index lists the address in each counted slot, 0 where no record is |
| ZapStore.ZapTable.IndexFindLocked | components/zap_store/zap_store.cpp:102-106 | Finds the first slot of an address, or none |
| DataPart.BootRunsOnNewest | components/zap_store/zap_store.cpp:353-467 | After any run of boots, trial images, rollbacks, saves, confirmations, wipes, failing marks and power cuts in which every change an older build made could be told, the next boot is never shut and runs on the newest store, whole: the last acknowledged save or what an older build wrote after it (given that its own clearing of "done" does not fail) |
| DataPart.RollbackExactly | components/zap_store/zap_store.cpp:408-427 | Before the move is final, the boot after an older build wrote `c` to `nvs` runs on `c` if and only if no whole copy is there, or `c` is not what the copy was taken from and not empty, or the copy is `c` |
| DataPart.WipeExactly | components/zap_store/zap_store.cpp:421-427 | After a wipe of the `nvs` in use, the next boot runs on an empty store if and only if no other copy is left |
| DataPart.ChangeBackIsMissed | components/zap_store/zap_store.cpp:44-51 | A concrete run in which an older build changes the store and changes it back, and the next boot runs on the trial build's data instead |
| DataPart.ReachStale | components/zap_store/zap_store.cpp:353-467 | That run's start is reached from a shipped hub by a trial boot, a save and a rollback |
| DataPart.SaveSurvives | components/zap_store/zap_store.cpp:34-53 | An acknowledged save stays in the store that later boots choose, until an older build changes `nvs` before the move is final |
| DataPart.BootIsSafe | components/zap_store/zap_store.cpp:353-467 | Each single write of a boot, wherever power is lost and whichever marks fail, keeps the chosen store; and the boot runs on it |
| DataPart.CopySafe | components/zap_store/zap_store.cpp:206-236 | A copy cut or failed anywhere leaves `nvs` chosen; whole, it equals `nvs` |
| DataPart.ConfirmSafe | components/zap_store/zap_store.cpp:341-348 | Making the move final never changes which store is chosen, whichever of its two marks fails |
| DataPart.SettleSafe | components/zap_store/zap_store.cpp:331-348 | Confirming and erasing the old copy, cut anywhere, keep the chosen store |
| DataPart.SaveOverStaleCopy | components/zap_store/zap_store.cpp:353-467 | On `nvs` with a stale copy's "done" still set, a save is kept if and only if it does not turn `nvs` back into what the copy was taken from, or empty it, or the copy happens to agree |
| DataPart.FailedClearLosesSave | components/zap_store/zap_store.cpp:353-467 | A concrete run: when clearing "done" fails, an acknowledged save can be lost at the next boot |
| DataPart.InvStep | components/zap_store/zap_store.cpp:353-478 | Every step whose change can be told keeps: the store a boot would choose is the newest one, which is what an older build or a save wrote last |
| DataPart.InvRun | components/zap_store/zap_store.cpp:353-478 | And every run of steps does |
| DataPart.Partitions.DataPartSelect | components/zap_store/zap_store.cpp:353-467 | The boot's decision and every write it makes, for every state of the five marks, any order of the entries and any failing write |
| DataPart.Partitions.TakeCopy | components/zap_store/zap_store.cpp:206-236 | A fresh copy: "done" cleared first and set last; a failure leaves a proper prefix of those writes |
| DataPart.Partitions.ClearCopy | components/zap_store/zap_store.cpp:246-283 | Clears what `zhac_data` holds, "done" first, until a write fails |
| DataPart.Partitions.CopyNs | components/zap_store/zap_store.cpp:206-236 | Copies every entry of one namespace in some order, until a write fails, and leaves `nvs` alone |
| DataPart.Partitions.EraseNs | components/zap_store/zap_store.cpp:246-254 | Erases every entry of one namespace in some order, until a write fails, and nothing else |
| DataPart.Partitions.ConfirmMarks | components/zap_store/zap_store.cpp:341-348 | Sets "live", then "moved"; final if either is set afterwards |
| DataPart.Partitions.EraseOldCopy | components/zap_store/zap_store.cpp:331-337 | Erases the old copy on `nvs` |
| DataPart.Partitions.Settle | components/zap_store/zap_store.cpp:353-467 | Off a trial, confirms the move and erases the old copy only once it is final; on a trial, writes nothing (`StoreMove` says in plain terms what that leaves) |
| DataPart.Partitions.MovedBoot | components/zap_store/zap_store.cpp:353-467 | A boot after the final move runs on `zhac_data` and repeats the marks that are missing |
| DataPart.Partitions.KeepCopy | components/zap_store/zap_store.cpp:353-467 | A boot whose copy is still current runs on it without copying |
| DataPart.Partitions.FreshCopy | components/zap_store/zap_store.cpp:353-467 | A boot whose copy is missing or stale copies afresh, and runs on `nvs` when that fails |
| EventBus.NoDeletedQueue | components/event_bus/event_bus.cpp:247-359 | In every interleaving of subscribe, unsubscribe, publish and drain, every call in progress holds a queue that exists |
| EventBus.PinsCounted | components/event_bus/event_bus.cpp:104-117 | A slot's in-flight count is exactly the calls inside it (fewer than 256), and a dead slot keeps its queue exactly while some call is inside |
| EventBus.WakeIsPending | components/event_bus/event_bus.cpp:228-239 | No drainer sleeps forever on a dead subscription: its receive is enabled, or another drainer is past its receive there, or a publisher is resending there |
| EventBus.DispatchIsCurrent | components/event_bus/event_bus.cpp:337-350 | What a drain dispatches is a real event for the very subscription it entered with, still alive |
| EventBus.TargetsExact | components/event_bus/event_bus.cpp:271-281 | A publish pins exactly the live subscribers of its type |
| EventBus.StaleHandle | components/event_bus/event_bus.cpp:41-53 | A stale handle is accepted if and only if the slot was reused a multiple of 128 times since; so it is refused for the first 127 reuses |
| EventBus.StaleIsIgnored | components/event_bus/event_bus.cpp:202-243 | An unsubscribe or drain with a handle that is not current changes nothing |
| EventBus.HandleRoundTrip | components/event_bus/event_bus.cpp:64-77 | A handle gives back its type, generation and position, and is never the invalid one |
| EventBus.ReapKeeps | components/event_bus/event_bus.cpp:104-117 | Reaping at the end of a locked region frees exactly what nobody uses and keeps every invariant |
| EventBus.InvStep | components/event_bus/event_bus.cpp:144-359 | Every step of every task keeps the protocol's invariant |
| EventBus.InvRun | components/event_bus/event_bus.cpp:144-359 | And every run from an empty bus does |
| EventBus.EventTable.Subscribe | components/event_bus/event_bus.cpp:144-200 | Takes the first free slot of the type with the next generation, or refuses; the handle names that slot |
| EventBus.EventTable.Unsubscribe | components/event_bus/event_bus.cpp:202-243 | Ends exactly the subscription its handle names, wakes its drainers, and nothing else |
| EventBus.EventTable.Snapshot | components/event_bus/event_bus.cpp:271-281 | The publish snapshot: the live subscribers of the type, each pinned |
| EventBus.EventTable.Release | components/event_bus/event_bus.cpp:302-308 | A publish's end: its pins go, and what they held up is reaped |
| EventBus.EventTable.DrainEnter | components/event_bus/event_bus.cpp:318-332 | A drain's entry: pins and returns the queue of a current handle, none for a stale one |
| EventBus.EventTable.DrainLeave | components/event_bus/event_bus.cpp:352-359 | A drain's exit: unpins, hands a poison event on while others may wait, and reaps |
| EventBus.EventTable.ReapLocked | components/event_bus/event_bus.cpp:104-117 | Deletes exactly the queues of dying slots without pins; the dying count and the high-water marks stay exact |
| EventBus.EventTable.RecalcHwmLocked | components/event_bus/event_bus.cpp:91-97 | The high-water mark of a type is one past its last slot in use |
| RuleStore.LoadIsLinearizable | components/rule_store/rule_store.cpp:140-155 | rule_store_load returns the value its rule had at some instant inside the call, in every interleaving of marks, flushers and failing deferred writes |
| RuleStore.LoadAllIsAbs | components/rule_store/rule_store.cpp:225-292 | rule_store_load_all returns the whole map of one instant, no rule twice, when stored and pending ids fit |
| RuleStore.FlushNowIsDurable | components/rule_store/rule_store_flush.cpp:235-256 | When rule_store_flush_now returns and no deferred write failed since it was called, flash itself holds, for every rule with an edit pending at the call, the outcome of that edit or of a newer one |
| RuleStore.FlushNowTargets | components/rule_store/rule_store_flush.cpp:235-256 | Its targets are exactly the edits pending at the call, and a target's number stands for what readers saw of the rule at that instant |
| RuleStore.AbsStep | components/rule_store/rule_store_flush.cpp:104-217 | Overlay plus flash is one map: a step changes what readers would see of a rule exactly when it is that rule's mark or direct save |
| RuleStore.CoreStep | components/rule_store/rule_store_flush.cpp:104-217 | Every step of markers, flushers and direct saves keeps the dirty table's invariants |
| RuleStore.ReadersStep | components/rule_store/rule_store_flush.cpp:266-286 | Every step keeps: what a reader in progress can still return was the rule's value at some instant since it began |
| RuleStore.NowsStep | components/rule_store/rule_store_flush.cpp:221-256 | Every step keeps: of each rule a barrier owes, flash holds the edit or a newer one, or the edit is in flight, or it is still ahead of the scan |
| RuleStore.MergeAllLists | components/rule_store/rule_store.cpp:199-222 | Merging all pending entries into listed rows lists the overlaid map |
| RuleStore.OverlayIs | components/rule_store/rule_store_flush.cpp:290-304 | The overlaid map holds the pending edit of a rule that has one, else what flash holds |
| RuleStore.RuleCache.MarkLocked | components/rule_store/rule_store_flush.cpp:164-217 | A mark replaces the pending edit of its rule or takes a free slot; it fails exactly when the table is full of others |
| RuleStore.RuleCache.FlushBegin | components/rule_store/rule_store_flush.cpp:110-120 | A flush takes a slot that is dirty and not in flight, and returns its copy |
| RuleStore.RuleCache.FlushSettle | components/rule_store/rule_store_flush.cpp:142-162 | A settled slot becomes clean only if it was written and not marked again meanwhile |
| RuleStore.RuleCache.FlushSlot | components/rule_store/rule_store_flush.cpp:110-162 | A whole flush of one slot: when it succeeds flash holds the edit and the slot is clean |
| RuleStore.RuleCache.LoadOverlay | components/rule_store/rule_store_flush.cpp:266-286 | The overlay answers for exactly the rules that have a pending edit: its payload, or that it is deleted |
| RuleStore.RuleCache.MergeCb | components/rule_store/rule_store.cpp:199-222 | One pending entry merged into out[..count] in place: replaced, appended while there is room, or removed with the tail moved down |
| RuleStore.RuleCache.LoadAll | components/rule_store/rule_store.cpp:225-292 | Lists flash overlaid with the dirty table, each rule once, when both fit |
| Cron.CronNext | components/cron_parser/cron_parser.cpp:209-296 | Returns the least time strictly after `from` and within 1460 days that matches, and 0 exactly when there is none or the search meets mktime's error value |
| Cron.JumpBlock | components/cron_parser/cron_parser.cpp:220-289 | No month, day, hour, minute or second jump skips a match |
| Cron.JumpAdvances | components/cron_parser/cron_parser.cpp:217-289 | Every iteration advances |
| Cron.GivesUpIsRare | components/cron_parser/cron_parser.cpp:229-230 | Giving up on a jump to time -1 takes a start before 1970 and an offset one second past a whole minute |
| Cron.DayStepIgnored | components/cron_parser/cron_parser.cpp:186-204 | With a starred day field the days a schedule fires on are the listed ones if and only if the list leaves out no day of a selected month: a step is never looked at |
| Cron.WeekDayStepIgnored | components/cron_parser/cron_parser.cpp:186-204 | With a starred week-day field the week days it fires on are the listed ones if and only if the list leaves out no week day, or no date is ever selected |
| Cron.StepIsStar | components/cron_parser/cron_parser.cpp:36-52 | Whatever the other fields are, a day or week-day field `*/N` gives the very schedule of a bare `*` |
| Cron.HasNext | components/cron_parser/cron_parser.cpp:209-296 | An expression in range whose day rule admits a date other than 29 February has a match within the four years searched, from every start |
| Cron.NextOfParsed | components/cron_parser/cron_parser.cpp:209-296 | For every parsed expression and every start from 1970 on, cron_next is non-zero exactly when a date other than 29 February is admitted or a leap day is near enough, and then it is the least match |
| Cron.NoDateNoMatch | components/cron_parser/cron_parser.cpp:169-207 | A day rule that admits no date at all never matches |
| Cron.LeapDayFound | components/cron_parser/cron_parser.cpp:214-217 | Of every expression whose only date is 29 February, at every offset and from every start, the search finds a match if and only if a selected time of such a day lies within the four years |
| Cron.FoundExactly | components/cron_parser/cron_parser.cpp:209-296 | For every expression in range and every start: a match lies within the four years if and only if the day rule admits another date, or it admits 29 February and one is that near |
| Cron.LeapDayIsMissed | components/cron_parser/cron_parser.cpp:214-217 | The 1460 days searched are one short of the gap between leap days: from midnight of 29 February 2024 the search finds nothing |
| Cron.LeapDayMatches | components/cron_parser/cron_parser.cpp:169-207 | Although that expression does match in every leap year |
| Cron.CronParse | components/cron_parser/cron_parser.cpp:99-167 | Accepts exactly 5 or 6 fields that all parse and gives each its set; seconds default to 0 |
| Cron.ParseField | components/cron_parser/cron_parser.cpp:31-95 | A field parses if and only if every non-empty item of its list does, and gives the union of what they denote |
| Cron.ParseItem | components/cron_parser/cron_parser.cpp:66-91 | One value, range or stepped range: refused when out of range or malformed, else its values join the set |
| Cron.ParseList | components/cron_parser/cron_parser.cpp:64-94 | The strtok loop over a list computes the union over its non-empty pieces |
| Cron.SetSteps | components/cron_parser/cron_parser.cpp:49-50 | The stepping loop sets exactly the values first, first + step, ... up to last |
| Cron.SplitWords | components/cron_parser/cron_parser.cpp:112-126 | The splitting loop takes words off the front, and what is left is the rest of them |
| Cron.UnionIs | components/cron_parser/cron_parser.cpp:64-94 | A value is in a list's set if and only if some non-empty item denotes it |
| Cron.FieldInRange | components/cron_parser/cron_parser.cpp:82-94 | A field that parses is never empty and never out of range |
| Cron.ClampIsHarmless | components/cron_parser/cron_parser.cpp:46-48 | Clamping a step past the span changes nothing: it matches the first value only |
| Cron.ParsedInRange | components/cron_parser/cron_parser.cpp:99-167 | Every parsed expression has values in every field, all in range |
| Cron.YearLength | components/cron_parser/cron_parser.cpp:169-178 | The civil calendar: years of 365 or 366 days, twelve months |
| Cron.DateIs | components/cron_parser/cron_parser.cpp:169-178 | Each day has exactly one date: the conversion to dates inverts the calendar's day count |
| ZapStoreFlush.RemovedStaysOut | components/device_cmd/device_cmd_ops.cpp:108-115 | After a hard remove's store delete, with the device out of the pool, no interleaving of flushers and marks writes the record back until the device is added to the pool again |
| ZapStoreFlush.NoMarkIsLost | components/zap_store/zap_store_flush.cpp:130-225 | A marked device that has left the table was saved from a pool copy read after its last mark, or was out of the pool after it |
| ZapStoreFlush.FreedIsCovered | components/zap_store/zap_store_flush.cpp:142-176 | A slot settles to free only after a pool copy read after the device's last mark was stored, or the device left the pool |
| ZapStoreFlush.QuietIsSaved | components/zap_store/zap_store_flush.cpp:130-225 | Once every change was marked and nothing is pending, flash holds the device as the pool does |
| ZapStoreFlush.FlushDeviceIsDurable | components/zap_store/zap_store_flush.cpp:243-273 | zap_store_flush_device returns true only when the last mark before the call was saved, or the device was out of the pool after it |
| ZapStoreFlush.CoreStep | components/zap_store/zap_store_flush.cpp:130-225 | Every step of markers, flushers, removals and pool changes keeps the table's invariants |
| ZapStoreFlush.DevsStep | components/zap_store/zap_store_flush.cpp:243-273 | Every step keeps what a flush of one device has established so far |
| ZapStoreFlush.DirtyTable.MarkLocked | components/zap_store/zap_store_flush.cpp:178-225 | A mark re-marks its slot, or takes a free one; it fails exactly when the table is full of others |
| ZapStoreFlush.DirtyTable.FlushBegin | components/zap_store/zap_store_flush.cpp:130-145 | A flush takes a dirty slot (of one device, if asked for one); a slot in flight is reported busy |
| ZapStoreFlush.DirtyTable.FlushSettle | components/zap_store/zap_store_flush.cpp:160-176 | A slot written or dropped is freed unless it was marked again; one that failed stays dirty |
| ZapStoreFlush.DirtyTable.NoneFlushing | components/zap_store/zap_store_flush.cpp:229-241 | The barriers' test: whether nothing is being written at this instant |
| HapProtocol.RoundTrip | components/hap_protocol/hap_protocol.cpp:27-83 | Decoding undoes encoding for every payload up to 4096 bytes, whatever follows it; a longer one is encoded and then refused as overflow |
| HapProtocol.PayloadChangeDetected | components/hap_protocol/hap_protocol.cpp:56-83 | Any change of one payload byte or of two neighbouring ones is reported as a CRC error |
| HapProtocol.HeaderChangeDetected | components/hap_protocol/hap_protocol.cpp:56-83 | Any one changed header byte is reported |
| HapProtocol.StagesRoundTrip | components/hap_protocol/hap_protocol.cpp:118-174 | Both stages undo their encoders up to 4096 payload bytes |
| HapProtocol.StageChangeDetected | components/hap_protocol/hap_protocol.cpp:118-174 | One byte or two neighbours changed are reported in either stage |
| HapProtocol.StepsLinear | components/hap_protocol/hap_protocol.cpp:6-14 | The CRC step is linear over exclusive or |
| HapProtocol.StepsOneToOne | components/hap_protocol/hap_protocol.cpp:6-14 | The CRC step is one-to-one |
| HapProtocol.TwoBytesDetected | components/hap_protocol/hap_protocol.cpp:6-14 | Two messages that differ only in two neighbouring bytes have different CRC-16s |
| HapProtocol.Crc8Detects | components/hap_protocol/hap_protocol.cpp:16-24 | Two messages that differ in one byte have different CRC-8s |
| HapProtocol.HapDecodeStream | components/hap_protocol/hap_protocol.cpp:85-116 | Consumes at least one byte unless the frame is truncated, a whole frame when there is one, and never skips a later preamble start |
| HapProtocol.HapEncode | components/hap_protocol/hap_protocol.cpp:27-54 | Writes exactly the frame's wire form and nothing behind it, or nothing at all when it does not fit |
| HapProtocol.HapDecode | components/hap_protocol/hap_protocol.cpp:56-83 | The decoder on a buffer is the decoder the round trip is proved about |
| HapProtocol.HapCrc16 | components/hap_protocol/hap_protocol.cpp:6-14 | The byte loop computes the CRC the detection lemmas are about |
| HapProtocol.HapCrc8 | components/hap_protocol/hap_protocol.cpp:16-24 | The same for the header's CRC-8 |
| HapProtocol.HapEncodeStage1 | components/hap_protocol/hap_protocol.cpp:118-134 | Writes the 16-byte header stage |
| HapProtocol.HapDecodeStage1 | components/hap_protocol/hap_protocol.cpp:136-156 | Reads it back, refusing a bad preamble, CRC or length |
| HapProtocol.HapEncodeStage2 | components/hap_protocol/hap_protocol.cpp:158-168 | Writes the payload and its CRC, or nothing when it does not fit |
| HapProtocol.HapVerifyStage2 | components/hap_protocol/hap_protocol.cpp:170-174 | Accepts exactly a payload followed by its CRC |
| HapSession.DispatchedOnce | components/hap_session/hap_session.cpp:105-127 | Over a channel that loses, duplicates and reorders, a NEEDS_ACK frame dispatched twice has at least 64 others dispatched in between |
| HapSession.FreshIsDispatched | components/hap_session/hap_session.cpp:318-395 | A frame not dispatched yet always is when it arrives; one is dropped only while the ring holds it; every NEEDS_ACK arrival is acknowledged |
| HapSession.AckMeansDispatched | components/hap_session/hap_session.cpp:318-395 | A slot is freed by an ACK only when the peer has dispatched that frame |
| HapSession.SixTransmissions | components/hap_session/hap_session.cpp:422-483 | Each ACK-tracked frame goes out at most six times |
| HapSession.RetryIsOriginal | components/hap_session/hap_session.cpp:422-483 | A retransmission is the original frame, byte for byte |
| HapSession.FirstIsOriginal | components/hap_session/hap_session.cpp:244-316 | In any run, a first transmission is the original frame if and only if, of all frames put into its slot so far, the last one that reaches each byte of its body has that very byte there |
| HapSession.UntouchedIsOriginal | components/hap_session/hap_session.cpp:244-316 | So it is the original whenever no other frame was put into its slot since, whether the slot is still its own or was freed |
| HapSession.NewestTears | components/hap_session/hap_session.cpp:287-314 | And it is torn whenever the newest frame in its slot differs from it in a byte that both have |
| HapSession.ReuseTears | components/hap_session/hap_session.cpp:287-314 | However its slot came free before it went out, the next frame that takes the slot and differs in a common byte tears it |
| HapSession.TornAfterAck | components/hap_session/hap_session.cpp:244-316 | A concrete run without any link reset (an ACK of a retransmission frees the slot) in which a torn frame goes out |
| HapSession.TornFirst | components/hap_session/hap_session.cpp:202-223 | A concrete run with a link reset in which a first transmission carries another frame's bytes and is dispatched |
| HapSession.SeqAfterIs | components/hap_session/hap_session.cpp:225-242 | The n-th next sequence number in closed form, 0 skipped |
| HapSession.SeqsDiffer | components/hap_session/hap_session.cpp:225-242 | No number is 0, and 65535 in a row are all different |
| HapSession.InvStep | components/hap_session/hap_session.cpp:202-483 | Every step of both sides and the channel keeps the link's invariant |
| HapSession.InvRun | components/hap_session/hap_session.cpp:202-483 | And every run from a fresh link does |
| HapSession.Session.Accept | components/hap_session/hap_session.cpp:244-316 | A send takes the first free slot and copies the payload into it, or refuses without disturbing another frame |
| HapSession.Session.OnAck | components/hap_session/hap_session.cpp:318-395 | An ACK frees the slot of its number and no other |
| HapSession.Session.TickOne | components/hap_session/hap_session.cpp:422-483 | A due slot is retransmitted from its own bytes, or given up after five retries; one that is not due is left alone |
| HapSession.Session.OnData | components/hap_session/hap_session.cpp:318-395 | Whether an arriving frame is dispatched and acknowledged, and the ring after it |
| HapSession.Session.NextSeqNumber | components/hap_session/hap_session.cpp:225-242 | Returns the next number, never 0 |
| HapSession.Session.ResetLink | components/hap_session/hap_session.cpp:202-223 | Every slot becomes idle; its buffer stays |
| ZigbeePool.Pool.FindByIeee | components/zigbee_mgr/zigbee_pool.cpp:93-107 | Equals the first match of a linear scan whenever the index was dirty or no address changed since it was built; never returns a device with another address |
| ZigbeePool.Pool.FindByNwk | components/zigbee_mgr/zigbee_pool.cpp:109-123 | The same for network addresses |
| ZigbeePool.Pool.HashRebuild | components/zigbee_mgr/zigbee_pool.cpp:72-90 | Terminates for every pool of up to 200 devices and leaves both indexes built for it |
| ZigbeePool.Pool.Add | components/zigbee_mgr/zigbee_pool.cpp:173-185 | Appends a zeroed device and marks the index dirty; a full pool is left alone |
| ZigbeePool.Pool.Remove | components/zigbee_mgr/zigbee_pool.cpp:187-196 | Swap-with-last removal; an index out of range does nothing |
| ZigbeePool.Pool.MarkDirty | components/zigbee_mgr/zigbee_pool.cpp:203-207 | The next lookup rebuilds the index |
| ZigbeePool.SomeEmpty | components/zigbee_mgr/zigbee_pool.cpp:72-90 | With at most 200 of 256 slots filled, probing from anywhere meets an empty slot, so the insertion loops end |
| ZigbeePool.FillBuilt | components/zigbee_mgr/zigbee_pool.cpp:72-90 | Filling the first empty slot from a key's home keeps the index built |
| ZigbeePool.ProbeIsScan | components/zigbee_mgr/zigbee_pool.cpp:93-123 | In a built index, probing to an empty slot finds nothing exactly when the scan does, and else the scan's first match |
| ZigbeePool.RemovedKeepsOthers | components/zigbee_mgr/zigbee_pool.cpp:187-196 | A removal takes out that device and keeps every other |
| ShadowPipeline.DebounceRefinesDirect | components/device_shadow/shadow_pipeline.cpp:65-102 | With at most 32 distinct keys waiting, merged and flushed reports read exactly (keys, order, values) like reports written one by one, secret keys and the 32-slot drop included |
| ShadowPipeline.DebounceIsDirect | components/device_shadow/shadow_pipeline.cpp:65-84 | For every cache, buffer and list of reports, without any limit: merging then flushing reads like writing at once the reports the full buffer did not drop |
| ShadowPipeline.FlushedReadsDirect | components/device_shadow/device_shadow.cpp:677-784 | After any run of reports and flushes that ends with a flush, readers see what they would have seen without debounce |
| ShadowPipeline.DebounceRun | components/device_shadow/device_shadow.cpp:720-784 | And at every moment of the run, what a flush would leave reads like the direct cache |
| ShadowPipeline.SecretTakesASlot | components/device_shadow/shadow_pipeline.cpp:79-81 | The limit of 32 is sharp and secret keys count in it: 33 keys with a secret one among them lose a key that a direct update keeps |
| ShadowPipeline.DropMatters | components/device_shadow/shadow_pipeline.cpp:65-84 | For every cache and buffer, a report that finds the buffer full of other keys is noticed after the flush unless its key is secret, the cache already reads so, or the cache is full without its key: if and only if |
| ShadowPipeline.DebounceExactly | components/device_shadow/shadow_pipeline.cpp:65-102 | For every cache, buffer and list of reports, debounce reads like direct update if and only if, of every key the buffer has no place for, the loss heals by the end: the key is secret, or its last report tells what the cache reads anyway, or the cache had no room for it |
| ShadowPipeline.BytesDiffer | components/device_shadow/device_shadow.cpp:616-631 | Only the reading is equal: a text replaced by a number in the buffer leaves the same bytes as a direct update if and only if the text's tail was blank |
| ShadowPipeline.ReplaceIsPut | components/device_shadow/shadow_pipeline.cpp:73-78 | A newer value put in an older one's place, then flushed, reads as if written after the whole buffer |
| ShadowPipeline.PutsCommute | components/device_shadow/device_shadow.cpp:616-673 | Writes of two keys may trade places once one of them cannot add a slot |
| ShadowPipeline.FilterPasses | components/device_shadow/shadow_pipeline.cpp:10-28 | No filtered key passes; an empty list passes everything that fits, in order |
| ShadowPipeline.Filter | components/device_shadow/shadow_pipeline.cpp:10-28 | The filter loop writes exactly the unfiltered attributes, and nothing behind them |
| ShadowPipeline.ShadowEntry.MergePending | components/device_shadow/shadow_pipeline.cpp:65-84 | The merge loops over the buffer array are the merge the refinement is proved about |
| ShadowPipeline.ShadowEntry.FlushPending | components/device_shadow/shadow_pipeline.cpp:86-102 | Takes the oldest attributes that fit and moves the others down |
| ShadowPipeline.ShadowEntry.UpsertCache | components/device_shadow/device_shadow.cpp:616-673 | The cache loops write the attributes one after the other |
| ShadowPipeline.ShadowEntry.FlushPendingEntry | components/device_shadow/device_shadow.cpp:773-784 | The whole buffer goes to the cache and the entry is marked exactly when it was not empty |
| ShadowPipeline.ShadowEntry.DebounceBypass | components/device_shadow/shadow_pipeline.cpp:42-63 | With a key off the ignore list always the buffer; on it, the place whose value differs, or straight to the cache |
| DeviceShadow.RemovedForGood | components/device_shadow/device_shadow.cpp:1363-1425 | A remove that found its entry and erased both keys: whatever sweeps, flush_now, setters, other removes, reports and restarts do before, between and after, flash holds neither key until the entry is created again |
| DeviceShadow.InvStep | components/device_shadow/device_shadow.cpp:157-171 | Every event keeps: no device twice, booked checksums tell what flash holds, gone devices have no key, and what flush_now owes is saved or still ahead |
| DeviceShadow.InvRun | components/device_shadow/device_shadow.cpp:805-1425 | And every run of events does |
| DeviceShadow.UnknownStays | components/device_shadow/device_shadow.cpp:397-406 | Only an event that creates an entry of a device can bring it into the table |
| DeviceShadow.CopiedOrSaved | components/device_shadow/device_shadow.cpp:218-225 | A dirty entry is either copied to be written, or flash already holds what would be written |
| DeviceShadow.ConfigSkipRight | components/device_shadow/device_shadow.cpp:279-304 | A settings push skipped as unchanged is right if and only if the device's last save to reach flash was not reported as failed |
| DeviceShadow.FailedSaveHides | components/device_shadow/device_shadow.cpp:264-304 | A concrete family: after a save that reached flash but failed to commit, the old settings pushed again are not written and flash keeps the others |
| DeviceShadow.FlushNowCovers | components/device_shadow/device_shadow.cpp:1040-1073 | When flush_now ends, every device that had unsaved attributes at the call and was not removed is saved or in the set it missed |
| DeviceShadow.SavedIsOnFlash | components/device_shadow/device_shadow.cpp:1040-1073 | Saved means on flash: a copy taken since the call, or bytes flash held already |
| DeviceShadow.MissedWhy | components/device_shadow/device_shadow.cpp:1040-1073 | One event makes flush_now miss a device if and only if it is a failed write of it, its clear, or a removal that moves its entry behind the loop's index |
| DeviceShadow.SavedExactly | components/device_shadow/device_shadow.cpp:1040-1073 | Over a whole call with anything in between, a device with unsaved attributes that is not removed ends saved unless some event misses it and none saves it |
| DeviceShadow.FlushNowIsDurable | components/device_shadow/device_shadow.cpp:1040-1073 | When flush_now returns, flash holds for every such device that nothing missed, or that was saved all the same and not cleared, attributes it had at some moment since the call |
| DeviceShadow.FlushNowMisses | components/device_shadow/device_shadow.cpp:1040-1073 | That last way happens: a removal during flush_now leaves a device unsaved that the loop never visits |
| ShadowTable.RemoveKeepsTimers | components/device_shadow/device_shadow.cpp:1371-1399 | Compaction keeps every live timer's ID on the entry that owns it, and leaves no entry with a deleted timer |
| ShadowTable.CallbackFindsOwner | components/device_shadow/device_shadow.cpp:502-547 | A timer belongs to an entry if and only if its ID is that entry's index |
| ShadowTable.CreateKeepsTimers | components/device_shadow/device_shadow.cpp:696-700 | Creating an entry's timer points it at that entry and disturbs no other |
| ShadowTable.ClearKeepsTimers | components/device_shadow/device_shadow.cpp:1273-1302 | Clearing an entry deletes its timers and no other |
| ShadowTable.Shadow.FindEntry | components/device_shadow/device_shadow.cpp:390-395 | The first entry of a device, or none |
| ShadowTable.Shadow.FindOrCreateEntry | components/device_shadow/device_shadow.cpp:397-406 | Finds or appends a fresh entry; none when 200 devices are there; no other entry changes |
| ShadowTable.Shadow.CopyForFlash | components/device_shadow/device_shadow.cpp:840-863 | The sweep's copy under the lock: the bytes to write, or none when clean or already on flash |
| ShadowTable.Shadow.MarkAfterFailure | components/device_shadow/device_shadow.cpp:868-879 | After a failed write the entry is found again by its device and marked; a device gone meanwhile is left gone |
| ShadowTable.Shadow.SetConfigLocked | components/device_shadow/device_shadow.cpp:1218-1248 | A setter's locked half: clamped settings in the entry, and a snapshot to save exactly when they differ from the booked ones |
| ShadowTable.Shadow.BookSavedConfig | components/device_shadow/device_shadow.cpp:294-304 | Books the saved settings on the entry if it is still there |
| ShadowTable.Shadow.RemoveAt | components/device_shadow/device_shadow.cpp:1371-1399 | The removed timers deleted, the last entry moved in with its timers re-pointed, the tail slot zeroed |
| ShadowTable.Shadow.RemoveLocked | components/device_shadow/device_shadow.cpp:1363-1401 | The locked half of a remove: exactly that device leaves the table; an unknown one changes nothing |
| ShadowTable.Shadow.ClearAttrs | components/device_shadow/device_shadow.cpp:1273-1302 | Attributes and timers of one device go, its slot and settings stay, and no other entry or timer changes |
| ShadowTable.Shadow.ArmTimer | components/device_shadow/device_shadow.cpp:696-700 | Creates one timer of one entry, pointing at it, unless it is there or the timer heap is exhausted; no other entry or timer changes |
| ShadowTable.Shadow.DropTimer | components/device_shadow/device_shadow.cpp:1427-1458 | Deletes one timer of one entry and changes no other |
| ShadowTable.Shadow.Callback | components/device_shadow/device_shadow.cpp:502-547 | Whatever was moved, a callback reads the device that owns its timer |
| ShadowTable.SerializeBlob | components/device_shadow/device_shadow.cpp:197-213 | The serialising loop keeps everything but the volatile keys, in order |
| DeviceShadow.SwapRemovedKnown | components/device_shadow/device_shadow.cpp:1378-1399 | Swap-with-last removal takes out that device and keeps every other's entry whole |
| SimpleRules.DrainTerminates | components/simple_rules/simple_rules.cpp:34-42 | Draining to quiet terminates: with no other publisher, no run of dispatches, in any order of the queues and with the rules edited at will, is longer than what the queues held is worth |
| SimpleRules.ChainIsShort | components/simple_rules/simple_rules.cpp:603-627 | With the 16-place queue that overwrites its oldest, external events cause at most 144 dispatches of rule events: at most 16 of each hop 0 to 8 |
| SimpleRules.TurnShrinks | components/event_bus/event_bus.cpp:399-412 | Every single dispatch leaves strictly less to do |
| SimpleRules.FeedbackIsBounded | components/simple_rules/simple_rules.cpp:763-796 | Over any run of events, firings, reloads, edits, switches, rebinds, adds and deletes: a rule that stays in the table runs by itself, while able to feed back, at most 40 times in any 60 seconds and at most 20 times in its current window |
| SimpleRules.CappedKeeps | components/simple_rules/simple_rules.cpp:776-796 | The two counters keep standing for the runs let go, also across a wrap of the 32-bit clock |
| SimpleRules.AtMostForty | components/simple_rules/simple_rules.cpp:753-763 | Runs spaced so that any 41 take more than 60 seconds are at most 40 in any 60 seconds |
| SimpleRules.HeldIff | components/simple_rules/simple_rules.cpp:776-796 | A run is held if and only if 20 were let go in the window it falls into |
| SimpleRules.ReloadAdmits | components/simple_rules/simple_rules.cpp:132-200 | After any reload, the next automatic run of a rule that can feed back is let go if and only if the table did not have the rule, or the counters it had there let the run go |
| SimpleRules.ReloadForgets | components/simple_rules/simple_rules.cpp:132-200 | With reloads that leave the rule out and read it back, a rule runs by itself 20 n times in one second, for every n |
| SimpleRules.FiresExactly | components/simple_rules/simple_rules.cpp:848-869 | In any table and over any run of dispatches, a report of its attribute fires a rule if and only if the report comes to it (the rule is enabled and fewer than 16 before it are picked) and is a change from the last report that did |
| SimpleRules.FiresOnChange | components/simple_rules/simple_rules.cpp:393-415 | A rule to which every earlier report of its attribute came keeps the promise (it fires exactly on a change from the last report) if and only if this report comes to it too, or is no change |
| SimpleRules.CrowdedOut | components/simple_rules/simple_rules.cpp:848-869 | A concrete table: behind sixteen firing rules, a rule misses the report that makes its comparison hold, and fires on the heartbeat that repeats it |
| SimpleRules.EditFires | components/simple_rules/simple_rules.cpp:433-452 | Whatever the rule was before the edit, the first report after it, of any value, fires it if and only if the new condition holds and nothing the rule knows says it did before: the shadow's value, or else the memory when the trigger is the same in all that the source compares |
| SimpleRules.EditedRuleFires | components/simple_rules/simple_rules.cpp:1157-1163 | An edit that fires its rule: a rule that has seen its attribute is moved to one that the shadow does not know, and the heartbeat of that one fires it |
| SimpleRules.HeartbeatNeverFires | components/simple_rules/simple_rules.cpp:443-452 | A rule loaded while the shadow knows its attribute is not fired by the report that repeats that value |
| SimpleRules.DispatchedPublishes | components/simple_rules/simple_rules.cpp:832-874 | Every dispatch by any rule set of at most four actions each publishes at most 64 events, all one hop on, and none from hop 8 |
| SimpleRules.RuleEngine.EvaluateRule | components/simple_rules/simple_rules.cpp:393-415 | The change test, and the rule's memory afterwards whether it fires or not |
| SimpleRules.RuleEngine.Collect | components/simple_rules/simple_rules.cpp:848-869 | Picks the first 16 enabled rules that fire, in order, with their ids; later rules do not see the event |
| SimpleRules.RuleEngine.OverRunCap | components/simple_rules/simple_rules.cpp:776-796 | The run cap as the source counts it; a rule that cannot feed back is never held nor counted |
| SimpleRules.RuleEngine.Execute | components/simple_rules/simple_rules.cpp:471-708 | Publishes the rule's events in order, one hop on, none from hop 8; reports the first action that failed |
| SimpleRules.RuleEngine.FireRule | components/simple_rules/simple_rules.cpp:803-828 | Runs a rule that is still in place, enabled or fired by hand, and not held; books the run |
| SimpleRules.RuleEngine.DispatchEvent | components/simple_rules/simple_rules.cpp:832-874 | The table and the queue after one event, and that what was published is within bounds |
| SimpleRules.RuleEngine.DrainRuleEvents | components/event_bus/event_bus.cpp:334-350 | The drain loop ends with an empty queue, after at most 144 dispatches when the queue held external events |
| SimpleRules.RuleEngine.Reload | components/simple_rules/simple_rules.cpp:132-178 | Each rule read again takes its counters from the one with its id, and its trigger memory from the shadow, else from that one when the trigger is the same in all that the source compares |
| SimpleRules.RuleEngine.UpdateRule | components/simple_rules/simple_rules.cpp:1103-1168 | An edit keeps the counters and reseeds the memory; an unknown rule changes nothing |
| SimpleRules.RuleEngine.DeleteRule | components/simple_rules/simple_rules.cpp:1172-1182 | The last rule moves into the deleted one's place |
| ExprMeaning.ShowComputes | components/simple_rules/expr_eval.cpp:82-262 | Every tree of the grammar has a text, with any blanks in front and behind every token; it is accepted if and only if the tree is within the caps, and computes it |
| ExprMeaning.SumDifferenceProduct | components/simple_rules/expr_eval.cpp:246-256 | For any two operands (decimal numbers up to INT32_MAX, or %value%), the texts a+b, a-b and a*b give sum, difference and product, held at the ends of the int32 range |
| ExprMeaning.QuotientRemainder | components/simple_rules/expr_eval.cpp:100-110 | a/b and a%b are refused exactly when b is the literal 0, give nothing when b is 0, and else the truncated quotient and the remainder with the sign of a |
| ExprMeaning.SignAndNot | components/simple_rules/expr_eval.cpp:233-240 | -a changes the sign, of the least number to the greatest; !a is 1 for 0 and else 0 |
| ExprMeaning.SumOfProduct | components/simple_rules/expr_eval.cpp:31-38 | a+b*c takes the product first |
| ExprMeaning.DifferenceFirst | components/simple_rules/expr_eval.cpp:173-188 | a-b-c takes the first two first |
| ExprMeaning.ProductOfSum | components/simple_rules/expr_eval.cpp:189-199 | (a+b)*c takes the sum first |
| ExprMeaning.SignFirst | components/simple_rules/expr_eval.cpp:31-38 | -a*b changes the sign first |
| ExprMeaning.Precedence | components/simple_rules/expr_eval.cpp:173-188 | For every two operator characters s and t, a s b t c compiles to the program of a s (b t c) when s is + or - and t is not, and to that of (a s b) t c in every other case |
| ExprMeaning.LexShow | components/simple_rules/expr_eval.cpp:112-202 | Lexing a tree's text gives the tree's tokens |
| StoreMove.TrialKeepsOld | components/zap_store/zap_store.cpp:444-457 | A boot on trial, cut after any of its writes, leaves `nvs` as it was and sets no final mark while none is set |
| StoreMove.TrialRun | components/zap_store/zap_store.cpp:444-457 | Over any run whose boots are all on trial and without a confirmation, no final mark gets set, and `nvs` is what the shipped or an older build last left there (or this build itself, while its copy failed) |
| StoreMove.MovedBootIs | components/zap_store/zap_store.cpp:394-404 | A boot with a final mark: shut when `zhac_data` lost its copy, else on `zhac_data` with the missing mark repeated, and off trial the leftovers on `nvs` erased, in order, as far as the erases succeed |
| StoreMove.CopiedBootIs | components/zap_store/zap_store.cpp:405-467 | A boot without one: a whole copy of what `nvs` holds (or of an `nvs` since wiped) is kept, else a new one taken; off trial the marks that can be set are set, and once one is, what `nvs` held is erased as far as the erases succeed |
| StoreMove.FailedCopyIs | components/zap_store/zap_store.cpp:434-443 | A copy that fails before its last write leaves the store on `nvs`, as it was |
| StoreMove.ConfirmedIs | components/zap_store/zap_store.cpp:471-478 | A confirmation at run time sets the marks that can be set, on `zhac_data` only, and erases nothing |
| EventOrder.ReceivedInOrder | components/event_bus/event_bus.cpp:283-300 | In every run and for every queue: what drainers received, in order, and then what the queue holds is what was sent to it, in order, without what was evicted; so a sent event that is not evicted is received at most once and in the order of sending |
| EventOrder.StepMoves | components/event_bus/event_bus.cpp:283-350 | Every step of every task moves a queue by its head and its tail only: [received] + after is before + [sent], or the head alone is evicted; a queue created is new and empty |
| EventOrder.OfferedOnce | components/event_bus/event_bus.cpp:284-300 | A publisher sends its event once to a target with room; at a full queue it evicts the oldest, tries once more and goes on |
| EventOrder.HandedInOrder | components/event_bus/event_bus.cpp:337-345 | In every run each task hands to its handler what it received, once and in order, but for what it refused; at most one message is in between |
| EventOrder.RefusedOnlyWhenEnded | components/event_bus/event_bus.cpp:337-342 | A drainer refuses a message if and only if the subscription it entered with has ended |
| Cron.DateFires | components/cron_parser/cron_parser.cpp:191-207 | For every expression, offset, date and time of day: with neither day field starred it fires if and only if the day is listed in either one, with one starred if and only if the other lists it, with both starred on every day; month, hour, minute and second as listed |
| Cron.MonthDays | components/cron_parser/cron_parser.cpp:169-178 | The months have 31 and 30 days, February 28, or 29 in a leap year |
| Cron.Epoch | components/cron_parser/cron_parser.cpp:169-178 | 1 January 1970 was a Thursday |
| Cron.WeekDayTurns | components/cron_parser/cron_parser.cpp:169-178 | Every day takes the week day after the last, and an offset shifts the clock |
| Cron.TextParses | components/cron_parser/cron_parser.cpp:19-31 | A number in decimal reads as itself, up to INT_MAX |
| Cron.NumberField | components/cron_parser/cron_parser.cpp:87-91 | A field that is a plain number denotes that number, when it is in range |
| Cron.PairField | components/cron_parser/cron_parser.cpp:64-94 | Two numbers and a comma denote both |
| Cron.RangeField | components/cron_parser/cron_parser.cpp:68-86 | A-B/N denotes every N-th number from A to B |
| Cron.StarField | components/cron_parser/cron_parser.cpp:39-52 | A star denotes the whole range, with /N every N-th of it |
| Cron.FiveNumbers | components/cron_parser/cron_parser.cpp:112-165 | Five plain numbers are minute, hour, day, month and week day, in that order, and parse if and only if each is in its range |
| Cron.SixNumbers | components/cron_parser/cron_parser.cpp:131-145 | A sixth number in front is the second |
| HapWire.Crc16ByByte | components/hap_protocol/hap_protocol.cpp:6-14 | The 16-bit checksum starts at 0xFFFF, and each byte more turns its register into the closed form of CRC-CCITT |
| HapWire.Crc8ByByte | components/hap_protocol/hap_protocol.cpp:16-24 | The 8-bit checksum starts at 0, and each byte more turns it into the closed form of polynomial 0x07 |
| HapWire.HeaderBytes | components/hap_protocol/include/hap_protocol.h:22-33 | The header byte by byte: 0xAA 0x55 0xFE, version 4, type, flags, sequence number, acknowledged number and length, low bytes first |
| HapWire.FrameBytes | components/hap_protocol/include/hap_protocol.h:22-33 | A frame: header, CRC-8, payload, and its CRC-16 with the low byte first |
| HapWire.StageBytes | components/hap_protocol/hap_protocol.cpp:118-168 | The two stages: header, zero, CRC-16 over 13 bytes, zero; and payload with its CRC-16 |
| HapWire.Refusals | components/hap_protocol/hap_protocol.cpp:56-67 | The decoder's refusals of a header, in the order it looks: preamble, version, header CRC |
| HapWire.PayloadRefusals | components/hap_protocol/hap_protocol.cpp:68-83 | With a good header: a length over 4096, a length over what is there, a wrong payload CRC; else the frame with its numbers, low bytes first |
| HapWire.JoinIs | components/hap_protocol/hap_protocol.cpp:68-83 | A word read from two bytes is 256 times the second plus the first |
| HapSteps.SendTakesSlot | components/hap_session/hap_session.cpp:244-316 | A send that expects an ACK takes an idle slot with the frame's bytes in its buffer, and its first transmission is due |
| HapSteps.SendElse | components/hap_session/hap_session.cpp:244-316 | It is refused without any change when all 16 slots are busy or the payload passes 4096 bytes; a frame without ACK goes straight onto the wire |
| HapSteps.FirstOnWire | components/hap_session/hap_session.cpp:287-314 | A first transmission puts its header over the bytes in the slot's buffer |
| HapSteps.TickTurn | components/hap_session/hap_session.cpp:422-483 | A busy slot: nothing in the first second, then the original frame again, at most five times and a second apart, then given up |
| HapSteps.RetryOnWire | components/hap_session/hap_session.cpp:460-483 | What a tick copied out goes onto the wire as it is |
| HapSteps.AckFrees | components/hap_session/hap_session.cpp:318-420 | An acknowledgement frees the slot of its number, and no other |
| HapSteps.ArrivalHandedOn | components/hap_session/hap_session.cpp:318-420 | An arriving frame is handed on if and only if it expects no ACK or is not among the last 64 handed on, and one that expects an ACK gets it either way |
| RuleStoreSteps.EditAnswered | components/rule_store/rule_store_flush.cpp:164-217 | An edit waits in the table afterwards with no other slot changed, or all 64 slots wait for other rules and it is on its way to flash by itself |
| RuleStoreSteps.DirectReaches | components/rule_store/rule_store_flush.cpp:188-200 | That edit then is what flash holds |
| RuleStoreSteps.LoadAnswersEdit | components/rule_store/rule_store_flush.cpp:266-286 | A load of a rule with an edit waiting answers with that edit, a deletion as no rule |
| RuleStoreSteps.LoadAnswersFlash | components/rule_store/rule_store.cpp:140-155 | A load of a rule with none waiting answers with what flash holds |
| RuleStoreSteps.FlushCompletes | components/rule_store/rule_store_flush.cpp:110-162 | A flush without interruption: flash holds the edit and the slot is clean; when the write fails the slot waits again |
| RuleStoreSteps.EditedMeanwhile | components/rule_store/rule_store_flush.cpp:142-162 | A rule edited again while its edit was written keeps the newer one waiting |
| RuleStoreSteps.BarrierVisits | components/rule_store/rule_store_flush.cpp:235-256 | flush_now flushes what waits in each slot and passes over one with nothing waiting or written by someone else |
| RuleStoreSteps.BarrierWaits | components/rule_store/rule_store_flush.cpp:221-235 | Past the last slot it waits until nothing is being written |
| RuleStoreSteps.BarrierEnds | components/rule_store/rule_store_flush.cpp:237-256 | And ends there when nothing waits any more, or after the second pass in any case |
| ZapFlushSteps.MarkAnswered | components/zap_store/zap_store_flush.cpp:178-225 | After a mark the device waits in the table, with the higher priority and newer data noted, or the table is full of others and a save of it has begun |
| ZapFlushSteps.FlushCompletes | components/zap_store/zap_store_flush.cpp:130-176 | A flush without interruption: flash holds the pool's copy and the slot is free; when the write fails the slot waits again |
| ZapFlushSteps.FlushDrops | components/zap_store/zap_store_flush.cpp:148-170 | A flush of a device that left the pool touches no flash and frees the slot |
| ZapFlushSteps.MarkedMeanwhile | components/zap_store/zap_store_flush.cpp:160-170 | A slot marked again while it was written waits once more, however the write went |
| ZapFlushSteps.RemovalCompletes | components/device_cmd/device_cmd_ops.cpp:108-115 | A hard removal takes the device out of the pool, then off flash, and nothing else |
| ZapFlushSteps.FlushDeviceEnds | components/zap_store/zap_store_flush.cpp:243-273 | Its own flush: true when the slot settled or went to another device meanwhile, another look when it is being written, and else the answer of that flush: true when the device was written or had left the pool, false when the write failed |
| ZapFlushSteps.FlushDeviceTurns | components/zap_store/zap_store_flush.cpp:243-273 | flush_device: true at once when the device does not wait, its own flush of a waiting slot, another look while someone else writes it |
| ShadowMeaning.ShowsLast | components/device_shadow/device_shadow.cpp:616-673 | After any list of reports the cache shows of every key the last one, of the others what it showed before, and no key twice |
| ShadowMeaning.CodesStayOut | components/device_shadow/device_shadow.cpp:616-631 | The keypad's codes never get into the cache |
| ShadowMeaning.NewKeyJoins | components/device_shadow/device_shadow.cpp:616-673 | A new key joins at the end while the cache holds fewer than 32 |
| ShadowMeaning.FilterExactly | components/device_shadow/shadow_pipeline.cpp:10-28 | The filter lets exactly the other keys through, while there is room |
| ShadowMeaning.FlashHolds | components/device_shadow/device_shadow.cpp:187-216 | What goes to flash is every slot but last-seen time and link quality, in order |
| ShadowMeaning.SettingsKept | components/device_shadow/device_shadow.cpp:97-106 | Settings keep the first eight names of each list, and else what was given |
| ShadowMeaning.RestartGivesBack | components/device_shadow/device_shadow.cpp:956-1038 | A device whose attributes and settings are on flash comes back after a restart with both, booked as saved |
| RuleMeaning.FiresOnNumber | components/simple_rules/simple_rules.cpp:255-330 | Over any run, a number reported after a number fires a rule if and only if it comes to the rule and the comparison (>, <, >=, <=, =, !=, or a change) holds of it and not of the last one, a decimal literal against readings lifted by 100 |
| RuleMeaning.FirstNumberFires | components/simple_rules/simple_rules.cpp:393-415 | The first number that comes to a rule without memory fires it if and only if the comparison holds |
| RuleMeaning.FiresOnText | components/simple_rules/simple_rules.cpp:317-323 | A text after a text: only equality and its opposite compare, and fire on the change |
| RuleMeaning.KindsNeverMeet | components/simple_rules/simple_rules.cpp:306-315 | A number never meets a text literal nor a text a number; a bare attribute that changes kind has changed |
| RuleMeaning.EveryReportFires | components/simple_rules/simple_rules.cpp:366-381 | A rule on a whole device, or on a momentary key, fires at every report that comes to it |
| RuleMeaning.OthersNeverFire | components/simple_rules/simple_rules.cpp:276-293 | A report of another device or key fires no rule, and a name without a device is inert |
| RuleMeaning.NamedTriggers | components/simple_rules/simple_rules.cpp:331-356 | Rule events, timers, messages and the start fire exactly the rules that name them |
| RuleMeaning.ComesTo | components/simple_rules/simple_rules.cpp:848-869 | An event comes to a rule if and only if the rule is enabled and fewer than 16 rules before it are picked for it |
| RuleMeaning.PicksAscend | components/simple_rules/simple_rules.cpp:848-869 | The picked rules are in table order |
| RuleMeaning.RunInOrder | components/simple_rules/simple_rules.cpp:861-874 | The picked rules run one after the other, each from the table the earlier ones left, and their events are published in that order |
| RuleMeaning.RunBooked | components/simple_rules/simple_rules.cpp:803-828 | A run let go publishes its rule's events and is booked on that rule alone: one more run, the time, the first failed action; a run held publishes nothing |
| RuleMeaning.EditKeepsMemory | components/simple_rules/simple_rules.cpp:433-452 | An edit while the shadow does not know the attribute keeps the rule's memory if and only if device, key, operator and literal stay the same (numbers by the number alone) |
| RuleMeaning.EditTakesShadow | components/simple_rules/simple_rules.cpp:433-452 | While the shadow knows it, the memory is the shadow's value |
| RuleMeaning.FirstFailure | components/simple_rules/simple_rules.cpp:471-708 | A run reports the first action that failed, 0 when none did |
| RuleMeaning.EmitsInOrder | components/simple_rules/simple_rules.cpp:603-627 | A run publishes each of its events once, in order and one hop on, and none at hop 8 |
| RuleMeaning.NewestSixteen | components/event_bus/event_bus.cpp:284-300 | The queue holds the newest 16 of what was there and what came, in order |
| RuleMeaning.SelfFeeding | components/simple_rules/simple_rules.cpp:603-627 | A rule that publishes the event it waits for is cut at the eighth hop |
| RuleMeaning.DispatchedInOrder | components/event_bus/event_bus.cpp:334-350 | While the queue has room: the events dispatched and then those queued are those there were and then those published, in order |
| RuleMeaning.RunsExactly | components/simple_rules/simple_rules.cpp:776-815 | An automatic run is let go if and only if its rule is in place and enabled and, if it drives a device or a script from an attribute, had fewer than 20 runs in this window |

## Left out

Of the modelled files:

- ExprEval: the wording of error messages and the null text pointer.
- ZapStore: the schema-version wipe, the last_seen side-car, the uplink flag, and flash writes that fail without a power cut.
- DataPart: an unusable `zhac_data`, an unreadable `nvs` and hardware without the partition; entries are copied by value whatever their type, and the checksum is collision-free.
- DataPart.BootRunsOnNewest: assumes that clearing "done" does not fail and that an older build's changes and wipes can be told, as the property is false otherwise (`FailedClearLosesSave`, `ChangeBackIsMissed`, `WipeExactly`).
- EventBus: event filters other than their outcome, the deprecated drain-by-type wrapper, the pump's notification, and use before init.
- RuleStore: damaged or wrong-size rows, name trimming, the highest-id scan, the schema version, and waits that time out.
- ZapStoreFlush: the flush-all barrier (as the rule store's), the last_seen side-car, timing of the two priorities, and use before the task or the snapshot callback is there.
- Cron: daylight saving and leap seconds; local time is a fixed offset from UTC, bit masks are sets.
- HapSession: synchronisation frames, sequence wrap within one window, callbacks other than the dispatch.
- HapProtocol: bytes are sequences of eight booleans.
- ZigbeePool: the locked snapshot helpers and the restore from flash.
- ShadowPipeline: time stamps of cached attributes, throttling, published events, and writes of synthetic attributes (`_last_seen`, occupancy timeouts, optimistic values) between a report and its flush, which are not debounced.
- ShadowPipeline.DebounceRefinesDirect: is about an empty ignore list; attributes on it go straight to the cache.
- DeviceShadow: the minimum intervals between writes (a dirty entry may be copied at any time), the blob header checks on load, and the optimistic writes' missing dirty mark; boot restore reads and installs one device in one step while nobody writes flash; a flush_now that gets no memory for its scratch returns at once.
- DeviceShadow.RemovedForGood: requires both erases to succeed; after a failed erase the key stays.
- ShadowTable.Shadow.SetConfigLocked: leaves out that some setters first flush the debounce buffer, which is `ShadowPipeline`'s step.
- ShadowTable: a timer's period and whether it is running; timer commands take effect at once.
- SimpleRules: the rule language's parser, %value% expansion, device and MQTT commands (their success is an input), scripts, and the scheduler task.
- SimpleRules.DrainTerminates: is about rules without scripts and with no other publisher while the queue drains.
- SimpleRules.FiresExactly: is about dispatches between which the table is not edited; an edit or reload seeds the memory anew, which is `HeartbeatNeverFires` and `EditFires`. A picked rule may still be held by its run cap (`HeldIff`).
- SimpleRules.RuleEngine.Reload: the ids read from the store are distinct, which is `RuleStore.LoadAllIsAbs`.
- SimpleRules.FeedbackIsBounded: a rule that leaves the table and comes back is counted anew.

Not modelled at all, since they would only add easier members or stand on libraries that are not part
of this model: radio and coordinator code, Zigbee interviews and converters, MQTT, Telegram, TLS and
NTP, the JSON bridges and Home Assistant discovery, metrics, logging, and the NVS, queue, mutex, timer
and CRC32 internals, which appear as maps, bounded sequences, atomic steps and a collision-free sum.
