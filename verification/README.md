# Verified model of the DTNMA agent tools

This project models, in Dafny, the parts of the DTNMA agent whose behaviour is hardest to see from
the code, and proves what they promise over all inputs and all runs:

- the two-phase expression evaluator and the substitution of labels in filters
  (`Values`, `Eval`, `EvalLaws`, `Trees`, `Expressions`, `Substitutions`);
- the alarm store with its index, histories and shelf (`AlarmRows`, `Alarms`, `AlarmLaws`, `AlarmRuns`);
- the access control searches and the controls that keep their index (`Acl`, `AclControls`);
- the rule scheduler (`Rules`, `RuleRuns`) and the batching of reports (`Reports`);
- the collection of nested reports (`Collect`);
- the byte buffer and the streaming reader on top of it (`Data`, `Stream`, `Cbor`, `CborItems`);
- the binding of type uses and IDENT bases (`Binding`, `BindingRuns`, `BindingOrder`, `BindingPasses`,
  `BindingChecks`, `BindingReads`, `BindingLaws`) and the conversion of given parameters that it relies on (`Conversion`);
- the egress queue and its worker (`Egress`).

`dafny verify dfyconfig.toml` checks everything. Code that works in place is a class or a method with
loops, proved against functions on values; the properties are lemmas about those functions. Protocols
between threads are state machines whose steps are the atomic actions or the critical sections.
The object store, operator callbacks, the clock, the outcome of a send and the outcome of a rule's
expression are parameters.

## Where the code does not keep a promise

Each of these has a lemma with a witness and a lemma with the exact condition, unless it says otherwise.

- A counted OPER (one with an operand of bare sequence type) that finds too few values clears the stack
  and still pushes a result, so a list that is no expression at all can reduce to a value.
  `Trees.ShortCountReduces`; exact condition `Trees.ReducesIffPostfix`.
- A filter that is itself a label, not an AC, has its substituted value evaluated as the target, so a
  reference in that place is followed. `Expressions.FollowedRef` gives two stores that tell the difference;
  exact condition `Expressions.BareLabelFilter`.
- Recording an alarm drops the shelf lock before it takes the alarm lock, and adding a shelf row releases
  the shelf lock it means to take, so an alarm that a shelf row matches can stay in the table.
  `AlarmRuns.ReportOvertaken`, `AlarmRuns.ShelvingOvertaken`; exact condition for a section
  `AlarmRuns.ClearIffNotOvertaken` and for whole runs `AlarmRuns.ClearRunIff`.
- Discarding a group removes it from the index of accesses but not from the accesses.
  `AclControls.RecreatedGroupLosesAccess`; exact condition for one control `AclControls.DiscardGroupSync` and
  for whole runs `AclControls.IndexInEveryRun`.
- Growing a buffer at the front moves the old bytes the wrong way, while the header describes room at the
  front. `Data.GrowFrontIff` is the exact condition.
- At the largest system time the wake-up test also holds when no rule is due.
  `RuleRuns.NothingDueAtMax`; exact condition `RuleRuns.WakeUpExact`.
- A push into a full egress queue is refused, but its producer still posts the semaphore, so a later pop
  fails. `Egress.PopCanFail` is such a run; exact condition `Egress.FailedPops`.
- The egress failure counter is bumped before the sent counter, so for a moment it can be larger.
  `Egress.FailureSeenFirst`; exact condition `Egress.FailuresWithinSent`.
- A base of an IDENT that gives parameters resolves only once the parameter types of the IDENT it names
  are bound. So a repeat of binding over the same store can count fewer failures
  (`BindingPasses.RepeatMatters`), and the outcome depends on the order of the objects
  (`BindingPasses.OrderMatters`). The exact conditions can be read off the names before a pass:
  `BindingChecks.RepeatByNames` for the repeat, `BindingChecks.OrderByNames` and
  `BindingChecks.OrderByOwnNames` for the order. `BindingChecks.OneRepeatSuffices` says that a second pass
  always settles it.
- Every pass adds the reverse IDENT links it resolves again (`BindingPasses.RepeatedPasses`). Each link is
  there once for each pass exactly under the condition of `BindingPasses.LinksOncePerPassIff`.
- Binding one more use can make a lookup fail: a union keeps a value that matches one of its choices as it
  is, and the constraint of a use around the union applies to the result. So a repeat can count more
  (`Conversion.BindingMoreCanRefuse`), and so can a store with more objects
  (`Conversion.LargerStoreCanCountMore`). Without constraints neither happens, which is sufficient but not
  necessary: `Conversion.UnconstrainedIsMonotone` with `BindingRuns.RepeatCountIff` and
  `BindingRuns.LargerStore`.

## Model

| member | source | states |
|---|---|---|
| Values.LabelsGone | src/cace/ari/algo.c:256-454 | translation with label-free substitutes leaves no label in any container or parameter list it enters |
| Values.PlainUnchanged | src/cace/ari/algo.c:315-454 | translation of a value without labels is that value |
| Substitutions.LabelReplaced | src/refda/eval.c:322-344 | every label, at any depth of containers and parameters given in order, becomes exactly its value, wrapped in the operator `ref` only where a reference stands directly in the AC of the filter |
| Substitutions.OthersKept | src/cace/ari/algo.c:315-454 | at every place all that is no label stays, containers with their kind and size, references with their path |
| Substitutions.TranslationFailsIff | src/cace/ari/algo.c:315-454 | the translation of a filter without maps fails if and only if some label in it has no value |
| Substitutions.MapTranslated | src/cace/ari/algo.c:272-293 | in a translated map each key has the translated value of the last pair for it |
| Eval.EvalCtx.Populate | src/refda/oper_eval_ctx.c:44-116 | operands are popped last first and converted in place; too few leave the stack alone, a failed conversion is reported after all are popped |
| Eval.EvalCtx.RunCounted | src/refda/adm/ietf_dtnma_agent.c:6725-6757 | a counted operator takes its operands in stack order, or clears the stack when there are too few |
| Eval.EvalCtx.EvalOper | src/refda/eval.c:94-150 | one operator transforms the stack as specified, with the status code of each failure |
| Eval.EvalCtx.Expand | src/refda/eval.c:152-193 | expansion appends the expanded items, or stops with the code of the first item that fails |
| Eval.EvalCtx.ReduceInput | src/refda/eval.c:195-255 | reduction gives the single value left, the code of the first failing operator, or the non-single error |
| Eval.EvalCtx.ExpandTo | src/refda/eval.c:257-295 | a reference target is produced first; one that cannot be found expands to nothing without an error |
| Eval.EvaluateTarget | src/refda/eval.c:297-320 | expansion then reduction, the first error deciding |
| Eval.EvaluateFilter | src/refda/eval.c:346-392 | translation of the filter, then evaluation; a failed translation has code 2 |
| EvalLaws.ItemExpands | src/refda/eval.c:34-92 | a literal is itself, a producer gives the value it produces, an OPER stays one, and each other case has its own code |
| EvalLaws.ListExpands | src/refda/eval.c:152-193 | a list expands place by place, or fails with the code of its first place that fails |
| EvalLaws.TargetExpands | src/refda/eval.c:257-295 | what each kind of target expands to |
| EvalLaws.TypedStep | src/refda/oper_eval_ctx.c:44-116 | operand i of the callback is the conversion of the i-th of the values on top, deepest first; the converted result takes their place, and a result that does not convert has code 4 |
| EvalLaws.TypedFails | src/refda/oper_eval_ctx.c:72-116 | code 2 on a short stack, which stays, and on an operand that does not convert, with the operands gone |
| EvalLaws.CountedStep | src/refda/adm/ietf_dtnma_agent.c:6725-6757 | the callback gets the counted values from the top, deepest first and as they are; a short stack is emptied and a missing count takes nothing, both with an undefined result |
| EvalLaws.RefusedStep | src/refda/eval.c:94-116 | without a callback or a result type the stack stays, with codes 2 and 3 |
| EvalLaws.FirstFailure | src/refda/eval.c:195-255 | the first step that fails decides the code, whatever follows |
| EvalLaws.ReduceValues | src/refda/eval.c:232-250 | values alone reduce to the only one, or to the non-single error |
| EvalLaws.FilterOutcome | src/refda/eval.c:346-392 | which stage of a filter decides its outcome |
| EvalLaws.FalsyValues | src/cace/amm/typing.c:1270-1325 | the complete list of values that are not truthy |
| Trees.ReducePostfix | src/refda/eval.c:195-255 | reducing the postfix form of any tree gives exactly the tree's recursive value, or its first error |
| EvalLaws.NodeValue | src/refda/eval.c:94-150 | the value of a tree node is the converted result of its callback on the converted values of its arguments, in order |
| EvalLaws.NodeFails | src/refda/eval.c:94-150 | the code of a node that is refused or has an argument that does not convert |
| EvalLaws.NodeError | src/refda/eval.c:195-255 | the leftmost argument without a value decides the error of a node |
| Trees.PostfixUnique | src/refda/eval.c:195-255 | no two trees share a postfix form |
| Trees.StackDepth | src/refda/eval.c:199-230 | in a reduction that gets through, the stack depth after each item is the running sum of one minus the arity |
| Trees.ReducesIffPostfix | src/refda/eval.c:94-255 | a list that reduces to a value is the postfix form of exactly one tree, with that value, if and only if no counted operator ran short |
| Trees.TypedCountsFit | src/refda/oper_eval_ctx.c:74-79 | without operands of bare sequence type no list escapes that condition |
| Trees.ShortCountReduces | src/refda/adm/ietf_dtnma_agent.c:6740-6745 | a two-item list that reduces to a value although it is the postfix form of no tree |
| Expressions.EvaluatesToValue | src/refda/eval.c:34-320 | for every expression over references, evaluating its postfix list gives the value of the tree of its produced operands; an operand that cannot be produced decides the error before any operator is applied |
| Expressions.DanglingTarget | src/refda/eval.c:263-288 | a reference target that cannot be found passes expansion and ends as the non-single error |
| Expressions.RefOperSuffices | src/refda/adm/ietf_dtnma_agent.c:6403-6418 | the registered OPER `ref` returns every substituted reference as it is |
| Expressions.HygienicFilter | src/refda/eval.c:322-392 | evaluating a literal AC filter after substitution equals evaluating it with the label values pushed directly, for literals and references |
| Expressions.NeverDereferenced | src/refda/eval.c:322-344 | the outcome does not depend on what the store holds for a substituted reference |
| Expressions.BareLabelFilter | src/refda/eval.c:327-343 | for a filter that is itself a label, the outcome is the same in all stores that differ only in what they hold for the substitute if and only if the substitute is not a reference |
| Expressions.FollowedRef | src/refda/eval.c:257-320 | two stores that differ at one reference and evaluate it differently |
| AlarmRows.KeptInOrder | src/refda/alarms.c:436-465 | survivors of a purge are the rows at the positions not dropped, in their old order |
| AlarmRows.KeptExactly | src/refda/alarms.c:436-465 | a row survives if and only if it is not dropped, and unique keys stay unique |
| AlarmRows.KeptTwice | src/refda/alarms.c:424-469 | an immediate repeat of a purge or shelving removes nothing |
| AlarmRows.RecordedFound | src/refda/alarms.c:211-218 | recording changes the one row with that key and no other |
| AlarmRows.RecordedNew | src/refda/alarms.c:219-232 | recording under a new key appends one row |
| AlarmRows.HistoryUnseen | src/refda/alarms.c:319-348 | no filter can see the history column |
| AlarmRows.CompressTwice | src/refda/alarms.c:471-518 | compressing again through the same filter affects nothing |
| AlarmRows.ManageTwice | src/refda/alarms.c:520-570 | setting the same manager state through the same filter again affects nothing, although the first request changed columns the filter reads |
| AlarmLaws.RowLabels | src/refda/alarms.c:272-352 | which column of the row each label number stands for, and that no other number stands for one |
| AlarmLaws.RowNames | src/refda/alarms.c:272-317 | the five names, in any letter case, and no others |
| AlarmLaws.PurgedExactly | src/refda/alarms.c:424-469 | a row goes if and only if evaluating the filter with its labels succeeds with a truthy value |
| AlarmLaws.CompressedExactly | src/refda/alarms.c:471-518 | at each place exactly such a row keeps only its newest history item, and nothing else changes |
| AlarmLaws.ManagedExactly | src/refda/alarms.c:520-570 | at each place exactly such a row with another state gets state, manager and time, unless the shelved state is asked for, and nothing else changes |
| AlarmLaws.ChangesCounted | src/refda/alarms.c:471-570 | the number returned is the number of places at which the rows differ |
| AlarmLaws.RecordedFirst | src/refda/alarms.c:219-247 | every field of the row of an alarm recorded for the first time |
| AlarmLaws.RecordedAgain | src/refda/alarms.c:211-247 | every field of the row of an alarm recorded again, with all other rows unchanged |
| AlarmLaws.ShelvedExactly | src/refda/alarms.c:572-597 | applying a shelf entry removes exactly the rows both of whose objects its patterns match |
| AlarmLaws.EnsuredExactly | src/refda/adm/ietf_alarms.c:396-428 | adding shelf rows removes exactly the alarms that some entry matches which was not there yet |
| AlarmLaws.ReportedExactly | src/refda/alarms.c:139-250 | when a report is ignored and when it is recorded, from the lookups and the shelf entries |
| Alarms.Entry.Touch | src/refda/alarms.c:234-247 | the current state is updated and recorded at the front of the history, and the creation time is set once |
| Alarms.Entry.CompressHistory | src/refda/alarms.c:504-512 | popping from the back leaves exactly the newest item |
| Alarms.AlarmStore.CheckShelf | src/refda/alarms.c:174-191 | true if and only if some shelf entry matches |
| Alarms.AlarmStore.Record | src/refda/alarms.c:202-249 | list and index stay coherent and the rows change as recorded |
| Alarms.AlarmStore.SetRefs | src/refda/alarms.c:139-250 | an alarm with an unknown resource, an unknown category or a matching shelf entry changes nothing; otherwise it is recorded |
| Alarms.AlarmStore.PurgeEntry | src/refda/alarms.c:412-422 | the entry leaves the list and the index together |
| Alarms.AlarmStore.PurgeWhere | src/refda/alarms.c:436-465 | removal during iteration equals a filter of the rows and returns the exact size decrease |
| Alarms.AlarmStore.Purge | src/refda/alarms.c:424-469 | drops exactly the rows on which the filter evaluates to a truthy value |
| Alarms.AlarmStore.ApplyShelf | src/refda/alarms.c:572-597 | drops exactly the rows that the shelf entry matches |
| Alarms.AlarmStore.Compress | src/refda/alarms.c:471-518 | cuts exactly the histories of the rows the filter hits, and counts the rows that changed |
| Alarms.AlarmStore.SetManagerState | src/refda/alarms.c:520-570 | sets state, manager and time on exactly the hit rows with another state, and counts them; asking for the shelved state changes nothing |
| Alarms.AlarmStore.EnsureShelf | src/refda/adm/ietf_alarms.c:396-428 | each shelf row not yet there removes the alarms it matches, is added and is counted |
| AlarmRuns.ExecuteAll | src/refda/alarms.c:174-597 | under every interleaving of the critical sections keys stay unique, the index maps exactly the keys of the listed entries to their own entries, and the rows are those the sections prescribe |
| AlarmRuns.HistoriesInEveryRun | src/refda/alarms.c:234-247 | in every reachable state each history is nonempty with the current state at its head; with a clock that does not run backwards its times do not increase and lie between creation and now |
| AlarmRuns.CompressKeepsHead | src/refda/alarms.c:504-512 | a compressed history is its head alone |
| AlarmRuns.ShelfInEveryRun | src/refda/adm/ietf_alarms.c:398-497 | after every interleaving the shelf holds exactly the entries pushed, or there at the start, and not discarded since |
| AlarmRuns.ClearIffNotOvertaken | src/refda/alarms.c:174-249 | from a table that no shelf entry matches, a critical section leaves such a table if and only if it was not overtaken |
| AlarmRuns.ClearRunIff | src/refda/alarms.c:174-249 | a run of critical sections from such a table shows only such tables if and only if none of its sections was overtaken |
| AlarmRuns.ReportOvertaken | src/refda/alarms.c:191-202 | the interleaving in which a report passes the check before a matching shelf row is added |
| AlarmRuns.ShelvingOvertaken | src/refda/adm/ietf_alarms.c:398-421 | the interleaving in which a report falls between applying a shelf row and pushing it |
| AlarmRuns.AtomicRunsStayClear | src/refda/adm/ietf_alarms.c:376-428 | when whole calls are atomic, no reachable table holds an alarm that a shelf entry matches |
| Acl.SearchPermission | src/refda/acl.c:239-387 | true if and only if group 0 is present or the index leads from a group to an access with a permission found and wanted whose filter evaluates to a truthy value for the target; the match set gains exactly those, and nothing with group 0 |
| Acl.IndexAllowed | src/refda/acl.c:239-387 | the index finds a permission if and only if it leads from one of the groups to its access, the filter of that access evaluates to a truthy value for the target, and the permission is found and wanted |
| Acl.SearchInSync | src/refda/acl.c:239-387 | in sync with the table, the same for the accesses that list one of the groups in the table, however many groups lead to an access |
| Acl.ScanEarned | src/refda/acl.c:322-362 | a scan finds a permission if and only if its access lists one of the groups, the filter of the access evaluates to a truthy value for the target, and the permission is found and wanted |
| Expressions.ZeroLabelOnly | src/refda/acl.c:113-141 | label 0 stands for the target and no other label has a value |
| Acl.SearchOnePermission | src/refda/acl.c:389-405 | the same for one permission; a missing permission object is never granted and leaves the match set alone |
| Acl.SearchEndpoint | src/refda/acl.c:143-203 | exactly the groups whose member filter evaluates to a truthy value for the endpoint |
| Acl.IndexIsScan | src/refda/acl.h:195-198 | an index in sync finds exactly what a scan of the table finds |
| Acl.IndexWithinScan | src/refda/acl.h:195-198 | a sound index never finds more than a scan of the table |
| AclControls.AccessStore.PreRemove | src/refda/adm/ietf_dtnma_agent_acl.c:49-60 | the access leaves every group of the index |
| AclControls.AccessStore.PostAdd | src/refda/adm/ietf_dtnma_agent_acl.c:61-72 | the access enters the index under each of its groups |
| AclControls.EnsuredAccesses | src/refda/adm/ietf_dtnma_agent_acl.c:298-367 | afterwards the table holds the given access and exactly the others with another id, each id once |
| AclControls.DiscardedAccesses | src/refda/adm/ietf_dtnma_agent_acl.c:408-434 | afterwards the table holds exactly the accesses with another id |
| AclControls.AccessStore.EnsureAccess | src/refda/adm/ietf_dtnma_agent_acl.c:298-367 | the table and the index change together and stay in sync; a permission that cannot be found or whose parameters are refused fails the control but stays listed |
| AclControls.AccessStore.DiscardAccess | src/refda/adm/ietf_dtnma_agent_acl.c:408-434 | the access leaves table and index together, which stay in sync |
| AclControls.AccessStore.DiscardGroup | src/refda/adm/ietf_dtnma_agent_acl.c:651-675 | the first group with that id leaves the group list and its accesses leave the index; without one nothing changes |
| AclControls.DiscardGroupSync | src/refda/adm/ietf_dtnma_agent_acl.c:666-674 | discarding a group keeps the index sound, and keeps it in sync if and only if no access names the group |
| AclControls.RecreatedGroupLosesAccess | src/refda/adm/ietf_dtnma_agent_acl.c:666-674 | a group discarded and made again under its id no longer gets what the table grants it |
| AclControls.SoundInEveryRun | src/refda/acl.h:195-198 | in every run of the controls the index stays sound |
| AclControls.IndexInEveryRun | src/refda/acl.h:195-198 | a run of the controls from tables in sync shows only tables in sync if and only if it discards no group that an access names at that time |
| AclControls.RefusedStillGrants | src/refda/acl.c:346-361 | what an access grants does not depend on whether the parameters given with its permissions were accepted |
| Rules.RuleDb.ScanTbrs | oldsrc/agent/rda.c:417-440 | collects each due TBR once and nothing else |
| Rules.RuleDb.ScanSbrs | oldsrc/agent/rda.c:444-475 | collects each due SBR with evaluations left once, and deactivates the other due ones |
| Rules.RuleDb.RunTbr | oldsrc/agent/rda.c:543-571 | fires, counts and reschedules a TBR, or removes it; `Rules.TbrPass` says when |
| Rules.RuleDb.RunSbr | oldsrc/agent/rda.c:575-598 | evaluates an SBR and reschedules it, or removes it at either limit |
| Rules.RuleDb.ProcessRules | oldsrc/agent/rda.c:527-607 | the batched pass has the effect of passing over every rule on its own, and counts every run and every removal |
| Rules.CollectedExactly | oldsrc/agent/rda.c:417-475 | which rules are collected, from their own fields and the time |
| Rules.TbrPass | oldsrc/agent/rda.c:543-571 | a due TBR is removed if and only if it has a limit and this fire reaches it; otherwise both counts are one more and the next time is one period from now |
| Rules.SbrPass | oldsrc/agent/rda.c:575-598 | a due SBR is removed if and only if this evaluation or this fire reaches a limit it has; otherwise its counts grow by what happened and the next time is one second after the last |
| Rules.WaitingPass | oldsrc/agent/rda.c:417-475 | a rule that is inactive or not due is left alone |
| Rules.PassAllAt | oldsrc/agent/rda.c:527-607 | a pass treats every rule by its own outcome and adds none |
| Rules.RuleDb.EarliestRule | oldsrc/agent/rda.c:478-505 | the smallest due time of an active rule, or the largest time |
| RuleRuns.TracksFollowTable | oldsrc/agent/rda.c:527-607 | the followed rules change in a pass exactly as the table of the scheduler does |
| RuleRuns.EveryRunGood | oldsrc/agent/rda.c:527-607 | every run keeps every rule within its limits and at its pace |
| RuleRuns.LimitsInEveryRun | oldsrc/agent/rda.c:462-474 | no rule exceeds a nonzero limit or fires more often than it is evaluated, and the branch for no evaluations left is never taken |
| RuleRuns.GoneExactly | oldsrc/agent/rda.c:543-598 | in every run a rule that nobody deleted is gone if and only if it has a limit and reached it |
| RuleRuns.TbrFiresWhenDue | oldsrc/agent/rda.c:543-571 | after every run, each pass fires every active due TBR, one without a limit for ever, and reschedules it |
| RuleRuns.SbrEvaluatedWhenDue | oldsrc/agent/rda.c:575-598 | after every run, each pass evaluates every active due SBR, and fires it exactly when its expression says so |
| RuleRuns.TbrRate | oldsrc/agent/rda.c:543-571 | up to a time T a TBR fires at most floor((T - start) / period) + 1 times |
| RuleRuns.SbrRate | oldsrc/agent/rda.c:575-598 | up to a time T an SBR is evaluated at most once per second from its start, and its next check is always start plus as many seconds as it was evaluated |
| RuleRuns.WakeUpExact | oldsrc/agent/rda.c:478-505 | the computed time has come if and only if some rule is due or the largest time is reached |
| RuleRuns.PassAtWakeUp | oldsrc/agent/rda.c:796-822 | before the computed time a pass would change nothing; from then on it evaluates, removes or deactivates at least one rule |
| Reports.Aggregator.GetMsgRpt | oldsrc/agent/rda.c:160-200 | the first message for a recipient, or a new last one; none for an empty name or when it cannot be stored |
| Reports.Aggregator.SendRetval | oldsrc/agent/lcc.c:209-253 | the report joins the message of its recipient |
| Reports.Aggregator.SendReports | oldsrc/agent/rda.c:636-697 | the counter grows by exactly the reports sent and nothing stays pending |
| Reports.SettledExactly | oldsrc/agent/rda.c:657-682 | a report is settled as sent if and only if sending its message to that recipient succeeded, and every report is settled for every recipient of its message |
| Reports.SentCounted | oldsrc/agent/rda.c:636-697 | the counter adds the number of places marked as sent |
| Reports.MessageHoldsAll | oldsrc/agent/rda.c:175-187 | the message of a recipient holds all its pending reports in order of arrival |
| Reports.EnqueuePending | oldsrc/agent/rda.c:160-200 | a queued report goes to the end of its recipient's reports and to no other's |
| Reports.EveryRunAccounted | oldsrc/agent/rda.c:636-697 | in every run each accepted report is settled exactly once, as sent or dropped, or is pending; each recipient's order is kept, the counter is right, and after a flush nothing is pending |
| Collect.Collector.Collect | oldsrc/agent/ldc.c:48-81 | terminates for every template environment, restores the nesting counter, gives each kind of item the value of its own definition, and equals the depth-limited unfolding |
| Collect.Collector.CollectReport | oldsrc/agent/ldc.c:112-157 | a missing template yields nothing; a report that could not be filled is kept empty |
| Collect.Collector.FillReport | oldsrc/agent/ldc.c:207-283 | a report past the limit, or with an item that fails, is empty; the counter is restored on every path |
| Collect.ItemGives | oldsrc/agent/ldc.c:48-81 | each kind of item takes its value from its own definition with the given parameters, or has none |
| Collect.ItemParameters | oldsrc/agent/ldc.c:207-283 | the parameters an item is collected with |
| Collect.ReportGives | oldsrc/agent/ldc.c:112-157 | entry i of a report is the collection of item i one level further down; it is empty exactly past the limit, for an empty template, or when an item has no value |
| Collect.ReportSizeBound | oldsrc/agent/ldc.c:207-283 | with width at most w a collection has at most w + w^2 + ... + w^6 entries, for cyclic templates too |
| Collect.SelfSize | oldsrc/agent/ldc.c:207-283 | a template of w copies of itself reaches that bound |
| Collect.ShallowUnfoldsFully | oldsrc/agent/ldc.c:189-191 | a template nested at most five further levels deep is unfolded as if there were no limit |
| Data.Buffer.Resize | src/cace/cace_data.c:205-234 | an owned buffer keeps its bytes, a view loses them unless the length is the same |
| Data.Buffer.ShrinkFront | src/cace/cace_data.c:254-262 | drops the first bytes of an owned buffer; a view has its memory moved and is then left |
| Data.Buffer.ExtendFront | src/cace/cace_data.c:236-264 | the two branches under one signed difference |
| Data.Buffer.AppendFrom | src/cace/cace_data.c:266-278 | appends to an owned buffer; a view keeps only what is appended |
| Data.Buffer.CopyFrom | src/cace/cace_data.c:82-97 | sets the contents, in the shared memory when the length is the same and in fresh memory otherwise |
| Data.WriteThrough | src/cace/cace_data.c:86-94 | an equal-length copy into one view changes another view of the same memory |
| Data.GrowFrontIff | src/cace/cace_data.c:247-252 | growing at the front keeps the old bytes behind the new ones, whatever the allocator left, if and only if there are no old bytes |
| Data.GrownFrontAt | src/cace/cace_data.c:247-252 | which byte stands where after growing at the front |
| Data.CmpOrders | src/cace/cace_data.c:152-195 | comparison is a total order whose zero is equality |
| Data.CmpLess | src/cace/cace_data.c:152-195 | less means shorter, or null against present, or smaller at the first byte that differs |
| Stream.Reader.TryDecode | src/cace/cace_ari.c:146-164 | an item found is chopped off the store, otherwise the store is unchanged |
| Stream.Reader.Read | src/cace/cace_ari.c:138-189 | the result depends only on the bytes not yet consumed, not on how they were split, and exactly the bytes of the item are consumed |
| Stream.Reader.ReadAll | src/cace/cace_ari.c:138-189 | successive reads return the item-by-item decoding of the whole input and leave the rest stored |
| Stream.UndecodedIsSuffix | src/cace/cace_ari.c:138-189 | what is left is always a suffix of the input |
| Stream.DecodesWhatWasWritten | src/cace/cace_ari.c:138-189 | reading back what was written item by item gives the items and leaves the rest |
| Cbor.AtMore | src/cace/cace_ari.c:151-153 | a well-formed item stays the same item when more bytes follow |
| Cbor.ItemDecoderStreams | src/cace/cace_ari.c:151-164 | a decoder of well-formed items meets the needs of streaming, whatever the interpretation of the bytes |
| CborItems.ItemRead | src/cace/cace_ari.c:151-153 | wherever the encoding of an item stands, of any major type, definite or not and nested at will, it is found with exactly its length |
| CborItems.EncodedStreamDecoded | src/cace/cace_ari.c:138-189 | a stream of encoded items decodes to those items, with nothing left over |
| Binding.Binder.BindType | src/refda/binding.c:113-214 | every use of the type tree is tried in order with what was bound before it; returns exactly the uses of the tree left unbound plus its invalid nodes |
| Binding.Binder.BindIdentBases | src/refda/binding.c:230-297 | links an IDENT forward to each base, and back from each base that is an IDENT and accepts the given parameters with the uses bound so far; counts the other bases, of which one of another kind keeps its forward link |
| Binding.Binder.BindObject | src/refda/binding.c:299-451 | every kind of object has its types and then its bases tried in order; returns the uses left unbound, the invalid nodes and the bases missed, and one for a missing descriptor or unknown kind |
| Binding.Binder.BindAll | src/refda/agent.c:274-313 | the total is exactly the uses left unbound at the end, what cannot be bound, and the bases missed when they were reached; uses and links are those of trying everything once |
| Binding.FailsCount | src/refda/binding.c:113-297 | the failures of any attempts that visit each use once are the uses left unbound, what cannot be bound at all and the bases missed |
| Binding.NeverRebinds | src/refda/binding.c:113-124 | a bound use is never unbound or rebound, and only uses that were tried are bound, to the type they name |
| BindingLaws.UseAnswered | src/refda/binding.c:38-124 | a use stays bound, or is bound to the built-in type or the accepting TYPEDEF it names |
| BindingLaws.BaseAnswered | src/refda/binding.c:250-297 | a base is linked to the accepting IDENT it names and to nothing else |
| BindingLaws.ForwardLinked | src/refda/binding.c:230-297 | each forward link of an IDENT leads to what the base in its place names, of whatever kind, if it has a descriptor and accepts the given parameters |
| BindingLaws.AcceptedExactly | src/cace/amm/parameters.c:92-215 | given parameters are accepted if and only if there are none, or there are not too many and each converts to the type of its formal parameter |
| BindingLaws.ConvertsExactly | src/cace/amm/semtype.c:120-141 | an unset type and an unbound use convert nothing |
| BindingLaws.ObjectUses | src/refda/binding.c:299-451 | the uses and invalid nodes of an object, from its descriptor and its formal parameters |
| BindingLaws.ObjectBases | src/refda/binding.c:230-313 | the bases of an IDENT are tried after its types, in order and under its own identity; no other object has bases |
| BindingRuns.UnboundAtEnd | src/refda/binding.c:113-124 | a use visited once is counted if and only if it is unbound at the end of the pass |
| BindingRuns.RepeatIff | src/refda/binding.c:230-297 | for every store, a repeat gives the same answers if and only if each name is answered at the end of the pass as when it was reached; then it binds nothing more |
| BindingRuns.RepeatCountIff | src/refda/binding.c:230-297 | where binding more never makes a conversion fail, a repeat never counts more, and counts the same if and only if no name is found at the end that was missed when it was reached |
| BindingRuns.LargerStore | src/refda/binding.c:38-124 | where binding more never makes a conversion fail, a store with more objects binds at least the same uses to the same types and never counts more, and counts the same if and only if the same attempts succeed |
| BindingOrder.OrderIff | src/refda/agent.c:274-313 | for every store, each object is answered alike in every order if and only if no object is answered otherwise because some of the others were tried, each on its own |
| BindingOrder.OrderCountIff | src/refda/agent.c:274-313 | where binding more never makes a conversion fail, that holds if and only if each object counts the same alone and after all the others |
| BindingOrder.AnyOrder | src/refda/agent.c:274-313 | then any order binds the same uses, counts the same failures and makes the same links |
| BindingPasses.OrderMatters | src/cace/amm/parameters.c:118-215 | two IDENT objects that count one failure in one order and none in the other |
| BindingPasses.RepeatMatters | src/cace/amm/parameters.c:118-215 | a pass that counts one failure and whose repeat counts none |
| BindingChecks.RepeatByNames | src/refda/binding.c:230-297 | for every store, when type names are steady, a repeat gives the same answers if and only if each base leads, with the uses listed before it, where it leads with all of them |
| BindingChecks.OneRepeatSuffices | src/refda/agent.c:274-313 | for every store and every order, when type names are steady, the first pass binds the same uses and all later passes answer and count alike |
| BindingChecks.OrderByNames | src/refda/agent.c:274-313 | for every store, when type names are steady, the order does not matter if and only if each base leads to the same object with the uses of any selection of the other objects added |
| BindingChecks.OrderByOwnNames | src/refda/agent.c:274-313 | where binding more never makes a conversion fail, that holds if and only if each base leads, with the uses of its own object, where it leads with all uses |
| BindingReads.SafeRepeat | src/cace/amm/lookup.c:144-152 | for lookups that read only a footprint: if none reads a use tried at or after it that can be bound, a repeat gives the same answers |
| BindingReads.SafeOrder | src/cace/amm/lookup.c:144-152 | if no object reads a use that another can bind, the order does not matter |
| Conversion.ConversionReads | src/cace/amm/semtype.c:120-141 | conversion to uses and unions reads only the uses reachable from the formal parameter types |
| Conversion.UnionConverts | src/cace/amm/semtype.c:1156-1215 | a union keeps a value that matches a choice, and else gives what the first choice that converts it gives |
| Conversion.UnconstrainedIsMonotone | src/cace/amm/semtype.c:1156-1215 | where no use is constrained, binding more never makes a conversion fail |
| Conversion.LimitedAccepts | src/cace/amm/semtype.c:120-141 | a real value given for a limited union of real and integer is refused if and only if the real choice can be matched |
| Conversion.BindingMoreCanRefuse | src/cace/amm/semtype.c:1156-1215 | four objects that count no failure in one order, one in another and one in the repeat of the first |
| Conversion.LargerStoreCanCountMore | src/cace/amm/semtype.c:1156-1215 | a store with one more TYPEDEF that counts two failures where the smaller one counts one |
| BindingPasses.PlainIsSafe | src/cace/amm/parameters.c:92-113 | names without given parameters are safe in every store, for every order and every repeat |
| BindingPasses.ReverseLinks | src/refda/binding.c:250-263 | a pass adds to each base exactly the links resolved in that pass, with multiplicity |
| BindingPasses.LinksBothWays | src/refda/binding.c:252-263 | after a pass each IDENT is held by a base exactly as often as its bases point forward to it |
| BindingPasses.RepeatedPasses | src/refda/binding.c:256-263 | after k passes the reverse links are those resolved in each of the k passes, added up |
| BindingPasses.EveryPassIff | src/refda/binding.c:230-297 | all passes give the answers of the first one if and only if the first one was settled |
| BindingPasses.SettledPasses | src/refda/binding.c:256-263 | then each link is there k times |
| BindingPasses.LinksOncePerPassIff | src/refda/binding.c:256-263 | where binding more never makes a conversion fail, each link is there k times after every k passes if and only if the last pass finds no base that the first one missed |
| BindingPasses.PassesEnd | src/refda/binding.c:113-124 | for every store, after as many passes as there are unbound uses nothing changes any more |
| BindingPasses.PassesAgree | src/refda/agent.c:274-313 | where binding more never makes a conversion fail, passes repeated to their end bind the same uses and count the same failures in every order |
| Egress.RunKeeps | src/refda/egress.c:29-74 | every step of producers and worker keeps the token balance, the order and the counts |
| Egress.FailedPops | src/refda/egress.c:34-40 | a pop finds the queue empty if and only if the tokens left, the one just taken included, all come from refused pushes; when all is quiet there was one failed pop for each refused push |
| Egress.PopCanFail | src/refda/egress.c:34-40 | a run from the start with one push too many, in which everything accepted is sent and then a pop fails |
| Egress.StopsAfterAll | src/refda/egress.c:41-72 | the worker stops exactly when it pops the sentinel, with everything accepted ahead of it handed to send once and in order |
| Egress.FailuresWithinSent | src/refda/egress.c:54-63 | the failure count exceeds the sent count, by one, if and only if it is seen between the two updates for a failed send and no earlier send succeeded |
| Egress.FailureSeenFirst | src/refda/egress.c:54-63 | a run in which the failure count is the larger one |

## Left out

- Terminal menus, forms, printing and the SQL client of the manager under oldsrc/mgr: formatting and database plumbing.
- Transport: sockets, bundle protocol interfaces, signals and argument parsing of the executables.
- The text and hexadecimal forms of ARIs and the meaning of CBOR items beyond well-formedness; the interpretation of an item is a parameter of the decoder.
- Value production, access checks inside it, and actual parameters: a lookup yields the produced value or the operator with its parameters applied.
- Control execution, the exec and timeline workers, and ingress: the functions would add accessors and dispatch.
- The order in which a translated AM is stored again: its pairs keep the order of first insertion, not the order of the tree.
- An OPER that mixes a bare sequence operand with other operands: the agent registers none, and the model has typed or counted operators.
- Allocation failure, logging, mutex errors, and integer widths: counters, times and lengths are unbounded.
- Substitutions.TranslationFailsIff: covers filters without maps; in a map the translation of a key or a value can fail too, which `Substitutions.MapTranslated` takes as not having happened.
- CborItems.ItemRead: encodings after section 3 of RFC 8949 with the shortest head for each number; longer heads are read too, but no encoding writes them. What the items mean is left to the interpretation.
- Object patterns: whether a pattern set matches an object is a parameter of the alarm store.
- Collect.Collector.FillReport: returns the entries where the source writes them through the report it is given, and assumes a template has at most 255 items, because the loop index of the source is eight bits wide.
- Rules.RuleDb.ProcessRules: rules are values in the table and the work lists hold ids, so aliasing of rule pointers is not modelled; actions do not change the table.
- AclControls.AccessStore.EnsureAccess: group ids that are not unsigned integers are already left out of the access.
- AclControls.AccessStore.DiscardAccess: the index holds ids where the source holds addresses of list elements; assumes that removing one element of the list does not move the others. The list library is not part of this model.
- AclControls.IndexInEveryRun: stands on the same assumption about the list of accesses.
- AclControls.SoundInEveryRun: stands on the same assumption about the list of accesses.
- Binding.Binder.BindAll: cached pointers are entries of maps keyed by the structure that holds them, and the namespaces are one list of objects; the permission objects bound first by the agent are left out. The conversion of a given parameter is a function of type, value and bound uses about which nothing is assumed, except that an unbound use and an unset type refuse every value; parameters given by key are matched to formal ones by a function.
- BindingPasses.PassesAgree: assumes that binding more never makes a conversion fail; with steady type names `BindingChecks.OneRepeatSuffices` needs no such assumption.
- Conversion.ConversionReads: covers uses with range constraints and unions over VAST and REAL64; lists, maps, tables and other constraints are not in it, and the number of TYPEDEFs followed in a row is bounded.
- Conversion.UnconstrainedIsMonotone: covers the same types.
- Reports.Aggregator.SendReports: recipient names are not cut to the maximal length, and the table messages next to the report messages are left out.
- Egress.RunKeeps: assumes that the queue refuses a push when it holds as many messages as it was created for.
- Creating and renaming ACL groups, the cached ACL generation, and the alarm table as a value: direct copies and field updates.
- `cace_data_append_byte`, `cace_data_hash`, moving and swapping of buffers: they would only add easy members.
