# Spend guard: a verified model

The repository is a Soroban custom account that lets an autonomous agent sign
transactions within a policy an admin installs: per-transaction caps, a rolling
spend window shared by all assets, per-recipient windows, a protocol-call rate,
allow and block lists, a pause, a freeze and a dead-man switch. A companion tool
validates StrKey addresses before it talks to the network. This project models
both and proves what they promise.

There are two layers.

- **Values.** `window_spec.dfy`, `ledger_spec.dfy`, `engine_spec.dfy`,
  `validation_spec.dfy` and `contract_spec.dfy` say on immutable values what a
  window, a ledger, the decision table, policy validation and each entry point
  compute. `bits.dfy`, `base32.dfy`, `crc.dfy` and `strkey.dfy` do the same for
  the codec.
- **Code.** `window.dfy` (class `Ledger`), `engine.dfy`, `validation.dfy`,
  `contract.dfy` (class `PolicyEngine`) and the loops of `base32.dfy`, `crc.dfy`
  and `strkey.dfy` follow the source step by step: binary search, cached totals
  with saturating arithmetic, staging vectors, cap lookups, storage keys, bit
  accumulators. Every method is proved to compute what the value layer says.
  Where the source only evaluates an expression (call parsing, the asset pause
  test, list membership) the methods call the value-layer function itself.

On top of the value layer stand the main results:

- the rolling ceilings over whole runs, for global spend, every recipient
  override and protocol calls by one argument (`ceilings.dfy`, `one_policy.dfy`,
  resting on `history.dfy`, `spend_history.dfy` and `authorized.dfy`), with the
  exact condition for a call to keep a window true to the history, and runs that
  break each condition (`budget_gaps.dfy`, built from `scenarios.dfy`);
- a batch is judged exactly like its contexts one at a time (`batch.dfy`);
- the decision table restated on the policy as sets and maps, both directions
  (`decision_table.dfy`), every error of it, of the account gates and of a whole
  authorization by the first rule broken (`error_table.dfy`), the same for policy
  validation (`rule_order.dfy`), and independence of list order (`list_order.dfy`);
- what storage looks like in every reachable state (`runs.dfy`), what an
  authorization leaves behind (`storage_facts.dfy`), which call writes which field
  and what that makes of the key, the freeze and the pause over runs
  (`entry_points.dfy`), who can change what (`governance.dfy`), and the dead-man
  switch over runs (`deadman.dfy`);
- the advisory reads agree with enforcement (`preflight.dfy`);
- encoding and decoding StrKeys are inverse, and whatever is changed in one or
  two neighbouring characters is noticed, in three up to four listed differences
  (`strkey.dfy`).

## How it is modelled

- The full list of what was let through is never kept by the contract. It is a
  function of the run (`SpendHistory.HistoryOf`): the transfers and protocol
  calls of every authorization that returned `Ok`. A window stands for it when,
  at every cutoff that a live span can see, the entries after the cutoff sum to
  at least what the history has there. Coalescing keeps that equal, pruning does
  not touch it, merging forward can only raise the entries' side.
- `SpendEntry` and `ProtocolCallEntry` are one datatype; the two windows differ
  only in the ceiling (`i128::MAX`, `u32::MAX`) at which they saturate. That no
  spend total ever saturates is a theorem, not an assumption of the types.
- `require_auth` is a set of authorized addresses on each call. A request carries
  the key under which its signature verifies, if any; verification succeeds exactly
  if that is the stored key. The ledger clock is a parameter that does not go back.
  A failed call leaves storage as it was, as the host rolls it back.
- A `u16` in the checksum is the string of its 16 bits. Shifts and masks of the
  base-32 accumulator are written on natural numbers; the accumulator is proved
  to stay far below 32 bits.

Where the code and its documentation differ, the code is followed:

- `README.md` line 366 says that `set_policy` resets the window and re-arms the
  dead-man clock on a pause; the code does so only on a first install
  (`Runs.InstallSeedsOrKeeps`).
- `src/lib.rs` lines 833-834 state "same revision if and only if same policy".
  The revision counts policy calls: below saturation two states of a run share it
  exactly when no successful `set_policy`, `revoke_policy` or real pause flip lies
  between them (`Governance.SameRevisionExactly`). Left to right follows
  (`Governance.SameRevisionSamePolicy`); right to left fails in one call exactly
  when an admin re-installs the installed policy or revokes where there is none
  (`Governance.RevisionAndPolicyPart`), and over runs also by editing there and
  back (`Governance.ThereAndBackMovesRevision`).
- `src/lib.rs` lines 764-768 promise that an edit hands out no fresh budget. What
  an edit keeps is the stored window, and an authorization keeps that true to the
  history of a span exactly when it prunes no entry the span still sees and what
  it lets through is counted (`Ceilings.StaysExactWhen`). `Ceilings.RollingCeiling`
  holds over every run on those terms, across all other edits. Off them it fails:
  for every pair of widths and every cap, widening lets the cap be spent twice
  (`BudgetGaps.WideningFreshBudget`), and for every cap and amount, what passes
  while the cap is disabled is not counted (`BudgetGaps.DisabledCapUncounted`).
- The same lines, and 776-779, promise that an edit gives no fresh grace period
  and that an expired account stays expired. It does exactly when the new policy
  keeps the switch on with a grace shorter than the silence so far
  (`Deadman.EditRevives`); `Deadman.SilenceCannotSelfRevive` runs across all such
  edits.
- A protocol-call limit of `u32::MAX` limits nothing, because the projection
  saturates at it (`OnePolicy.RateRefusesExactly`, and the run
  `BudgetGaps.LimitOfMaxIsNone`); the surplus spoils the count even after the
  limit is lowered (`BudgetGaps.LoweredLimitMiscounts`). After `reset_window` a request
  is stored exactly when it has a transfer that some window tracks
  (`StorageFacts.StoredExactly`); protocol calls alone are not, and any number of
  them passes in one second whatever the limit (`BudgetGaps.CallLeavesNoTrace`,
  `BudgetGaps.RateBrokenAfterReset`).
- `tools/agent-tx/src/main.rs` line 197 notes 0x12 beside the version byte of
  contracts; the code's `2 << 3` is 0x10, which is what gives the letter C
  (`StrKey.KindByCharacters`).
- The health read calls a missing heartbeat expired, the gate lets it pass
  (`Preflight.HealthAgainstGate`).
- At the last second of the `u64` clock a fresh entry already counts as expired
  (`ts.saturating_add(window_secs) <= now`; `History.NothingLiveAtTheEnd`), so
  ceilings are for times below `u64::MAX`: at it every cap can be spent twice
  (`BudgetGaps.LastSecondTwice`), and a batch agrees with its contexts one by one
  only as `BatchSequence.BatchEqualsSequenceAtTheEnd` says.
- An account gate does not stop an empty request: exactly the signed request for
  nothing passes a closed one (`Deadman.ClosedGatePasses`).
- The StrKey checksum is a 16-bit CRC stored low byte first. That byte order is
  why four differences in three characters beside the one that straddles body and
  checksum go unnoticed (`StrKey.ThreeAdjacentRejected`).

## Model

| member | source | states |
|---|---|---|
| WindowLedger.ExpiredPrefix | src/window.rs:297-316 | the binary search ends, and on an ordered list cuts it exactly at the live part |
| WindowLedger.PruneEntries | src/window.rs:281-332 | on any list a suffix is kept; on an ordered one exactly the live entries; on a well-formed window the cached total becomes their exact sum in spite of the saturating subtractions |
| WindowLedger.PruneCallEntries | src/window.rs:378-395 | the linear front-pop of call entries keeps the same entries and total as the binary-search prune |
| WindowLedger.AdmitToLedger | src/window.rs:335-376 | the admission of a spend or, with the other ceiling, of a call: coalescing, append, merge-forward above the bound, and which entry a merge reports |
| WindowLedger.LedgerFromEntries | src/window.rs:258-271 | the reload loop drops non-positive amounts and rebuilds the total |
| WindowLedger.Ledger.FromState | src/window.rs:101-123 | every window of the ledger is rebuilt from stored entries, totals recomputed |
| WindowLedger.Ledger.ToState | src/window.rs:128-146 | what is stored is the ledger without the call total |
| WindowLedger.Ledger.Prune | src/window.rs:162-176 | global, recipient and call windows are all pruned, nothing else changes, and the ledger invariant is kept |
| WindowLedger.Ledger.Admit | src/window.rs:179-189 | only the global window gets the admission |
| WindowLedger.Ledger.AdmitForRecipient | src/window.rs:209-238 | only that recipient's window gets the admission, created if it was not tracked |
| WindowLedger.Ledger.RecipientTotal | src/window.rs:194-203 | the total of the recipient's window, zero if not tracked |
| WindowLedger.Ledger.AdmitProtocolCall | src/window.rs:241-253 | only the call counter gets one call |
| WindowSpec.PruneWellFormed | src/window.rs:281-332 | pruning keeps strictly increasing timestamps, positive amounts, the bound and the exact total, and leaves only live entries |
| WindowSpec.PruneIdempotent | src/window.rs:281-332 | pruning twice at the same time is pruning once |
| WindowSpec.AdmitWellFormed | src/window.rs:335-376 | an admission that fits is exact, keeps the shape and the entry bound, and ends at the current second |
| WindowSpec.AdmitTwice | src/window.rs:343-356 | two admissions in one second are one admission of the sum, with and without a merge |
| WindowSpec.ReloadMeans | src/window.rs:258-271 | of any stored list, reloading keeps exactly the entries with a positive amount, in order, and totals them anew up to the ceiling |
| History.LiveExactly | src/window.rs:154-161 | below the clock's last second the live part is exactly the entries with ts + window_secs > now |
| History.NothingLiveAtTheEnd | src/window.rs:310 | at the last second of the clock no entry of any list is live |
| History.PruneRefines | src/window.rs:281-332 | a prune that drops nothing a span still sees leaves the window standing for the history, exactly so if it was exact |
| History.PruneForgets | src/window.rs:281-332 | for every width and span, pruning loses part of the span exactly when an entry lies between the two cutoffs |
| History.AdmitSince | src/window.rs:358-375 | after any cutoff an admission adds its amount; a merge-forward can only add more, and without a merge the count is exact |
| History.AdmitRefines | src/window.rs:335-376 | an admission keeps the window standing for the history, exactly so while nothing merges |
| History.TotalBoundsRolling | src/window.rs:5-8 | a pruned total is at least the true rolling sum, equals it without merges, and with nothing newer than the history is zero exactly when it is |
| LedgerSpec.RoundTrip | src/window.rs:98-146 | reloading what was stored gives back the ledger, and exactly when its call total was the saturated sum of its entries the whole of it |
| LedgerSpec.StoredTotalsIgnored | src/window.rs:98-100 | cached totals in storage have no influence on what is loaded |
| LedgerSpec.PruneCoherent | src/window.rs:162-176 | pruning the ledger keeps its invariant and leaves only live entries in every window |
| LedgerSpec.AdmitForCommutes | src/window.rs:209-238 | admissions to different recipients commute once tracked |
| LedgerSpec.AdmitCallsCoherent | src/window.rs:421-462 | repeated calls add up, saturating at u32::MAX, and the total never exceeds the entries |
| Engine.RunDecide | src/engine.rs:380-613 | the whole decision: verdicts in order and the ledger afterwards are those of the decision table, admissions kept only if all contexts pass, the ledger invariant kept |
| Engine.RunTransfer | src/engine.rs:473-548 | the transfer arm: gates in order, both checked projections against staged amounts, staging in the parallel vectors |
| Engine.ScanOverride | src/engine.rs:239-248 | the loop finds the first positive cap listed for the recipient |
| Engine.ScanPerTxCap | src/engine.rs:264-274 | the loop lets the first entry of the asset decide, the global cap if there is none |
| Engine.RunProtocol | src/engine.rs:549-586 | the protocol arm: first matching rule, pause, function list, saturating rate projection |
| Engine.RunCommit | src/engine.rs:595-610 | committing admits exactly what was staged, in the order of the source |
| StagingFacts.EvaluateWithin | src/engine.rs:444-593 | after any number of contexts everything staged, on top of the ledger, is within every cap |
| StagingFacts.CommitCoherent | src/engine.rs:595-610 | committing adds exactly the staged amounts to the totals; no saturation clips |
| StagingFacts.DecideCoherent | src/engine.rs:380-613 | for every policy, batch and verdict a decision leaves every window in shape with exact spend totals |
| BatchSequence.BatchEqualsSequence | src/engine.rs:444-610 | a batch gets the verdicts its contexts would get one at a time, and when all pass leaves the same ledger; at the last second of the clock too if nothing expires |
| BatchSequence.BatchEqualsSequenceAtTheEnd | src/window.rs:310 | at the last second under a policy that expires entries, the verdicts agree exactly when on an empty ledger no context is judged differently for the ones before it |
| BatchSequence.EvalAgrees | src/engine.rs:506-547 | a context is judged the same whether earlier amounts are staged or already committed, and ends in the same ledger |
| DecisionTable.AllowedExactly | src/engine.rs:453-587 | a context is allowed exactly when the policy, read as sets and maps, allows the call and every rolling limit has room |
| DecisionTable.ParsedTransfer | src/engine.rs:292-371 | a call on an allowlisted asset is a transfer exactly when name, arity and argument types fit |
| DecisionTable.PerTxMeans | src/engine.rs:261-274 | an asset's own cap entry decides alone, zero meaning none; without an entry the global cap does |
| DecisionTable.OkMeans | src/lib.rs:1351-1465 | an accepted non-empty request found no freeze, no pause, a heartbeat within the grace and the clock within the bounds of the active window, and consists only of calls the policy allows |
| ErrorTable.GateMeans | src/engine.rs:397-430 | each account error comes up exactly when it is the first of freeze, no policy, silence, pause, active window that holds, as inequalities on the clock |
| ErrorTable.BlockedByFirst | src/engine.rs:453-587 | every blocking verdict names the first rule the context breaks, each of the 13 error codes read off the policy as sets, maps and whole-number sums; a context that breaks none is allowed |
| ErrorTable.VerdictAtMeans | src/engine.rs:444-593 | the same for every context of a request, counting what those before it staged |
| ErrorTable.AuthorizeMeans | src/lib.rs:1351-1465 | what an authorization answers: key, signature, policy, size, account gate, then the error of the first context refused |
| ListOrder.OrderIsIrrelevant | src/engine.rs:239-274 | reordering the lists of a valid policy changes no verdict and no ledger |
| Validation.ScanDup | src/lib.rs:370-386 | the double loop finds a duplicate exactly when there is one |
| Validation.ScanRecipientCaps | src/lib.rs:395-427 | duplicates first, then the first entry that breaks a rule |
| Validation.ScanAssetCaps | src/lib.rs:434-458 | the first entry that breaks a rule, then duplicates |
| Validation.ScanProtocols | src/lib.rs:537-554 | the first rule with a repeated contract or an invalid function list |
| Validation.ValidatePolicy | src/lib.rs:460-566 | the first failing rule in the documented order; none exactly when every list is a set or map within its bounds |
| RuleOrder.RefusedByFirstStage | src/lib.rs:387-566 | a policy is refused by a rule exactly when that is the defect found by the first of the 17 stages that finds any, each stage in plain terms |
| ValidationSpec.ValidIsSound | src/lib.rs:460-566 | passing all rules in order is the same as the plain description of a sound policy |
| ValidationSpec.PausedIsFree | src/lib.rs:835-850 | flipping the kill switch in place cannot invalidate a policy |
| Contract.PolicyEngine.InitializeAccount | src/lib.rs:735-749 | one-time initialization; the step, its refusals, and the storage invariant |
| Contract.PolicyEngine.Set | src/lib.rs:773-790 | the policy step: admin and validation first; a first install seeds window and clock, an edit keeps both; the revision moves |
| Contract.PolicyEngine.Reset | src/lib.rs:801-805 | the reset step removes the window key and nothing else |
| Contract.PolicyEngine.SwitchPaused | src/lib.rs:835-850 | pause and resume flip one flag in place; the revision moves only if it changed |
| Contract.PolicyEngine.Revoke | src/lib.rs:853-859 | revoking removes policy and window and moves the revision |
| Contract.PolicyEngine.RotateKey | src/lib.rs:863-876 | the key rotation step |
| Contract.PolicyEngine.Propose | src/lib.rs:885-894 | a nomination by the admin, never of the admin |
| Contract.PolicyEngine.Confirm | src/lib.rs:903-916 | the nominee takes over and the nomination is cleared |
| Contract.PolicyEngine.Cancel | src/lib.rs:920-928 | the admin withdraws the nomination |
| Contract.PolicyEngine.RecordHeartbeat | src/lib.rs:939-964 | a heartbeat counts only past the account's own authorization; a second one in the same second writes nothing |
| Contract.PolicyEngine.SetFrozen | src/lib.rs:966-970 | the freeze step |
| Contract.PolicyEngine.ClearFrozen | src/lib.rs:998-1006 | unfreezing restarts the heartbeat clock |
| Contract.PolicyEngine.RecordExpiry | src/lib.rs:976-989 | the expiry is recorded once, and only if it is true |
| Contract.PolicyEngine.Authenticate | src/lib.rs:1351-1465 | `__check_auth`: checks in order, one decision, first error; an error changes nothing, an Ok touches only the window key |
| Contract.PolicyEngine.CheckDetailed | src/lib.rs:1175-1237 | verdict and headroom from a pruned local copy; storage untouched |
| Contract.PolicyEngine.CheckBatch | src/lib.rs:1246-1322 | verdicts and admissibility of a payment run; storage untouched |
| Contract.PolicyEngine.ReadStatus | src/lib.rs:1090-1127 | the operational snapshot, headroom on a pruned copy |
| ContractSpec.ApplyKeepsInv | src/lib.rs:730-1006 | every entry point, succeeding or not, keeps the storage invariant |
| Runs.ReachableShape | src/window.rs:335-376 | in every reachable state the policy is valid and every spend window has increasing timestamps, positive amounts, at most 8192 entries and an exact total within i128; recipients are distinct |
| Runs.InstallSeedsOrKeeps | src/lib.rs:764-790 | a first install starts from an empty window and a fresh clock, an edit keeps both |
| EntryPoints.FieldsWritten | src/lib.rs:730-1006 | field by field, which successful calls write it and what, and that no other does |
| EntryPoints.RefusedExactly | src/lib.rs:730-1006 | error by error, exactly when an administrative call fails with it or traps |
| EntryPoints.RequestOutcome | src/lib.rs:939-947 | a heartbeat succeeds exactly if the account authorizes a request that contains it, and traps otherwise |
| EntryPoints.KeyIsLatest | src/lib.rs:861-876 | over runs the agent key is that of the latest successful rotation, by the admin of that time, or of the initialization |
| EntryPoints.OldKeyRefused | src/lib.rs:1371-1377 | after a rotation and until the next, whatever another key signed traps and changes nothing |
| EntryPoints.FreezeFreezes | src/lib.rs:966-970 | after a successful freeze and until an unfreeze succeeds, whatever else is called, signed requests under a policy fail with AdminFrozen and heartbeats trap |
| EntryPoints.UnfreezeThaws | src/lib.rs:998-1006 | an unfreeze clears the flag and restarts the heartbeat clock at once, and touches neither policy nor key |
| EntryPoints.PausePauses | src/lib.rs:829-850 | after a pause and until a call resumes, replaces or revokes the policy, signed requests fail, with Paused unless frozen or silent too long, and heartbeats trap |
| EntryPoints.ExpiryIsFirst | src/lib.rs:972-989 | over runs the recorded expiry is the time of the first refresh that found the silence too long, and absent exactly if there was none |
| SpendHistory.StagedIsCounted | src/engine.rs:453-593 | a fully allowed batch has staged exactly the amounts and calls it lets through |
| Authorized.Accepted | src/engine.rs:432-613 | behind every Ok every context was allowed and all that was staged is committed to the ledger as loaded and pruned; empty requests behind a closed gate included |
| Authorized.DecidedWindow | src/engine.rs:532-610 | each window gets one admission of what was let through of its kind, within the limit, exactly when the policy limits the kind |
| Ceilings.RollingCeiling | src/window.rs:5-8 | from any reachable state, over every run in which nothing drops the window, what is let through is counted and limited to at most cap, and no entry the span sees is pruned, no span holds more than cap, whatever is accepted, rejected or edited in between |
| Ceilings.StaysExactWhen | src/lib.rs:764-788 | an authorization that merges nothing keeps an exact window exact for a span if and only if it prunes no entry the span sees and what it lets through is limited and reaches storage |
| Ceilings.PrunedTotalIsConservative | src/window.rs:5-8 | over the same runs the pruned total is at least what was let through in the last window_secs; counted from an empty window it is equal without merges and zero exactly when that is zero |
| Ceilings.QuietRestoresBudget | src/window.rs:5-8 | in every run from any reachable state, whatever is edited, dropped, forgotten or uncounted, once what the window held at the start and all that was let through is a width old, the pruned window is empty |
| OnePolicy.HardCeiling | src/engine.rs:486-547 | from any reachable state, as long as no reset and no edit to a different policy succeeds, no window_secs span exceeds window_cap, nor a recipient's spend its override |
| OnePolicy.ProtocolRate | src/engine.rs:570-582 | the same for protocol calls under a limit below u32::MAX while the window key is in storage; without a width the limit is one for good |
| OnePolicy.RateRefusesExactly | src/engine.rs:570-582 | the rate rule refuses exactly when the limit is below u32::MAX and used up |
| OnePolicy.TrackedRecipientsBounded | src/window.rs:72-75 | under one policy only recipients with an override are tracked, each once, at most 256, resets or not |
| StorageFacts.StoredExactly | src/lib.rs:1449-1458 | after an Ok the window key is in storage exactly when it was before or the request has a transfer under an enabled cap or override; otherwise storage is untouched |
| StorageFacts.OkStoresDecision | src/lib.rs:1449-1458 | an Ok changes only the window key, and the next load reproduces the decided ledger exactly when, judged on state and request, it is written and the stored calls fit a u32, all expire, or no more expire than are added; or it is not written and adds no call |
| StorageFacts.CallTotalExact | src/engine.rs:570-582 | with a limit below u32::MAX the decided call total is exact |
| BudgetGaps.CallLeavesNoTrace | src/lib.rs:1454-1457 | with no window key, every protocol call that passes the gates is accepted whatever the limit, counts, and leaves storage untouched |
| BudgetGaps.RateFailsWithoutKey | src/lib.rs:1454-1457 | from every such state any number of calls passes in one second |
| BudgetGaps.RateBrokenAfterReset | src/lib.rs:792-805 | for every limit, width and number, a run from deployment through reset_window with that many calls in one second |
| BudgetGaps.LimitOfMaxIsNone | src/engine.rs:570-582 | under a limit of u32::MAX, from deployment without edit or reset, any number of calls passes in one second |
| BudgetGaps.LoweredLimitMiscounts | src/window.rs:378-419 | after more calls than a u32 holds and the limit lowered to one, two calls pass within one width, for every width of two seconds up |
| BudgetGaps.LastSecondTwice | src/window.rs:310 | for every cap and width, a run from deployment under one policy that spends the cap twice at the last second |
| BudgetGaps.LastSecondBatch | src/engine.rs:444-610 | at the last second two transfers of the cap both pass one by one and not as a batch |
| BudgetGaps.DroppedFreshBudget | src/lib.rs:853-859 | for every cap and width, a run that revokes and installs again and spends the cap twice in one second |
| BudgetGaps.WideningFreshBudget | src/lib.rs:764-788 | for every cap and pair of widths, a run from deployment under that cap throughout that lets through twice the cap within the wider window in force at its end |
| BudgetGaps.DisabledCapUncounted | src/engine.rs:532-535 | for every cap, width and amount, a run from deployment that disables and re-enables the cap and lets through cap and amount in one second |
| Governance.FailureChangesNothing | src/lib.rs:730-1006 | an entry point that fails or traps leaves all of storage as it was |
| Governance.AdminHandover | src/lib.rs:880-928 | over runs the admin changes only when the latest uncancelled nominee of the then-current admin confirms |
| Governance.RevisionCounts | src/lib.rs:349-354 | over any stretch of a run the revision grows by the number of calls that set, revoke or flip the policy, saturating |
| Governance.SameRevisionExactly | src/lib.rs:829-834 | below saturation two states of a run have the same revision exactly when no such call lies between them |
| Governance.SameRevisionSamePolicy | src/lib.rs:349-354 | below saturation two states of a run with equal revision hold the same policy |
| Governance.RevisionAndPolicyPart | src/lib.rs:829-859 | a call moves the revision but not the policy exactly when an admin re-installs the installed policy or revokes where there is none below saturation; the policy but not the revision exactly in any other policy call at saturation |
| Governance.ReinstallMovesRevision | src/lib.rs:773-784 | from every state with a policy, re-installing it keeps the policy and moves the revision |
| Governance.EmptyRevokeMovesRevision | src/lib.rs:853-859 | from every state without a policy, revoking keeps it so and moves the revision |
| Governance.ThereAndBackMovesRevision | src/lib.rs:773-784 | an edit to another policy and back ends at the same policy and a later revision |
| Deadman.SilenceCannotSelfRevive | src/engine.rs:410-430 | from an expired state, across edits that leave it expired and as long as no other edit, unfreeze or revoke_policy succeeds, every non-empty authorization fails, heartbeats included, and the heartbeat never moves |
| Deadman.EditRevives | src/lib.rs:764-788 | an edit leaves an expired account expired exactly when the new grace is positive and shorter than the silence so far |
| Deadman.ClosedGatePasses | src/engine.rs:380-430 | past a closed account gate exactly the signed request for nothing succeeds, given a key and a policy |
| Deadman.TimelyNeverExpires | src/lib.rs:930-964 | from any initialized state with a recorded heartbeat, an agent whose own heartbeats come at most the grace apart and are gated by nothing else is never expired and all of them succeed, whatever else is called in between |
| Preflight.CheckAgrees | src/lib.rs:1175-1237 | check gives the verdict a validly signed transfer would get, whoever it is from |
| Preflight.BatchAgrees | src/lib.rs:1239-1322 | a batch is admissible exactly when `__check_auth` would return Ok |
| Preflight.HeadroomIsExact | src/engine.rs:27-58 | when only the windows can refuse, a transfer passes exactly when its amount is within the reported headroom and the global one, also under tightened caps |
| Preflight.HeadroomMeans | src/engine.rs:27-58 | the reported headroom is the largest amount that on top of the pruned total stays within the reported effective cap, zero if there is none; that cap is the override of the recipient or else the global one |
| Preflight.PerTxCapsMean | src/lib.rs:1198-1237 | the reported global cap ignores the asset, the effective one is that of its own entry or else the global one, and is exact: where nothing before it refuses, the per-transaction rule does exactly above it |
| Preflight.NoPolicyReported | src/lib.rs:1175-1190 | without a policy the reads report the refusal and nothing else |
| Preflight.BatchVerdictsExplain | src/lib.rs:1239-1322 | one verdict for each transfer, or one for too many; the first refusal among them is the error enforcement returns, and a run of one gets the verdict of check |
| Preflight.HealthAgainstGate | src/engine.rs:75-100 | expired health is a silence beyond the grace or no heartbeat ever; the warning starts at four fifths of the grace rounded down |
| Preflight.StatusMeans | src/lib.rs:1079-1127 | what each status field is in terms of storage and the clock |
| Preflight.StatusExplainsGate | src/lib.rs:1079-1088 | the status fields determine the account gate and its order |
| Base32.Decode | tools/agent-tx/src/base32.rs:33-51 | the accumulator loop computes the bits of the characters up to the first padding, eight to a byte, and refuses a foreign character |
| Base32.Encode | tools/agent-tx/src/base32.rs:54-71 | the accumulator loop computes the bits of the bytes filled with zeros, five to a character |
| Base32.DecodeEncode | tools/agent-tx/src/base32.rs:31-71 | decoding undoes encoding for every byte string |
| Base32.EncodeDecode | tools/agent-tx/src/base32.rs:31-71 | encoding undoes decoding wherever no bits are left over |
| Base32.PaddingEnds | tools/agent-tx/src/base32.rs:37-40 | a padding character ends the input |
| Base32.FailsExactly | tools/agent-tx/src/base32.rs:31-51 | decoding fails exactly on a foreign character with no padding before it |
| Base32.DecodedBits | tools/agent-tx/src/base32.rs:41-49 | the bytes decoded are the bits of the characters but for fewer than eight at the end |
| Base32.EncodedBits | tools/agent-tx/src/base32.rs:54-71 | the characters encoded are the bits of the bytes and fewer than five zeros |
| Base32.AlphabetTable | tools/agent-tx/src/base32.rs:12-13 | the closed forms of digit and character are the alphabet table and inverse to each other |
| Crc.Crc16 | tools/agent-tx/src/base32.rs:16-29 | the byte loop computes the bit-serial register |
| Crc.PolynomialValue | tools/agent-tx/src/base32.rs:15-29 | the bit string used is that of 0x1021 |
| Crc.CrcLinear | tools/agent-tx/src/base32.rs:16-29 | the checksum of a difference is the difference of the checksums |
| Crc.ShortBurst | tools/agent-tx/src/base32.rs:16-29 | a burst of at most 16 bits vanishes in the register only if it is zero |
| Crc.NibbleStep | tools/agent-tx/src/base32.rs:16-29 | where four fed bits and the register go, bit by bit |
| StrKey.EncodeKey | tools/agent-tx/src/base32.rs:76-85 | version, payload and the checksum low byte first, in base 32 |
| StrKey.ValidateKey | tools/agent-tx/src/strkey.rs:92-156 | the checks run in order, each with its error, and the version must be one of the kind |
| StrKey.DecodeKeyString | tools/agent-tx/src/strkey.rs:92-137 | decoding an encoded key gives back version and key |
| StrKey.KeyStringOfDecoded | tools/agent-tx/src/strkey.rs:73-137 | an accepted string is the encoding of what it decodes to, and starts with the version's prefix |
| StrKey.OneStringPerKey | tools/agent-tx/src/strkey.rs:92-137 | each version and key has exactly one accepted string |
| StrKey.AcceptedExactly | tools/agent-tx/src/strkey.rs:89-137 | the strings accepted are exactly the encodings of a version byte and a 32-byte key |
| StrKey.RefusedBecause | tools/agent-tx/src/strkey.rs:92-131 | each refusal has exactly one cause: empty, the first character outside the table, in lower case or not, or a length other than 56; the rest is accepted or has a bad checksum |
| StrKey.VersionCharacters | tools/agent-tx/src/strkey.rs:69-75 | the first character and the top three bits of the second are the version byte |
| StrKey.KindByCharacters | tools/agent-tx/src/strkey.rs:35-56 | an accepted string is of a kind exactly when it starts with a letter of the kind, C, G or S, and its second character is one of A to D; otherwise its version is refused |
| StrKey.ThreeAdjacentRejected | tools/agent-tx/src/strkey.rs:89-137 | any change within three neighbouring characters of an accepted string gives a checksum error, except exactly one difference that ends and three that begin with the straddling character, which are accepted |
| StrKey.TwoAdjacentRejected | tools/agent-tx/src/strkey.rs:89-137 | any change within two neighbouring characters, wherever they stand, gives a checksum error |
| StrKey.OneCharacterRejected | tools/agent-tx/src/strkey.rs:89-137 | replacing any one character of an accepted string by another of the alphabet gives a checksum error, also where body and checksum share a character |
| StrKey.SwapRejected | tools/agent-tx/src/strkey.rs:89-137 | swapping two different neighbours gives a checksum error |

## Left out

- Ed25519 verification, `require_auth` and host routing: foreign code; a flag and a set of addresses on each call stand for their answers.
- Persistent TTL extension, rent and archival: storage economics without effect on a decision.
- Events, reason strings, error codes and key fingerprints: observability only. The `merges` telemetry is reduced to the entry `AdmitToLedger` reports.
- `policy_hash` and the ScVal encoding: they rest on the SDK serializer and SHA-256, which are not part of this model.
- `validate_policy`, `policy`, `pause`, `resume` and the contract-level `dms_health`: one-line wrappers of members that are modelled.
- Test fixtures, benchmarks, fuzz targets, network tables and RPC output of the tool: no core behaviour.
- Ceilings.RollingCeiling: nothing is said across a `reset_window` or a revocation that succeeds, which are meant to give a fresh budget (counting may start anew after them), nor at the last second of the `u64` clock.
- OnePolicy.TrackedRecipientsBounded: per policy only, because windows of recipients whose override an edit removes stay in storage.
- BatchSequence.BatchEqualsSequenceAtTheEnd: about the verdicts; the ledgers differ there, because one by one each admission expires before the next.
- BatchSequence.BatchEqualsSequence: for an empty batch the ledgers may differ, because deciding an empty batch prunes and deciding nothing does not.
- Which message text `strkey.rs` prints: errors carry the broken rule and position only.
