# Verified model of the TBP-NETWORK governance layer

TBP-NETWORK governs what software agents may do. Its decision path consists of small, lock-protected
state machines written in Go. This project models the hardest of them in Dafny and proves what each
of them is relied on for, over all inputs and all interleavings:

- **Epoch fencing** (`Epoch`, `EpochHistory`, `EpochOutcome`): signed epoch tokens, hand-over between cells, the
  failover budget, quarantine.
- **Anonymiser**: masking a JSON payload through an interning table, and putting the values back. Texts, rules and
  tables are in `AnoText`, `AnoRules`, `AnoVault` and `Exponent`; the two passes in `Anonymiser`, `AnoSize`,
  `AnoMethods`, `AnoLeaves` and `AnoRequests`; the round trip in `AnoScript`, `AnoReading`, `AnoRoundTrip`,
  `AnoExamples`, `AnoExchange`, `AnoTimed` and `AnoInterleaving`; what becomes of each leaf in `AnoOutcome`; and what
  the output gives away in `AnoNonInterference`.
- **Envelope reservation** (`Envelope`): reserve, ask the rule, keep or release.
- **Arbitration queue** (`ArbiterCodec`, `Arbiter`, `ArbiterReplies`, `ArbiterHistory`, `ArbiterRecovery`): one-shot
  human approvals, and what of them survives a crash.
- **Rule-graph validator** (`RuleGraph`): cycle detection by depth-first search.
- **Admission queue** (`Admission`): a bounded, fair scheduler in front of the policy engine.
- **Anti-replay ring** (`AntiReplay`), **single-use quorum proofs** (`QuorumGate`), **fail-closed latch with bounded
  recovery** (`FailClosed`) and the **canonical object seal** (`ObjectSeal`).
- Shared: `Basics`, `Bytes`, `Lex`, `Multisig`.

`dafny verify dfyconfig.toml` checks everything.

## How it is modelled

Where the source updates fields, loops or works in place, the model is a class or a method of the same
form (`Tracker.Accept`, `Cache.CheckAndConsume`, `Queue.Restore`, `Validator.Dfs`, `SortInPlace`, ...).
Each such method is proved equal to a specification function on values, and the claims about whole
histories are lemmas about that function, folded over a sequence of events. Each mutex-protected
section is one atomic event; events interleave freely.

What such a function answers is also stated without it: the `...Exactly` lemmas give, for each answer, the condition
under which it is given, in terms of signatures, entries and times, and the `...Means` lemmas the whole new state.

Conventions:

- Ed25519 verification and RFC 3339 parsing are arbitrary functions carried by the configuration.
- A hash stands for what it identifies: a consumed proof is its statement, an interned value is its own key. The
  seal is the byte string that is hashed.
- Time is an integer number of nanoseconds; where the code compares Unix seconds, the model divides. Clocks are
  parameters, and "clock forward" is stated where a claim needs it. A stamp that the code reads before it takes a lock
  is a parameter of the locked section, so stamps of successive sections may come in any order.
- Writing a registry leaf or a file may fail; the outcome is a parameter of the step.
- The classifier is an arbitrary sequence of answers, and the pattern engine an arbitrary list of matches per text.
- Payload trees are decoded JSON values that keep member order and the exact text of numbers; the length of a quoted
  string is an arbitrary function that is at least its own length.

Results worth knowing before reading the table:

- Single authority needs more than monotone epochs. `NotBefore` looks only at the token that was current on arrival.
  Among cells that miss no token it holds when leases do not overlap (`EpochHistory.SingleAuthority`), and, for
  tokens that can be delivered at all, fails otherwise (`EpochHistory.OverlapIsReachable`, with a concrete sequence in
  `EpochHistory.ShrinkingExpiriesOverlap`).
  One missed token breaks it even when expiries are ordered (`EpochHistory.MissedTokenOverlaps`); ordered expiries are
  enough when the cell that is ahead has not skipped everything since the other one's token
  (`EpochHistory.SingleAuthorityOrdered`), and against arbitrary losses only disjoint periods help
  (`EpochHistory.SingleAuthorityLossy`, `EpochHistory.LoneTokensOverlap`).
- A placeholder is read greedily: it takes the digits that follow it, up to nine in all. `AnoRoundTrip.MaskUnmaskIff`
  gives the exact outcome for every exchange. Unmasking is refused if and only if some number that is read has not
  been handed out; otherwise the original comes back if and only if the texts put in agree with it. Masking X in "X1"
  is refused on the way back (`AnoExamples.RefusedOnTheWayBack`), and in an exchange of eleven values the number 9
  comes back for it (`AnoExamples.WrongValueComesBack`). It never goes wrong when no span is followed by a kept digit.
- Maskings and unmaskings in one exchange mix value by value, because the exchange is locked for one value at a time.
  Each masking still comes back (`AnoInterleaving.RoundTripThroughVault`), and an unmasking answers as if it had looked
  once, at its end or, when it refuses an unknown number, at its start (`AnoTimed.ReadingIsAtomic`). A masking whose
  exchange is closed goes on in the wiped one, and its output is read with the numbers of whatever exchange is opened
  under that id later (`AnoInterleaving.LostMasking`).
- The anti-replay cache reads its clock before it takes its lock, so stamps can enter out of order. An id is accepted
  twice only if a request with a stamp after its expiry entered in between (`AntiReplay.NoReplay`), and then it can be,
  with both stamps in time (`AntiReplay.LateEntryReplays`).
- A second authorisation by one quorum proof can only fall into the last partial second before its expiry
  (`QuorumGate.SecondAuthorisation`): with a whole-second expiry there is none (`QuorumGate.AuthorisesOnce`), with a
  fraction there can be one (`QuorumGate.FractionalExpiryReplays`).
- Issued volume stays under the cap as long as no request reserves for an epoch after a later one was reserved;
  requests in flight may finish (`Envelope.NoOverIssue`). The condition cannot be dropped anywhere: from every state
  with a later epoch reserved and room in the ledger, a request that still carries the old one starts from zero and
  the whole cap can be granted once more (`Envelope.StaleReserveOverIssues`).
- Probes are counted for the cycle, not for a condition: a condition that trips late in a cycle is released after a
  single healthy probe (`FailClosed.OneProbeIsEnough`).
- A restart forgets what is tripped, since only the floors of the proofs are kept on disk; a proof still releases once
  (`FailClosed.ProofReleasesOnce`).
- A restart of the arbitration queue does not bring every live entry back. An entry comes back, whole but for the
  fraction of a second in its expiry, if and only if its ticket stands in the journal
  (`ArbiterRecovery.RestoreGivesBack`): its request found room in the replay, and no earlier request of the same id was
  still open there (`ArbiterRecovery.StandsExactly`). A request that ran out stays open in the journal, so a second
  request of that subject is lost by a restart (`ArbiterRecovery.AskedAgainIsLost`); an approval that was replaced by a
  new request before it was taken comes back in its place (`ArbiterRecovery.OldApprovalReturns`). Nothing is lost when
  each id is asked for again only after its answer was taken (`ArbiterRecovery.TidyRunsLoseNothing`).
- Of several reported rule cycles only the first one is certain, because a search that reports leaves its path on the
  stack. `RuleGraph.SearchIsExact` tells exactly which of the others are real, and `RuleGraph.LaterFindingIsFalse`
  shows one that is not.
- An empty roster is dropped from the signed JSON, so tokens that differ only in "empty roster" and "no roster" carry
  the same signature and hash; the model keeps both payloads and compares their canonical forms.
- The comment above the arbitration record names the tag TBAR1, the code writes TBAR2; the model follows the code.

## Model

| member | source | states |
|---|---|---|
| `Multisig.ReachedByDistinctControllers` | src/cluster/epoch.go:430-459 | a signature list that passes the count is backed by at least k different known controllers, each with a signature that verifies |
| `EpochFencing.Tracker.constructor` | src/cluster/epoch.go:220-286 | a new tracker has no epoch, no quarantine and an empty failover log |
| `EpochFencing.Tracker.VerifyQuorum` | src/cluster/epoch.go:430-459 | the loop over signatures accepts exactly when all of them are by distinct known controllers, verify, and reach the quorum |
| `EpochFencing.Tracker.ConsumeAutoBudget` | src/cluster/epoch.go:464-478 | the log filtered in place is the sliding hour's live entries, with `now` appended exactly when the budget allows |
| `EpochFencing.Tracker.Accept` | src/cluster/epoch.go:297-425 | state and outcome of every presentation equal `Transition`; what that is, outcome by outcome and without it, is in the five rows below |
| `EpochOutcome.RefusedExactly` | src/cluster/epoch.go:297-425 | a presentation is refused for exactly its first fault in the code's order; the fault of a missing quorum is told from the signatures themselves, each by a different known controller and verifying |
| `EpochOutcome.RedeliveredExactly` | src/cluster/epoch.go:338-354 | a redelivery is exactly a token without a fault up to there that says the same as the current epoch under the same number |
| `EpochOutcome.InstalledExactly` | src/cluster/epoch.go:297-425 | a token is installed exactly when it has none of the fifteen faults and a higher number |
| `EpochOutcome.InstallationMeans` | src/cluster/epoch.go:378-425 | the whole new state: the epoch, exactly the members outside the roster added to the quarantine, and the failover log |
| `EpochOutcome.InstallationsAreSigned` | src/cluster/epoch.go:297-459 | over every history, each installed token carries verifying signatures of at least the quorum of different controllers, names a member, and is within the bounds on term, issue time and mode |
| `EpochFencing.Tracker.InstallLocked` | src/cluster/epoch.go:378-425 | roster checks, hand-over instant and quarantine of the last stage of `Accept`, equal to `Install` |
| `EpochFencing.Tracker.CurrentEpoch` | src/cluster/epoch.go:484-504 | the tracker serves exactly when it is the authority, not quarantined, and inside [notBefore, expiry) |
| `EpochOutcome.ServiceExactly` | src/cluster/epoch.go:484-504 | each answer exactly when it is the first that applies: no epoch, quarantine, another authority, too early, too late; otherwise it serves under the current number |
| `EpochHistory.RefusalKeepsEpoch` | src/cluster/epoch.go:297-425 | a refused or redelivered token changes neither the current epoch nor the quarantine |
| `EpochHistory.RefusalAndBudget` | src/cluster/epoch.go:369-376 | a refusal touches the failover log only at the budget or at the roster checks after it, and in the latter case has spent it |
| `EpochHistory.StepEffect` | src/cluster/epoch.go:297-425 | an installation raises N, sets the hand-over instant and adds the revoked cells; anything else leaves epoch and quarantine alone |
| `EpochHistory.EpochsMoveForward` | src/cluster/epoch.go:297-425 | along every history the epoch is the same or has a higher N, and quarantine only grows |
| `EpochHistory.InstalledNumbersIncrease` | src/cluster/epoch.go:297-425 | installed numbers strictly increase, so one N is never bound to two payloads, and the last one is current |
| `EpochHistory.QuarantineIsForever` | src/cluster/epoch.go:484-504 | a cell once quarantined in its own tracker never obtains an epoch again |
| `EpochHistory.LeaseInvariantHolds` | src/cluster/epoch.go:297-425 | after every history the current epoch takes effect at or after issue, and not before the expiry of the token installed before it |
| `EpochHistory.ServesInsideLease` | src/cluster/epoch.go:484-504 | whatever was presented, a cell serves only as the holder of the last token it installed itself, inside that token's lease |
| `EpochHistory.SingleAuthority` | src/cluster/epoch.go:297-425 | two cells that miss no token, and so installed prefixes of one sequence with exclusive leases, never serve at the same instant, however far one lags |
| `EpochHistory.OrderedExpiriesAreExclusive` | src/cluster/epoch.go:406-420 | if expiries never decrease along the sequence, the leases are exclusive |
| `EpochHistory.SingleAuthorityOrdered` | src/cluster/epoch.go:297-425 | two cells that installed any parts of one sequence whose expiries never decrease do not serve together, unless the one ahead skipped everything since the other one's token |
| `EpochHistory.LaterCellWaits` | src/cluster/epoch.go:406-420 | then the cell that is ahead takes over no earlier than the other one's token expires |
| `EpochHistory.SingleAuthorityNoLoss` | src/cluster/epoch.go:297-425 | cells that miss nothing meet that condition, so for them ordered expiries are enough |
| `EpochHistory.SingleAuthorityLossy` | src/cluster/epoch.go:297-425 | whatever each cell missed, they never serve together if no two tokens for different cells have overlapping periods from issue to expiry |
| `EpochHistory.FreshTokenInstalls` | src/cluster/epoch.go:297-425 | a properly signed manual token with a higher N, presented when issued, is installed, with exactly this new state |
| `EpochHistory.DeliveryInstalls` | src/cluster/epoch.go:297-425 | delivering a well-formed token sequence on time installs every token of it |
| `EpochHistory.DeliveredCellServes` | src/cluster/epoch.go:484-504 | a cell that got exactly these tokens on time serves if and only if it is in its own lease |
| `EpochHistory.LaggingCellServes` | src/cluster/epoch.go:484-504 | a cell that got only the first tokens serves throughout the lease of the last one it got |
| `EpochHistory.OverlapIsReachable` | src/cluster/epoch.go:406-420 | converse of single authority: if two leases share an instant, histories exist in which both cells serve at it |
| `EpochHistory.ShrinkingExpiriesOverlap` | src/cluster/epoch.go:406-420 | concrete three-token sequence with a shorter second lease in which two cells serve together |
| `EpochHistory.MissedTokenOverlaps` | src/cluster/epoch.go:406-420 | for all tokens a, b, d with ordered expiries: a cell with a and b and a cell with a and d serve together from the expiry of a to that of b |
| `EpochHistory.LoneTokensOverlap` | src/cluster/epoch.go:297-425 | two cells with one token each serve together wherever the periods of the tokens overlap, so the condition for arbitrary losses is exact |
| `EpochHistory.SpacingBoundsWindows` | src/cluster/epoch.go:464-478 | instants of which any max+1 span an hour put at most max into any hour-long window |
| `EpochHistory.BudgetInvariantHolds` | src/cluster/epoch.go:464-478 | the forgetful log still determines the spacing of all failovers ever spent |
| `EpochHistory.FailoverRateLimit` | src/cluster/epoch.go:369-376 | over every history with a forward clock, each interval (t - 1h, t] holds at most maxAuto installed automatic tokens |
| `AnoText.TokenInjective` | src/ano/vault.go:97-98 | different numbers give different placeholders |
| `AnoText.TokenReadBack` | src/ano/ano.go:59-64 | a placeholder of up to nine digits is read back exactly when no digit follows |
| `AnoText.TokenReadTooFar` | src/ano/ano.go:59-64 | when a digit follows, the greedy match takes more than the placeholder |
| `AnoText.SkipText` | src/ano/ano.go:609-633 | text without a placeholder passes through resolution unchanged, even directly before one |
| `AnoRules.MatchLen` | src/ano/rules.go:180-190 | the loop returns the rule's length when the rule covers the path (wildcards included), and -1 otherwise |
| `AnoRules.BestMatch` | src/ano/rules.go:202-222 | the loop over rules computes the longest covering rule |
| `AnoRules.DecidePath` | src/ano/rules.go:202-222 | the verdict equals `Decide` |
| `AnoRules.LongestCoverIsLongest` | src/ano/rules.go:202-222 | no covering rule is longer than the computed length, and one has it |
| `AnoRules.DecideMeaning` | src/ano/rules.go:202-222 | masked exactly when a covering mask rule is at least as long as every covering keep rule; undecided exactly when nothing covers |
| `AnoRules.SwapBack` | src/ano/rules.go:234-264 | the inner loop of the in-place sort inserts one span and leaves the rest of the array alone |
| `AnoRules.SortInPlace` | src/ano/rules.go:234-264 | the array ends up as the insertion sort of its old contents |
| `AnoRules.SelectSpans` | src/ano/rules.go:234-264 | filter, in-place sort and thinning compute `FindSpans` |
| `AnoRules.SortSorts` | src/ano/rules.go:234-271 | the sort is ordered and a permutation |
| `AnoRules.SortedFormUnique` | src/ano/rules.go:266-271 | ordered permutations of each other are equal |
| `AnoRules.SpansOrderIndependent` | src/ano/rules.go:234-264 | the chosen spans depend only on which matches there are, not on their order |
| `AnoRules.SpansSound` | src/ano/rules.go:234-264 | the chosen spans are disjoint matches inside the text, and every match starts inside a chosen one |
| `AnoRules.LongestIsChosen` | src/ano/rules.go:266-271 | of the matches that start at one place the longest is chosen |
| `AnoVault.InternKeeps` | src/ano/vault.go:81-102 | interning keeps the two maps inverse and the tokens numbered 1 to n, forgets nothing, and the token reads back the value |
| `AnoVault.InternExactly` | src/ano/vault.go:81-102 | a known value changes nothing, a new one takes the next number, and only a new one is refused, exactly when the table is full |
| `AnoVault.NextTokenIsFresh` | src/ano/vault.go:97-100 | the next placeholder is not in use |
| `AnoVault.Exchange.constructor` | src/ano/vault.go:171-175 | a new exchange holds nothing |
| `AnoVault.Exchange.InternEntry` | src/ano/vault.go:81-102 | the update in place equals `Intern`, including the refusal of a full table |
| `AnoVault.HandedOutTokens` | src/ano/vault.go:105-114 | in every coherent table a placeholder is found exactly when it is one of the n handed out |
| `AnoVault.Exchange.Lookup` | src/ano/vault.go:105-114 | what is found under a placeholder is the value it was handed out for, and nothing is found exactly when it was not handed out |
| `AnoMethods.WriteSpans` | src/ano/ano.go:438-471 | the loop that writes kept text and placeholders equals `FillSegs` on the cut text |
| `AnoMethods.WriteLeafToken` | src/ano/ano.go:473-481 | a whole value is replaced by its placeholder, or the full table refuses |
| `AnoMethods.EmitKept` | src/ano/ano.go:379-471 | a kept leaf still goes through the patterns: numbers whole, strings span by span |
| `AnoMethods.MaskLeaf` | src/ano/ano.go:331-374 | rule, classifier and default-deny decide the leaf as `LeafPlan` says, and the table changes as `Fill` says; what goes out is in the rows of `AnoOutcome` |
| `AnoMethods.MaskValue` | src/ano/ano.go:256-327 | the recursive pass computes what planning first and filling afterwards computes, depth bound included |
| `AnoMethods.MaskItems` | src/ano/ano.go:256-327 | the loop over members does so left to right and stops at the first refusal |
| `AnoOutcome.MaskOutput` | src/ano/ano.go:256-481 | what masking sent out, leaf by leaf: the frame is kept, and each leaf has the fate that the rules, the classifier's answer to its own call and the patterns give it, placeholders standing for exactly what they replace |
| `AnoOutcome.InClearExactly` | src/ano/ano.go:331-374 | a leaf that no rule covers goes out in clear if and only if the classifier is there, has a call left and says so, and no pattern matches; unless the classifier lets it through, a placeholder for the whole leaf goes out |
| `AnoOutcome.KeptNumberExactly` | src/ano/ano.go:379-436 | a number that a rule keeps is replaced exactly when a pattern matches it as written or in expanded form |
| `AnoOutcome.SegmentsSplice` | src/ano/ano.go:438-471 | the text sent out is the original with exactly the chosen spans replaced by their placeholders |
| `AnoOutcome.MaskedOrBlamed` | src/ano/ano.go:256-374 | what is masked had no placeholder in it and was not too deep; a refusal names a placeholder in the input, the depth or a table that is full |
| `AnoMethods.ResolveText` | src/ano/ano.go:609-633 | the left-to-right replacement loop equals `ResolveWithin`, with the refusal of an unknown placeholder and of too much output; a text without a placeholder passes |
| `AnoMethods.UnmaskString` | src/ano/ano.go:515-605 | an exact placeholder yields the typed value, an embedded one its text, an unknown one a refusal |
| `AnoMethods.UnmaskValue` | src/ano/ano.go:515-605 | the recursive pass and the length of what it has written equal `UnmaskWithin`, with the depth and size bounds in the code's order |
| `AnoMethods.UnmaskMembers` | src/ano/ano.go:515-605 | the loop over members equals `ItemsWithin`, commas and keys counted |
| `AnoOutcome.UnmaskDepth` | src/ano/ano.go:515-605 | nothing too deep is answered, and only what is too deep is refused for it |
| `AnoSize.ResolveIsBounded` | src/ano/ano.go:609-633 | the running check of a text refuses exactly what ends up too long, and changes nothing else |
| `AnoSize.UnmaskIsBounded` | src/ano/ano.go:515-605 | so do the running checks of a value: the result is that of unbounded unmasking, exactly when its compact rendering fits |
| `AnoLeaves.MaskLeaves` | src/ano/ano.go:210-232 | the leaves met before the input stops being JSON are masked one by one, and then it is refused, unless one of them was refused before |
| `AnoLeaves.LeavesMask` | src/ano/ano.go:256-327 | masking a document does to the table exactly what masking its leaves in order does, with the same refusal |
| `AnoRequests.MaskJSON` | src/ano/ano.go:210-232 | size check, vault lookup, masking in place of a document or of broken input, and output check equal `MaskRequest`; no other exchange changes |
| `AnoRequests.BrokenIsRefused` | src/ano/ano.go:210-232 | input that is not JSON is never answered, and leaves the table coherent with nothing forgotten |
| `AnoRequests.TrailingDataInterns` | src/ano/ano.go:225-228 | a document followed by more input has interned all of the document when it is refused |
| `AnoRequests.MaskedExactly` | src/ano/ano.go:210-232 | a masking request is answered if and only if a document within bounds is masked in a live exchange and the result fits; the table takes what the masking interned, refused or not, and no other exchange changes |
| `AnoRequests.UnmaskPayload` | src/ano/ano.go:489-513 | size check, vault lookup and the document or text path equal `UnmaskRequest` |
| `AnoRequests.AnsweredExactly` | src/ano/ano.go:489-513 | a document is answered if and only if it fits, the exchange is live, unmasking succeeds and the answer fits; the answer is then that of `Unmask` |
| `AnoRequests.TextAnsweredExactly` | src/ano/ano.go:489-513 | the same for a payload that is not JSON |
| `AnoRequests.RequestRoundTrip` | src/ano/ano.go:210-513 | what a masking request sent out comes back as the document that went in if and only if the exchange is still live, every number read is handed out, the texts agree and the document fits as compact JSON |
| `AnoRoundTrip.PlanPlansFor` | src/ano/ano.go:256-374 | every plan rebuilds its value, and what it keeps contains no placeholder |
| `AnoScript.FillKeeps` | src/ano/vault.go:81-102 | masking any payload keeps the table coherent and only adds to it |
| `AnoScript.MaskedIsWritten` | src/ano/ano.go:256-374 | what masking wrote is its script, the plan with the numbers of its placeholders, and each number stands for its value in every later state of the exchange |
| `AnoScript.ScriptOfTable` | src/ano/ano.go:438-481 | anything written with placeholders that a table binds to the plan's values is such a script |
| `AnoScript.InternAllBinds` | src/ano/vault.go:81-102 | values interned one after the other are bound to the placeholders they got |
| `AnoScript.FillInterns` | src/ano/ano.go:256-374 | masking is interning the plan's values in order and writing their placeholders |
| `AnoReading.ReadFirst` | src/ano/ano.go:59-64 | where a placeholder of any number was written, exactly that number followed by the digits of the kept text, nine at most, is read |
| `AnoReading.ResolveWritten` | src/ano/ano.go:609-633 | resolving a written string, in any table, reads these numbers span by span, from any position of the kept text |
| `AnoReading.UnmaskWritten` | src/ano/ano.go:515-605 | the answer for a written string, in any table: the typed value when the string is one placeholder, its texts otherwise |
| `AnoReading.PiecesMakeText` | src/ano/ano.go:609-633 | a string is read as it was if each text put in is the span and the digits read with its placeholder, and only then if each has that length |
| `AnoRoundTrip.ReadingIsExact` | src/ano/ano.go:489-633 | for every script, unmasked in any exchange: refused if and only if a number read is not handed out there, and otherwise the original if and only if the values and texts agree |
| `AnoRoundTrip.MaskUnmask` | src/ano/ano.go:210-232 | for every value, rule set and classifier, unmasking gives back the original, provided no span is followed by a kept digit and numbers stay within nine digits |
| `AnoRoundTrip.SafeFits` | src/ano/ano.go:489-633 | if no span is followed by a kept digit, every piece fits in a table that binds the numbers |
| `AnoRoundTrip.UnsafeRefused` | src/ano/ano.go:489-633 | with at most nine values, a script with such a digit reads a number that is not handed out |
| `AnoRoundTrip.MaskUnmaskIff` | src/ano/ano.go:489-513 | at every later time of the exchange: refused if and only if some number read has not been handed out; the original comes back if and only if all are and the texts agree |
| `AnoRoundTrip.MaskUnmaskPieces` | src/ano/ano.go:489-513 | in particular when each text put in is its span and the digits read with it, a condition checked piece by piece |
| `AnoRoundTrip.MaskUnmaskFew` | src/ano/ano.go:489-513 | with at most nine values: the original if no span is followed by a kept digit, and a refusal otherwise |
| `AnoExamples.RefusedOnTheWayBack` | src/ano/ano.go:609-633 | a configuration and a payload that is masked and then refused by the same exchange |
| `AnoExamples.WrongValueComesBack` | src/ano/ano.go:609-633 | with ten more values masked in that exchange, another value comes back instead |
| `AnoExchange.VaultStore.constructor` | src/ano/vault.go:127-135 | a new vault has no exchange |
| `AnoExchange.VaultStore.PurgeLocked` | src/ano/vault.go:137-144 | exactly the expired exchanges go |
| `AnoExchange.VaultStore.OpenExchange` | src/ano/vault.go:148-181 | opening equals `Open`: a live exchange is found again with its expiry, a full vault refuses |
| `AnoVault.OpenExactly` | src/ano/vault.go:148-181 | each answer with its condition: a bad id, a live exchange found as it is, an expiry in the past, a vault full of live exchanges; a new exchange is empty and ends at the given time or after the longest term, whichever is first; other live exchanges stay |
| `AnoExchange.VaultStore.GetExchange` | src/ano/vault.go:183-193 | the live exchange under this id, or nothing |
| `AnoExchange.VaultStore.CloseExchange` | src/ano/vault.go:195-202 | the exchange is gone and its object forgets its values, also for a masking still holding it; every other exchange keeps its object and its table |
| `AnoTimed.UnmaskLater` | src/ano/ano.go:489-633 | a table that has grown answers everything it answered before, and refuses for depth what it refused for depth |
| `AnoTimed.ReadingIsAtomic` | src/ano/ano.go:489-633 | with a lock per lookup and a table that grows in between: a value or a refusal for depth is what a single look at the end gives, a refusal for an unknown number what a single look at the start gives |
| `AnoTimed.AnsweredOrRefused` | src/ano/ano.go:489-633 | lookups that see what a table binds as it is or not at all give the answer of that table, or a refusal |
| `AnoTimed.OneSight` | src/ano/ano.go:489-633 | lookups that all see the same table are the unmasking in one go |
| `AnoInterleaving.OpenIsOpen` | src/ano/vault.go:148-181 | opening in a vault of exchange objects is `Open` on its values |
| `AnoInterleaving.CloseIsClose` | src/ano/vault.go:195-202 | closing wipes one object and is `Close` on the values |
| `AnoInterleaving.LookIsPurge` | src/ano/vault.go:137-144 | so is the purge that precedes every request |
| `AnoInterleaving.StepMoves` | src/ano/vault.go:81-202 | one event, of any kind: an exchange that is still in the vault is the same one with a coherent table that only grew, counters never fall, and the exchanges stay apart |
| `AnoInterleaving.InternBinds` | src/ano/vault.go:81-102 | one locked section of a masking gives it one more numbered placeholder, bound to the value it is written for while its exchange lives |
| `AnoInterleaving.InvHolds` | src/ano/vault.go:81-202 | along every interleaving, live tables are coherent and every placeholder of every masking is bound to its value while its exchange lives |
| `AnoInterleaving.UninterruptedMasking` | src/ano/ano.go:256-374 | a masking that nothing interrupts is `Mask` |
| `AnoInterleaving.LiveExchangeContinues` | src/ano/vault.go:137-202 | nothing but its own closing or expiry takes a live exchange away, saturation included |
| `AnoInterleaving.ExchangeContinues` | src/ano/vault.go:137-202 | over every sequence of events that spare it, an exchange is the same one and its table grows from any point to any later one |
| `AnoInterleaving.FinishedStays` | src/ano/ano.go:256-374 | a finished masking is not touched by anything later |
| `AnoInterleaving.AnswerIsExact` | src/ano/ano.go:489-513 | over every run, with anything between the lookups of the unmasking: a value that comes back is judged by the table at its end, a refusal by the table at its start, both as `AnoRoundTrip.ReadingIsExact` says |
| `AnoInterleaving.RoundTripThroughVault` | src/ano/ano.go:489-513 | over every run, a masking finished in an exchange, whatever was mixed with it, comes back from any later unmasking, whatever is mixed with that, until closing or expiry, if no span is followed by a kept digit |
| `AnoInterleaving.BackOrRefused` | src/ano/ano.go:489-513 | whatever happens to the exchange between the lookups, closing and expiry included: the original or a refusal, never another value, if no span is followed by a kept digit |
| `AnoInterleaving.LostMasking` | src/ano/vault.go:81-125 | the output of a masking whose exchange was closed, unmasked in any exchange of the vault: refused if and only if a number read is not handed out there, and the original if and only if that exchange's values agree |
| `AnoNonInterference.InternLinked` | src/ano/vault.go:81-102 | corresponding values get the same placeholder in two tables with the same history of equalities |
| `AnoNonInterference.FillLinked` | src/ano/ano.go:256-374 | two plans of one shape, whose masked values repeat alike, are filled into the same output |
| `AnoNonInterference.MaskedOutputRevealsPatternOnly` | src/ano/ano.go:331-374 | fresh exchanges give identical output for payloads that differ only in masked values with the same equalities |
| `AnoNonInterference.AlikePlans` | src/ano/ano.go:331-374 | payloads that agree wherever a leaf is not masked whole, the classifier's answers included, have plans of one shape and cost the classifier as many calls |
| `AnoNonInterference.AlikePayloadsMaskAlike` | src/ano/ano.go:331-374 | the same non-interference with the condition read off the payloads, with or without a classifier |
| `Exponent.ParseSound` | src/ano/ano.go:393-398 | whatever the exponent pattern accepts is made of the returned, well-formed parts |
| `Exponent.ParseComplete` | src/ano/ano.go:393-398 | every well-formed number in exponent notation is parsed into its own parts |
| `Exponent.ExpandIsPlain` | src/ano/ano.go:399-432 | the one-string shifting and trimming yields the canonical plain decimal computed part by part |
| `Exponent.ExpandIsExact` | src/ano/ano.go:399-432 | for every exponent of value at most 99 the result has the same sign and exactly the same value, without redundant zeros |
| `Exponent.ExpandIsBounded` | src/ano/ano.go:399-432 | exactly these texts are expanded, and the result is at most 101 characters longer |
| `Envelope.EnvelopeLedger.constructor` | src/broker/envelope.go:127-136 | an empty ledger, not saturated |
| `Envelope.EnvelopeLedger.PurgeLocked` | src/broker/envelope.go:200-206 | exactly the aggregates of earlier epochs go |
| `Envelope.EnvelopeLedger.Reserve` | src/broker/envelope.go:144-160 | the update equals `ReserveSpec`, with refusal on saturation and on 64-bit overflow |
| `Envelope.ReserveExactly` | src/broker/envelope.go:144-206 | refused exactly for want of room, which raises the alarm, or on overflow; otherwise the volume is added and the new aggregate reported; earlier epochs go and nothing else moves |
| `Envelope.EnvelopeLedger.Release` | src/broker/envelope.go:165-179 | the aggregate falls by the volume but never below zero, no other aggregate moves, and no entry appears |
| `Envelope.ReleaseUndoesReserve` | src/broker/envelope.go:144-179 | a release after a reserve restores every aggregate of this and later epochs |
| `Envelope.HandlePassport` | src/broker/broker.go:781-877 | each outcome with its exact condition: quota, reservation, configured rule, the rule's consent to the reserved total, the signature and the leaf, in this order; every refusal but a failed leaf gives the volume back |
| `Envelope.ReserveAggregate` | src/broker/envelope.go:144-160 | a reservation moves the aggregate of an entity only if it is for it or for a later epoch, and reports the new aggregate |
| `Envelope.InvHolds` | src/broker/broker.go:781-877 | along every interleaving without a stale request: each holder was shown a total covering itself and all older holders, and until a later epoch is reserved the aggregate is what is held |
| `Envelope.NoOverIssue` | src/broker/broker.go:781-877 | if no request reserves for an epoch after a later one was reserved, passports granted for it never sum above the cap, while requests in flight finish at any time; until then the ledger is exactly kept plus in flight |
| `Envelope.StaleReserveOverIssues` | src/broker/envelope.go:200-206 | converse: in every reachable state with a later epoch reserved and room in the ledger, the whole cap can be granted once more |
| `Envelope.LedgerBounded` | src/broker/envelope.go:144-160 | no aggregate ever wraps, and the ledger stays within its number of entities |
| `Envelope.LaterEpochForgets` | src/broker/envelope.go:200-206 | from nothing, for every cap and every pair of epochs: twice the cap is granted |
| `ArbiterCodec.ParseEncode` | src/arbiter/arbiter.go:516-541 | parsing a journal record gives back every field, for every subject of up to 255 bytes |
| `ArbiterCodec.ParseAccepts` | src/arbiter/arbiter.go:629-649 | a record is accepted exactly at the length its subject byte announces |
| `ArbiterCodec.DecisionMessageInjective` | src/arbiter/arbiter.go:98-122 | equal signed decisions agree in cell, id, ticket, verdict and expiry second |
| `ArbiterCodec.MessagesDisjoint` | src/arbiter/arbiter.go:104-122 | a decision never equals a presence message |
| `Arbiter.FindKey` | src/arbiter/arbiter.go:305-317 | a key of the list that verifies is found exactly when there is one |
| `Arbiter.Queue.PruneLocked` | src/arbiter/arbiter.go:458-464 | exactly the expired entries go |
| `Arbiter.Queue.KidOf` | src/arbiter/arbiter.go:305-317 | the loop over keys equals `FindKey` |
| `Arbiter.Queue.LeafLocked` | src/arbiter/arbiter.go:516-541 | success means the record is the last of the journal; a failure leaves open whether it is, and nothing else is ever added |
| `ArbiterHistory.Journalled` | src/arbiter/arbiter.go:516-541 | a record that may be written keeps the invariant even when nothing else happens, as after a leaf that failed too late |
| `Arbiter.Queue.Enqueue` | src/arbiter/arbiter.go:347-376 | entries, journal and reply equal `EnqueueSpec` |
| `ArbiterReplies.EnqueueExactly` | src/arbiter/arbiter.go:347-376 | each answer with its condition on length, live pending entry, number of live entries and leaf; the new queue and journal entry by entry |
| `Arbiter.Queue.Decide` | src/arbiter/arbiter.go:380-417 | entries, journal and reply equal `DecideSpec`, with all refusals |
| `ArbiterReplies.DecideExactly` | src/arbiter/arbiter.go:380-417 | each answer with its condition: a live pending entry, the window of the expiry, a verifying signature by a key of the role, or else by an operator; record and entry name the first key that signed |
| `Arbiter.Queue.Take` | src/arbiter/arbiter.go:431-456 | entries, journal and reply equal `TakeSpec`: consumption is journalled before the answer is given |
| `ArbiterReplies.TakeExactly` | src/arbiter/arbiter.go:431-456 | each answer with its condition; an entry leaves the queue exactly when it is live, decided and its consumption was written |
| `Arbiter.Queue.Restore` | src/arbiter/arbiter.go:564-626 | the replay loop, on top of whatever the queue holds, equals `RestoreSpec`; what a restart brings back is in the rows of `ArbiterRecovery` |
| `ArbiterRecovery.SteadyAgrees` | src/arbiter/arbiter.go:347-626 | over every run whose leaves are written or lost, the journal tells every live entry: its request, its only decision with kid and expiry second, and no consumption |
| `ArbiterRecovery.StandsExactly` | src/arbiter/arbiter.go:564-626 | a ticket stands in a journal if and only if its request found room and its id not open in the replay, and it was not consumed |
| `ArbiterRecovery.RestoreGivesBack` | src/arbiter/arbiter.go:564-626 | queue before a crash and queue after the restart: an entry comes back if and only if its ticket stands and its whole expiry second is ahead, with the same ticket, subject, status and kid, and the expiry cut to the second |
| `ArbiterRecovery.RestoredStands` | src/arbiter/arbiter.go:564-626 | nothing else comes back: every entry after a crash and a restart bears the ticket that stands under its id |
| `ArbiterRecovery.UnconfirmedFallsBack` | src/arbiter/arbiter.go:590-598 | an approval that is not in the signed log comes back as the pending request it was, until the second in which the request ends |
| `ArbiterRecovery.TidyRunsLoseNothing` | src/arbiter/arbiter.go:564-626 | if no id was asked for again before its earlier ticket was consumed, and never as many as the bound were open, every live entry comes back so |
| `ArbiterRecovery.AskedAgainIsLost` | src/arbiter/arbiter.go:582-589 | for every request that ran out and every second one on the same id: the second is live and is gone after a restart |
| `ArbiterRecovery.OldApprovalReturns` | src/arbiter/arbiter.go:582-598 | for every approval replaced by a new request before it was taken: after a restart the approval is back and the request is gone |
| `ArbiterHistory.ReplayOk` | src/arbiter/arbiter.go:564-626 | an entry after the replay was there before, or was enqueued, never consumed, and is approved only by a record the log confirms |
| `ArbiterHistory.RestoreKeeps` | src/arbiter/arbiter.go:564-626 | a rebuild keeps the queue's invariant, after a crash and on a running queue alike |
| `ArbiterHistory.EnqueueKeeps` | src/arbiter/arbiter.go:347-376 | so does every enqueue with a fresh ticket |
| `ArbiterHistory.DecideKeeps` | src/arbiter/arbiter.go:380-417 | so does every decision |
| `ArbiterHistory.TakeKeeps` | src/arbiter/arbiter.go:431-456 | so does every consumption |
| `ArbiterHistory.InvHolds` | src/arbiter/arbiter.go:347-626 | the invariant holds after every sequence of operations and crashes |
| `ArbiterHistory.OneApprovalPerTicket` | src/arbiter/arbiter.go:431-456 | over every such sequence a ticket is approved at most once |
| `ArbiterHistory.ApprovalsAreSigned` | src/arbiter/arbiter.go:380-456 | every approval handed out follows one that an arbiter signed for that cell, id and ticket, and precedes its expiry |
| `RuleGraph.WalkDescends` | policies/validate_determinism.go:230-278 | along a walk the finishing rank falls by at least one per step |
| `RuleGraph.RankedIsAcyclic` | policies/validate_determinism.go:230-278 | a graph whose rules were all finished without a finding has no cycle |
| `RuleGraph.Validator.CycleHasNegation` | policies/validate_determinism.go:288-297 | true exactly when some step of the cycle has a negated reference |
| `RuleGraph.Validator.IndexInStack` | policies/validate_determinism.go:243-249 | the position of the rule on the stack |
| `RuleGraph.Validator.Report` | policies/validate_determinism.go:240-264 | adds one finding: the stack from the first occurrence of the rule on, closed by it, flagged exactly when a step is negated |
| `RuleGraph.BackReference` | policies/validate_determinism.go:240-264 | the reported path is real from the root of the search on, closing reference included |
| `RuleGraph.GenuineExactly` | policies/validate_determinism.go:240-264 | a finding is a closed walk if and only if it closes within the path of its own search, or the part of the old stack it includes leads to the root of that search |
| `RuleGraph.EnterRule` | policies/validate_determinism.go:235-237 | pushing a rule keeps the search invariant: the grey rules are the stack, and finished rules are ranked |
| `RuleGraph.LeaveRule` | policies/validate_determinism.go:270-272 | so does finishing a rule whose references are all finished, which gets the next rank |
| `RuleGraph.EdgesSound` | policies/validate_determinism.go:238-269 | following the references of a rule in a search without findings reports a cycle, or finishes all of them |
| `RuleGraph.ExploreSound` | policies/validate_determinism.go:235-274 | exploring a rule in a search without findings reports a cycle, or finishes and ranks the rule and keeps the stack |
| `RuleGraph.Validator.Dfs` | policies/validate_determinism.go:235-274 | terminates, and the in-place search equals `Explore`, after a finding as well |
| `RuleGraph.ExploreReports` | policies/validate_determinism.go:235-274 | a search started on any stack, also one left by earlier findings, reports its own path on top of it, and keeps the grey rules equal to the stack |
| `RuleGraph.AllReports` | policies/validate_determinism.go:206-280 | so every finding of the check belongs to the stack its search began on and the stack it left |
| `RuleGraph.LeadsStepwise` | policies/validate_determinism.go:206-280 | an old stack leads to a root if and only if each search begun on it since began at a rule to which the rule on top refers |
| `RuleGraph.SearchIsExact` | policies/validate_determinism.go:206-280 | no finding exactly when the graph is acyclic; a finding is genuine if and only if every search begun while the rule it closes on was on the stack began at a rule to which the rule on top refers |
| `RuleGraph.ReportCloses` | policies/validate_determinism.go:240-264 | the closing reference of every finding exists |
| `RuleGraph.LaterFindingIsFalse` | policies/validate_determinism.go:206-280 | a bundle of two rules whose second finding fails that condition |
| `RuleGraph.CheckCycles` | policies/validate_determinism.go:206-280 | no finding exactly when the dependency graph is acyclic; the first is a closed walk, flagged exactly when a step of it is negated; every other one is so if and only if the searches it spans were joined, and its closing reference exists |
| `Admission.SubjectCap` | src/pep/opa_admission.go:79-98 | the per-subject cap is the share of the capacity, rounded up, at least one and at most the capacity |
| `Admission.ScanQueue` | src/pep/opa_admission.go:183-214 | the loop drops exactly the expired waiters, corrects the counters and finds the waiter to serve |
| `Admission.BestIsBest` | src/pep/opa_admission.go:183-214 | that waiter's subject has the fewest in flight, and no older waiter ties with it |
| `Admission.AdmissionQueue.constructor` | src/pep/opa_admission.go:79-98 | a new queue is idle |
| `Admission.ArriveKeeps` | src/pep/opa_admission.go:101-126 | an arrival, as `AdmissionQueue.Acquire` decides it, keeps the books: it is counted as a holder exactly when admitted, and nobody waits while a place is free |
| `Admission.ArriveExactly` | src/pep/opa_admission.go:101-126 | over every run, the answer to an arrival told from the holders and waiters: too large a share, a free place, a full queue, or a place in the queue; exactly one counter moves or the queue grows by the request |
| `Admission.AdmissionQueue.Scan` | src/pep/opa_admission.go:183-214 | one pass over the queue, with a clock reading for every waiter looked at, equals `DropExpired` |
| `Admission.GrantKeeps` | src/pep/opa_admission.go:183-214 | so does a grant to any waiter while a place is free |
| `Admission.AdmissionQueue.DispatchLocked` | src/pep/opa_admission.go:183-214 | the dispatch loop terminates and equals `Dispatch`, its passes reading the clock on and on |
| `Admission.AdmissionQueue.Release` | src/pep/opa_admission.go:160-177 | giving a place back equals `GiveBack` |
| `Admission.TimeOutKeeps` | src/pep/opa_admission.go:127-158 | so does a waiter whose deadline fires |
| `Admission.DispatchKeeps` | src/pep/opa_admission.go:183-214 | dispatch keeps the books and stops only when every place is taken or nobody waits |
| `Admission.AccountsBalance` | src/pep/opa_admission.go:101-214 | after any arrivals, releases, time-outs and abandonments: in flight is the number of holders and within bounds, the counters are exact per subject and within the cap, admitted is in flight plus released, and waiting means full |
| `Admission.EveryRequestCounted` | src/pep/opa_admission.go:101-214 | conservation over every run: requests arrived and places abandoned are together the admitted, the waiting and the three shed counters |
| `Admission.DispatchQueue` | src/pep/opa_admission.go:183-214 | nobody new appears in the queue or among the granted |
| `Admission.DispatchPasses` | src/pep/opa_admission.go:183-214 | a dispatch is a chain of passes, each starting from the state and the clock the one before left |
| `Admission.PassBooks` | src/pep/opa_admission.go:183-214 | the counters of each pass are exact: those that held a place, and those served so far |
| `Admission.DispatchFair` | src/pep/opa_admission.go:183-214 | every grant goes to a waiter in time when looked at: of a subject with fewer in flight than everyone else the pass found in time, counting holders and grants so far, or with as many and older |
| `Admission.WaitsInTime` | src/pep/opa_admission.go:183-214 | a waiter that was in time whenever it was looked at still waits in every pass until it is served |
| `Admission.FirstRequestShed` | src/pep/opa_admission.go:101-126 | a subject's first request is turned away exactly when the queue is full and all places are taken |
| `Admission.NewcomerIsNeverShed` | src/pep/opa_admission.go:79-126 | while one subject alone occupies everything and the cap is below the capacity, another subject's first request is never shed |
| `AntiReplay.Cache.constructor` | src/pep/antireplay.go:67-81 | an empty ring |
| `AntiReplay.Cache.PurgeHeadInPlace` | src/pep/antireplay.go:131-138 | the lazy purge drops exactly the expired entries in front of the first unexpired one, and the id set follows |
| `AntiReplay.Cache.CollectUnexpired` | src/pep/antireplay.go:143-163 | first pass of the full purge: the unexpired entries in order, and the id set without the others |
| `AntiReplay.Cache.Compact` | src/pep/antireplay.go:143-163 | second pass: the ring holds exactly these entries |
| `AntiReplay.Cache.PurgeAllInPlace` | src/pep/antireplay.go:143-163 | compaction keeps exactly the unexpired entries, in order |
| `AntiReplay.Cache.Trip` | src/pep/antireplay.go:166-174 | the alarm is raised once and latched |
| `AntiReplay.Cache.Insert` | src/pep/antireplay.go:114-118 | the new entry goes behind the last one, modulo the ring |
| `AntiReplay.Cache.MakeRoom` | src/pep/antireplay.go:104-112 | a full ring is purged completely before anything is refused |
| `AntiReplay.Cache.CheckAndConsume` | src/pep/antireplay.go:91-119 | ring and map together equal `Consume` on a plain sequence of entries |
| `AntiReplay.AcceptedIff` | src/pep/antireplay.go:91-119 | accepted exactly when the id is not recorded after the lazy purge and fewer than the capacity are unexpired |
| `AntiReplay.ConsumeExactly` | src/pep/antireplay.go:91-174 | the same from positions alone: an id is refused while it or an entry recorded before it is unexpired, or when every place is live; the first refusal of the latter kind raises the alarm |
| `AntiReplay.NothingLiveDropped` | src/pep/antireplay.go:131-163 | no unexpired entry is dropped by any request, and only the accepted id is added |
| `AntiReplay.StaysRecorded` | src/pep/antireplay.go:91-163 | over every sequence of requests, stamped in any order, an accepted id stays recorded until one enters with a stamp after its expiry |
| `AntiReplay.NoReplay` | src/pep/antireplay.go:91-119 | between two acceptances of one id a request entered with a stamp after the expiry of the first, whatever the order of the stamps |
| `AntiReplay.NoReplayInOrder` | src/pep/antireplay.go:91-119 | so, if no later stamp entered before the second, an id is not accepted again up to and including its expiry second |
| `AntiReplay.LateEntryReplays` | src/pep/antireplay.go:91-119 | otherwise it can be: for all stamps in time with a third one after the expiry between them, both are accepted |
| `AntiReplay.ReplayAtTheLastSecond` | src/pep/antireplay.go:91-119 | concretely, an id good until second 10 is accepted twice at second 10 |
| `AntiReplay.RefusalMeans` | src/pep/antireplay.go:91-119 | a refusal means the id is recorded, or exactly as many different unexpired ids as the capacity are held |
| `AntiReplay.AlarmAtMostOnce` | src/pep/antireplay.go:166-174 | the saturation alarm is raised at most once in any sequence of requests |
| `AntiReplay.AlarmExactly` | src/pep/antireplay.go:166-174 | and it is raised if and only if some request of the sequence found every place live and its own id not held |
| `QuorumGate.ProofStore.constructor` | src/cluster/proof_store.go:76-100 | the store starts with what the file holds |
| `QuorumGate.ProofStore.PurgeExpired` | src/cluster/proof_store.go:103-135 | exactly the entries whose second has come go, and they are kept aside |
| `QuorumGate.ProofStore.PutBack` | src/cluster/proof_store.go:103-135 | a purge is undone entry by entry |
| `QuorumGate.ProofStore.Record` | src/cluster/proof_store.go:126-171 | the entry is in memory and in the file, or in neither |
| `QuorumGate.ProofStore.Consume` | src/cluster/proof_store.go:103-135 | equals `ConsumeSpec`; a replay, a full store or a failed write leaves memory and file as they were |
| `QuorumGate.Gate.constructor` | src/cluster/quorum.go:117-161 | a gate over a store of the configured capacity |
| `QuorumGate.Gate.CountSigners` | src/cluster/quorum.go:169-249 | the signature loop accepts exactly distinct known controllers that all verify and reach k; `QuorumGate.VerdictExactly` says so of the verdict |
| `QuorumGate.Gate.VerifyClassW` | src/cluster/quorum.go:169-249 | equals `VerifySpec`, consumption before the leaf; what that is, without it, is in the two rows below |
| `QuorumGate.VerdictExactly` | src/cluster/quorum.go:169-249 | the verdict is the first obstacle in the code's order, an authorisation if there is none; the obstacle of the signatures is that one is by an unknown or repeated controller, does not verify, or that they are too few |
| `QuorumGate.StoreExactly` | src/cluster/proof_store.go:103-171 | an admitted proof is recorded with its second, in memory and file, and only what is due goes; any other verdict leaves the store alone |
| `QuorumGate.AuthorisationNeedsQuorum` | src/cluster/quorum.go:169-249 | over every history, an authorisation is bound to action, resource, epoch and policy, is in time, and carries verifying signatures of at least k different controllers |
| `QuorumGate.DiskAgrees` | src/cluster/proof_store.go:103-171 | memory and file agree between any two events |
| `QuorumGate.StaysConsumed` | src/cluster/proof_store.go:103-135 | an authorised statement stays in the store until the second of its expiry, restarts included, for every expiry |
| `QuorumGate.SecondAuthorisation` | src/cluster/quorum.go:169-249 | for every expiry, a second authorisation can only fall into the last partial second before it |
| `QuorumGate.AuthorisesOnce` | src/cluster/quorum.go:169-249 | over every history with restarts, a statement with a whole-second expiry authorises at most once |
| `QuorumGate.FractionalExpiryReplays` | src/cluster/proof_store.go:103-135 | for every fractional expiry, a proof presented inside its last partial second lets the first one authorise again |
| `FailClosed.Latched.constructor` | src/pep/failclosed.go:169-196 | a latch without conditions |
| `FailClosed.RegisterKeepsTrips` | src/pep/failclosed.go:216-227 | declaring a condition, as `Latched.Register` does, trips and releases nothing, changes no known condition, fails exactly when the class differs, and is idempotent |
| `FailClosed.Latched.Trip` | src/pep/failclosed.go:235-253 | equals `TripSpec`: unknown conditions become class W, and the first diagnosis is kept |
| `FailClosed.TripExactly` | src/pep/failclosed.go:235-253 | the condition is tripped, with the first diagnosis kept and class W if it was not declared; nothing else moves |
| `FailClosed.Latched.Gate` | src/pep/failclosed.go:259-274 | refuses exactly when something is tripped, and names the lexicographically first condition |
| `FailClosed.Latched.Clear` | src/pep/failclosed.go:287-317 | equals `ClearSpec`, with every refusal of a class W release in order; a floor file that cannot be read and one that cannot be written are told apart |
| `FailClosed.ClearExactly` | src/pep/failclosed.go:287-317 | a release is granted if and only if the condition is tripped and, in class W, the proof is accepted and later than the floor; each refusal with its condition |
| `FailClosed.ClearMeans` | src/pep/failclosed.go:287-317 | a granted release lifts the condition, keeps its class and moves the floor of a class W one; any other leaves everything, and nothing else moves |
| `FailClosed.AutoClearExactly` | src/pep/failclosed.go:324-339 | each answer with its condition: released exactly when tripped and not of class W; no other condition, no class and no floor moves |
| `FailClosed.AutoClearer.constructor` | src/pep/opa_autoclear.go:87-119 | an idle recovery with factor one |
| `FailClosed.AutoClearer.Tick` | src/pep/opa_autoclear.go:124-176 | a whole pass: nothing is released unless the streak reaches the requirement, and then exactly what was found tripped and is still releasable |
| `FailClosed.AutoClearer.ClearAll` | src/pep/opa_autoclear.go:166-171 | releases exactly the listed conditions that are still releasable, in whatever order |
| `FailClosed.UnknownTripsAsW` | src/pep/failclosed.go:235-253 | a condition nobody declared is class W from the moment it trips |
| `FailClosed.OnlyReleaseMovesW` | src/pep/failclosed.go:216-346 | no event of the process but a release with a proof moves a tripped class W condition |
| `FailClosed.LatchHolds` | src/pep/failclosed.go:216-346 | over every sequence of events of the process a tripped class W condition stays tripped until such a release |
| `FailClosed.ReleaseNeedsProof` | src/pep/failclosed.go:287-317 | the release needs a verified proof later than the condition's floor, and moves the floor to it |
| `FailClosed.FloorStays` | src/pep/quorum_state.go:79-106 | the floor of a condition never moves down, restarts included |
| `FailClosed.ProofReleasesOnce` | src/pep/quorum_state.go:79-106 | two releases of one condition need strictly later expiry seconds, so one proof releases once, with restarts in between or not |
| `FailClosed.RecoveryStep` | src/pep/opa_autoclear.go:124-176 | no event, of a tick or of anyone else, makes the streak exceed the healthy probes at the end of the current cycle, or the factor differ from what the history calls for |
| `FailClosed.RecoveryInvHolds` | src/pep/opa_autoclear.go:124-176 | over every history, restarts included: the streak counts healthy probes of the current cycle, each with a candidate tripped; the factor follows from the cycles and releases so far; a release is due only at probes times factor |
| `FailClosed.NextCycleNeeds` | src/pep/opa_autoclear.go:136-150 | a cycle begun within a minute of the last automatic release needs twice the probes of the one before, up to eight times; any other needs them once |
| `FailClosed.RecoveryNeedsProbes` | src/pep/opa_autoclear.go:124-176 | an automatic release is of a candidate outside class W, and the current cycle has just had all the healthy probes it needs in a row, each with a candidate tripped, the last one finding this condition |
| `FailClosed.FoundWhenLooked` | src/pep/opa_autoclear.go:124-133 | what a tick holds as found was tripped when it looked |
| `FailClosed.LateConditionReleased` | src/pep/opa_autoclear.go:153-176 | one probe before the end of a cycle, a candidate that trips only then is released by the next healthy probe |
| `FailClosed.OneProbeIsEnough` | src/pep/opa_autoclear.go:124-176 | for every requirement of two probes or more this situation arises, so one probe is the exact guarantee for a single condition |
| `Lex.LessTotal` | src/pep/object_capability.go:114-119 | different byte strings are ordered one way or the other |
| `ObjectSeal.SortContents` | src/pep/object_capability.go:114-119 | the canonical sort is a permutation |
| `ObjectSeal.SortSorted` | src/pep/object_capability.go:114-119 | the canonical sort is ordered by object, then field |
| `ObjectSeal.DistinctPermutes` | src/pep/object_capability.go:129-134 | a permutation of fields without a repeated key has none either |
| `ObjectSeal.SortedUnique` | src/pep/object_capability.go:114-119 | without repeated keys, lists of the same fields are equal once sorted |
| `ObjectSeal.NoRepeatedKey` | src/pep/object_capability.go:129-134 | comparing neighbours of a sorted list finds every repeated key |
| `ObjectSeal.WriteFields` | src/pep/object_capability.go:144-154 | the writing loop produces the concatenated length-prefixed fields |
| `ObjectSeal.ComputeObjectSeal` | src/pep/object_capability.go:92-158 | out-of-bounds input or a repeated key is refused, and the bytes are `Preimage` otherwise |
| `ObjectSeal.FieldPrefix` | src/pep/object_capability.go:144-154 | equal byte strings that start with an encoded field start with the same field |
| `ObjectSeal.FieldsInjective` | src/pep/object_capability.go:144-154 | equally many encoded fields with equal bytes are the same fields |
| `ObjectSeal.HeaderInjective` | src/pep/object_capability.go:136-143 | equal byte strings have the same cell, policy, count and remainder |
| `ObjectSeal.SealIsCanonical` | src/pep/object_capability.go:92-158 | the hashed bytes of two calls are equal if and only if cell and policy are equal and the fields are permutations of each other |

## Left out

- `RuleGraph.CheckCycles`: starts from the dependency graph; collecting references from the syntax tree of a policy, whose references are always to rules of the bundle, is not modelled.
- `AnoRequests.MaskJSON`: starts from what the decoder yields, a document or the leaves before an error; the masking of a single field is not modelled.
- `AnoInterleaving.AnswerIsExact`: for an exchange that lives while it is read; when it is closed in between, only `AnoInterleaving.BackOrRefused` is proved. The size bounds of `AnoSize` are not part of these runs.
- `ArbiterRecovery.RestoreGivesBack`: for runs in which every leaf was written or lost altogether, and whose own restores found every record in the log; after a leaf that failed with its record journalled, queue and journal differ before the crash already.
- `ArbiterHistory.OneApprovalPerTicket`: assumes that the sixteen random bytes of a ticket never repeat.
- `ArbiterHistory.InvHolds`: the journal holds the queue's own records; records of other components, which the code skips by their tag, and the restore statistics are not modelled.
- `AntiReplay.Cache.CheckAndConsume`: the write-only flag of a ring slot is dropped.
- Ed25519, SHA-256, COSE/CBOR, PKCS#11: arbitrary functions, or what they identify.
- JSON lexing and rendering, and the counters of the masking report; the model starts from decoded values and computes lengths only.
- Classifier goroutines, sockets and the regular-expression engine; the retry alarms of the anonymiser.
- HTTP, policy-engine transport, revision polling, heartbeats and presence, process control.
- The memory-only proof store, which has no file to agree with.
- The integer width of durations and instants; 64-bit volumes are modelled where they can wrap.
- Configuration parsing, posture switch, development console and checkers.
