# Verification of the bonded reputation program and its clients

A Dafny model of the reputation system: the on-chain program that keeps agents, completions,
challenges, bonded capabilities and their vaults; the SDK and website code that recompute its scores
and read its records; the webhook dispatcher and the event decoder that follow it; and the benchmark
that claims to mirror it. Check the whole project with `dafny verify dfyconfig.toml`.

## How the project is laid out

* `Words`, `Wrappers`, `Sequences`, `Sums`: machine words, options, sequences, finite sums.
* `Ledger`: the accounts as a value and one function per instruction, each returning the next state or
  the error the code raises, in the order of its checks. Two more steps stand for the outside world:
  anybody sends lamports to any address, and time passes. `LedgerProgram` has the handlers as methods
  that update the account fields in place, each proved to leave exactly the state of its function.
* `LedgerInvariant`, `LedgerMoney`, `LedgerChallenges`, `LedgerLiveness`: what holds in every
  reachable ledger and over every run. `LedgerHistory`: every record as the history of accepted
  instructions. `LedgerRules`: acceptance, the pause switch, the settings and the admin handover.
* `Seeds`: the seed bytes of the derived addresses, which justify naming accounts by their owners.
* `Discovery`: capability discovery by index and by account scan.
* `Score`, `WebScore`: the score formula written three times.
* `Mechanisms`, `MechanismScores`, `BenchmarkAccounts`, `BenchmarkSpending`, `Receipts`, `Simulation`:
  the benchmark's mutable book, what a point takes, its own accounting and costs, the two-sided
  receipts, and the simulation of the program.
* `SlowBurn`, `RatingGraph`, `KCore`, `RingDetection`, `RatingOrder`, `RingScenario`: the benchmark's
  scenarios and collusion detectors.
* `Dispatcher`, `DispatcherRuns`: paging, delivery and cursor of the webhook dispatcher, and its runs.
* `EventLog`: the log line patterns, the decoder's stack machine, and the printing of a call tree.

The form follows the source. Handlers, mechanisms, the dispatcher and the loops are methods over
mutable fields, proved against functions of the old state; the laws are lemmas about those functions.

## What the proofs found

Where the code and its documentation disagree, the model follows the code.

* The on-chain quotient passes through a 32-bit cast before the cap at 63, so 2^32 decay periods after
  its last activity an agent's full net score is back (`Score.CastRestoresScore`). The SDK and the
  chain agree exactly when the cast is exact or harmless (`Score.SdkRefinesOnChain`).
* A net of 2^63 or more never decays to zero (`Score.InactivityReachesZero`).
* The website decays by thirty days where the period is not positive; the SDK does not decay at all
  there (`WebScore.WebAgreesWithSdk`). It announces the next halving one second after the next period
  boundary. That is right exactly in the first period after a recorded activity that does not lie in the
  future, for a positive net (`WebScore.AnnouncedHalvingIsExact`). In later periods the halving comes one
  second earlier; after an activity ahead of the clock it comes later by that lead
  (`WebScore.FutureActivityMissesHalving`); and without a net, without an activity or at 63 halvings it
  never comes (`WebScore.NextHalvingIsDue`).
* With one point the website's chart divides zero by zero, so its only point is not a number
  (`WebScore.DecaySeries`).
* `withdraw_capability_bond` prunes the index (capability.rs:275-279), although its doc comment
  (capability.rs:244-245) and docs/account-layout.md:180-182 say that stale pointers stay. A fully
  slashed capability can never be withdrawn, so it keeps its slot among the 64 for ever
  (`LedgerLiveness.FullySlashedStaysIndexed`).
* The dispatcher's comment says that after a long downtime old transactions are delivered again. The
  code does the opposite once the unhanded backlog exceeds 200 pages: it starts 200 pages back and
  never returns (`DispatcherRuns.LongHistoryIsSkipped`). Up to there it skips nothing, over any crash,
  restart or lost state, and the bound is exact (`DispatcherRuns.RunSkipsNothing`).
* The decoder attributes data to the program on top of its stack, and log messages can look like the
  lines that move the stack. Outside the frames of its own program this never matters: other programs may
  print what they like, short of an invocation of it (`EventLog.DecodingInvertsRendering`). Inside those
  frames it does. A message that reads as the end of a frame hides the events after it, and printed by a
  called program it attributes that program's data to the caller. The exact lines are known
  (`EventLog.LogLineIsPlain`, `EventLog.LineInOwnFrame`, `EventLog.LineInCalledFrame`); the message
  `success` is one (`EventLog.LoggedSuccessHidesEvent`, `EventLog.LoggedSuccessMisattributesEvent`). A
  data line is one only if its payload is `success` or starts with `failed:`
  (`EventLog.DataLineReadsBack`), and base64 never is (`EventLog.Base64IsProper`).
* The benchmark accepts a challenge whose bond cannot be paid, an attestation dated before the clock, and
  one after the program's ids are used up; the program does not. On every other operation the two agree
  (`Simulation.OpMirrorsExactly`).

## Model

| member | source | states |
|---|---|---|
| `LedgerProgram.Program.AttestCompletion` | programs/taop_reputation/src/instructions/reputation.rs:40-88 | the handler, with its checks in order, leaves exactly the state of the `Attest` step or an error and no change |
| `LedgerProgram.Program.Challenge` | programs/taop_reputation/src/instructions/reputation.rs:115-152 | the handler refines the `ChallengeCompletion` step: the configured bond moves into the vault of the completion, and a pending record is written, dated by the clock (`LedgerHistory.CancelAfterChallenge` says what follows) |
| `LedgerProgram.Program.Resolve` | programs/taop_reputation/src/instructions/reputation.rs:189-252 | the handler refines the `ResolveChallenge` step: the whole vault goes to the challenger or the treasury, the record closes, an upheld challenge counts one dispute |
| `LedgerProgram.Program.Cancel` | programs/taop_reputation/src/instructions/reputation.rs:304-346 | the handler refines the `CancelChallenge` step: refund after ninety days, to the challenger only |
| `LedgerProgram.Program.GetScore` | programs/taop_reputation/src/instructions/reputation.rs:262-276 | in a reachable ledger the returned counters count the records of the agent, the score never exceeds their difference, and while the 32-bit cast is exact it is that difference halved once per period of inactivity |
| `LedgerProgram.Program.Register` | programs/taop_reputation/src/instructions/capability.rs:38-104 | the handler refines the `RegisterCapability` step, with the bond, the id and the index entry |
| `LedgerProgram.Program.Certify` | programs/taop_reputation/src/instructions/capability.rs:117-135 | the handler refines the `CertifyCapability` step (`LedgerHistory.CapabilityIsHistory` says what the flag means) |
| `LedgerProgram.Program.Slash` | programs/taop_reputation/src/instructions/capability.rs:156-221 | the handler refines the `SlashCapability` step, partial and full slashes apart (`LedgerHistory.CapabilityIsHistory` adds the penalties up) |
| `LedgerProgram.Program.Retain` | programs/taop_reputation/src/instructions/capability.rs:275-279 | the in-place pruning loop returns the entries other than the withdrawn one, in order |
| `LedgerProgram.Program.Withdraw` | programs/taop_reputation/src/instructions/capability.rs:247-291 | the handler refines the `WithdrawBond` step: vault to creator, record closed, index pruned |
| `LedgerProgram.Program.JoinAgent` | programs/taop_reputation/src/instructions/agent.rs:23-39 | registering an agent claims an unclaimed record and keeps its counters |
| `LedgerProgram.Program.Initialize` | programs/taop_reputation/src/instructions/config.rs:41-97 | the handler refines the `InitializeConfig` step, rent minimum to the treasury included |
| `LedgerProgram.Program.Update` | programs/taop_reputation/src/instructions/config.rs:107-145 | the handler refines the `UpdateConfig` step: every optional change or none |
| `LedgerProgram.Program.ChangeCertifier` | programs/taop_reputation/src/instructions/config.rs:155-168 | the handler refines the `SetCertifier` step |
| `LedgerProgram.Program.ProposeAdmin` | programs/taop_reputation/src/instructions/config.rs:196-213 | the handler refines the `TransferAdmin` step |
| `LedgerProgram.Program.TakeAdmin` | programs/taop_reputation/src/instructions/config.rs:233-243 | the handler refines the `AcceptAdmin` step |
| `LedgerProgram.Program.SystemTransfer` | programs/taop_reputation/src/instructions/reputation.rs:122-132 | a transfer either moves the amount or, without the balance, nothing |
| `LedgerProgram.Program.Execute` | programs/taop_reputation/src/lib.rs:21-130 | dispatching any instruction to its handler is one step of the specification, with its error |
| `LedgerProgram.Program.ExecuteAll` | programs/taop_reputation/src/lib.rs:21-130 | any instructions in any order: the program plays the run of the specification, keeps the invariant, and no lamport appears or disappears |
| `LedgerInvariant.AttestKeeps` | programs/taop_reputation/src/instructions/reputation.rs:40-88 | an accepted attestation keeps the whole invariant |
| `LedgerInvariant.ChallengeKeeps` | programs/taop_reputation/src/instructions/reputation.rs:115-152 | an accepted challenge keeps the whole invariant |
| `LedgerInvariant.ResolveKeeps` | programs/taop_reputation/src/instructions/reputation.rs:189-252 | an accepted resolution keeps the whole invariant |
| `LedgerInvariant.CancelKeeps` | programs/taop_reputation/src/instructions/reputation.rs:304-346 | an accepted cancellation keeps the whole invariant |
| `LedgerInvariant.RegisterKeeps` | programs/taop_reputation/src/instructions/capability.rs:38-104 | an accepted registration keeps the whole invariant |
| `LedgerInvariant.CertifyKeeps` | programs/taop_reputation/src/instructions/capability.rs:117-135 | an accepted certification keeps the whole invariant |
| `LedgerInvariant.SlashKeeps` | programs/taop_reputation/src/instructions/capability.rs:156-221 | an accepted slash keeps the whole invariant |
| `LedgerInvariant.WithoutKeepsOrder` | programs/taop_reputation/src/instructions/capability.rs:275-279 | pruning keeps id order and frees exactly one slot if the entry was there |
| `LedgerInvariant.WithdrawKeeps` | programs/taop_reputation/src/instructions/capability.rs:247-291 | an accepted withdrawal keeps the whole invariant |
| `LedgerInvariant.InitializeKeeps` | programs/taop_reputation/src/instructions/config.rs:41-97 | the initialization establishes the configured part of the invariant |
| `LedgerInvariant.OtherStepKeeps` | programs/taop_reputation/src/instructions/config.rs:107-243 | configuration changes and the admin handover keep the invariant while bonds are pending |
| `LedgerInvariant.DisputesBounded` | programs/taop_reputation/src/instructions/reputation.rs:231-243 | disputes count distinct completions of the agent, so they never exceed its completions |
| `LedgerInvariant.StepKeeps` | programs/taop_reputation/src/instructions/config.rs:107-243 | every step, donations and clock advance included, keeps: counters equal ground truth, ids exact, one record per challenge, vaults solvent, indexes equal to the live records |
| `LedgerInvariant.RunKeeps` | programs/taop_reputation/src/lib.rs:21-130 | the invariant holds in every ledger reachable from genesis by any instructions in any order |
| `LedgerMoney.StepMoves` | programs/taop_reputation/src/instructions/reputation.rs:122-132 | every step makes exactly the one transfer its instruction is meant to make, in full, and touches no other lamport |
| `LedgerMoney.StepMoney` | programs/taop_reputation/src/instructions/reputation.rs:115-346 | one step changes the vault total by what it deposits or donates less what it pays out, and keeps the lamports |
| `LedgerMoney.MoneyEquation` | programs/taop_reputation/src/instructions/reputation.rs:115-346 | over every run: vaults = deposits + donations - refunds - forfeits - slashes - withdrawals, and total lamports are constant |
| `LedgerMoney.TreasuryGains` | programs/taop_reputation/src/instructions/capability.rs:195-209 | only an initialization funds the treasury with the rent minimum, and besides only forfeits and slashes reach it |
| `LedgerMoney.StepWallet` | programs/taop_reputation/src/instructions/config.rs:65-77 | one step changes a wallet by its receipts, its payments and, for the treasury, the program inflow |
| `LedgerMoney.WalletEquation` | programs/taop_reputation/src/instructions/config.rs:65-77 | over every run every wallet balances, and program inflow to the treasury is exactly rent minimum + forfeits + slashes |
| `LedgerChallenges.StepOfOneChallenge` | programs/taop_reputation/src/instructions/reputation.rs:119-152 | a record appears exactly by an accepted challenge and settles exactly by an accepted resolution or cancellation; its terms never change |
| `LedgerChallenges.OneChallengeOnePayout` | programs/taop_reputation/src/instructions/reputation.rs:94-152 | in every run at most one opening and at most one closing per completion, exactly as its record says; resolve and cancel exclude each other |
| `LedgerChallenges.ChallengeIsFixed` | programs/taop_reputation/src/instructions/reputation.rs:189-252 | challenger, bond and time never change, and a settled outcome with its disputed flag is final |
| `LedgerChallenges.EscrowLeavesOnce` | programs/taop_reputation/src/instructions/reputation.rs:205-346 | a challenge vault gets poorer exactly on closing, then by everything, at least the bond: to the recorded challenger if upheld or cancelled, to the treasury if rejected |
| `LedgerLiveness.CancelEnabled` | programs/taop_reputation/src/instructions/reputation.rs:304-338 | a cancellation is accepted if and only if the challenge is pending, its challenger signs, and ninety days are over; pausing plays no part |
| `LedgerLiveness.BondComesBack` | programs/taop_reputation/src/instructions/reputation.rs:304-346 | in every future a pending challenge is either settled or, after ninety days, refundable for at least the bond |
| `LedgerLiveness.ResolveEnabled` | programs/taop_reputation/src/instructions/reputation.rs:189-209 | a resolution is accepted if and only if the challenge is pending and an authority signs |
| `LedgerLiveness.WithdrawEnabled` | programs/taop_reputation/src/instructions/capability.rs:247-283 | a withdrawal is accepted if and only if the creator signs for a live record with bond left; it pays at least the bond and frees exactly one index slot |
| `LedgerLiveness.SlashEnabled` | programs/taop_reputation/src/instructions/capability.rs:156-196 | a slash is accepted if and only if it stays within the bond and leaves nothing or at least the rent minimum |
| `LedgerLiveness.VaultsNeverMismatch` | programs/taop_reputation/src/instructions/reputation.rs:205-209 | `VaultBalanceMismatch` is unreachable |
| `LedgerLiveness.IndexFullMeans64Live` | programs/taop_reputation/src/instructions/capability.rs:90-94 | a registration is refused for a full index if and only if 64 records of its type are live and the same registration would be accepted with empty indexes |
| `LedgerLiveness.FullySlashedStaysIndexed` | programs/taop_reputation/src/instructions/capability.rs:252-253 | a fully slashed record keeps its index slot for ever |
| `LedgerLiveness.NetIsExact` | programs/taop_reputation/src/state.rs:167 | the saturating subtraction of the score never saturates; sequence numbers are exactly 0..completions |
| `LedgerHistory.ChallengeRecords` | programs/taop_reputation/src/instructions/reputation.rs:134-142 | an accepted challenge records its challenger, the bond configured then and the time of the clock, unresolved |
| `LedgerHistory.CancelAfterChallenge` | programs/taop_reputation/src/instructions/reputation.rs:134-338 | in every future of an accepted challenge, cancellation is accepted if and only if nothing closed it meanwhile, the challenger of then signs, and ninety days have passed since it was made; it pays at least the bond configured when it was made |
| `LedgerHistory.BondIsNeverStuck` | programs/taop_reputation/src/instructions/reputation.rs:304-338 | in every reachable ledger with a pending challenge, letting the ninety days pass is enough for the challenger to get the bond back |
| `LedgerHistory.SlashTakesPenalty` | programs/taop_reputation/src/instructions/capability.rs:176-213 | an accepted slash takes exactly the penalty from the recorded bond, marks the record, and changes no other |
| `LedgerHistory.PartialSlashLeavesTheRest` | programs/taop_reputation/src/instructions/capability.rs:183-213 | after a partial slash the creator can withdraw, and gets at least the rest of the bond |
| `LedgerHistory.CapabilityIsHistory` | programs/taop_reputation/src/instructions/capability.rs:38-291 | from genesis over every run: a capability is live exactly when its registration, at most one, was accepted and its withdrawal not; its bond is the posted bond less the sum of the accepted penalties; it is certified, or slashed, exactly when that was accepted; ids count the registrations |
| `LedgerHistory.AgentIsHistory` | programs/taop_reputation/src/instructions/reputation.rs:49-78 | from genesis over every run: completions count the accepted attestations, disputes the challenges upheld against the agent, and the last activity is the time of the last accepted attestation; a record exists exactly after a joining or an attestation |
| `LedgerHistory.CompletionStays` | programs/taop_reputation/src/instructions/reputation.rs:65-152 | a completion keeps id, agent, task type and time for ever, and its flags say exactly whether it was challenged and whether that was upheld |
| `LedgerHistory.CompletionIsHistory` | programs/taop_reputation/src/instructions/reputation.rs:40-88 | the n-th accepted attestation of the ledger is on record for ever under id n, dated by the clock when it was made |
| `LedgerRules.AttestEnabled` | programs/taop_reputation/src/instructions/reputation.rs:40-76 | in a reachable ledger an attestation is accepted if and only if the program is not paused, the URI is short, the number is the next of the agent, and the ledger has ids left |
| `LedgerRules.ChallengeEnabled` | programs/taop_reputation/src/instructions/reputation.rs:115-132 | accepted if and only if not paused, the URI is short, the completion is on record without any challenge, and the bond can be paid |
| `LedgerRules.RegisterEnabled` | programs/taop_reputation/src/instructions/capability.rs:38-94 | accepted if and only if not paused, the URI is short, the bond is positive, pays the rent and can be paid, the id is the next one, and fewer than 64 records of the type are live |
| `LedgerRules.CertifyEnabled` | programs/taop_reputation/src/instructions/capability.rs:117-126 | accepted if and only if the capability is live and an authority signs |
| `LedgerRules.InitializeEnabled` | programs/taop_reputation/src/instructions/config.rs:41-77 | accepted if and only if nothing is configured yet, the upgrade authority signs and can pay the rent minimum, and the settings are sound; the settings are then those given |
| `LedgerRules.ConfigureEnabled` | programs/taop_reputation/src/instructions/config.rs:107-243 | later the admin alone changes settings, within their bounds, and proposes a successor, and only the proposed key accepts |
| `LedgerRules.PauseStopsExactly` | programs/taop_reputation/src/instructions/reputation.rs:46-116 | pausing stops attestations, challenges and registrations; every other instruction has the same error, or the same effect on lamports and records |
| `LedgerRules.LastWriteHolds` | programs/taop_reputation/src/instructions/config.rs:107-168 | a setting has the value last written to it by an accepted instruction, whatever else happens meanwhile |
| `LedgerRules.OnlyTheProposedTakesOver` | programs/taop_reputation/src/instructions/config.rs:196-243 | after a proposal, until another one or an acceptance, the old admin stays in office and exactly the proposed key can take over |
| `LedgerRules.HandoverIsFinal` | programs/taop_reputation/src/instructions/config.rs:233-243 | after an acceptance the new admin is in office and nobody can take over without another proposal |
| `Discovery.GetMultipleAccountsChunked` | packages/solana/src/client.ts:184-193 | reading in chunks of 100 gives each key its decoded record, in order |
| `Discovery.FetchAgents` | packages/solana/src/client.ts:154-181 | exactly the existing agents among the requested authorities |
| `Discovery.Discover` | packages/solana/src/client.ts:310-379 | the two-pass loop computes the sorted offers of the keys it uses, index or scan |
| `Discovery.SortBestFirst` | packages/solana/src/client.ts:377-378 | the result is in falling score order, a permutation, and keeps items of equal score in their order |
| `Discovery.IndexEqualsScan` | packages/solana/src/client.ts:310-398 | in every reachable ledger index path and scan path return the same multiset, best score first: exactly one item, with the data of its own record and of the record of its creator, for each live, unslashed capability of the type, certified unless waived, whose score reaches the minimum; accidental completion matches never show |
| `Discovery.RecordIsOfferedOnce` | packages/solana/src/client.ts:329-379 | seen from a record: one item if it is live, unslashed, of the type, certified unless waived, and the score of its creator reaches the minimum, and else none |
| `Score.ScoreIsQuotient` | programs/taop_reputation/src/state.rs:160-180 | for every input, when the score decays, and that it is the net divided by two to the truncated, capped number of halvings, rounded down |
| `Score.OnChainShift` | programs/taop_reputation/src/state.rs:167-179 | while the 32-bit cast is exact, the score is the net shifted by the halvings due |
| `Score.SdkRefinesOnChain` | packages/solana/src/pda.ts:42-81 | SDK and chain always agree on `decayed`, and on the score if and only if the cast is exact or harmless |
| `Score.CastRestoresScore` | programs/taop_reputation/src/state.rs:175-177 | 2^32 periods after the last activity the chain shows the full net again, the SDK zero |
| `Score.ScoreFallsOverTime` | programs/taop_reputation/src/state.rs:172-179 | the score never rises with time while the cast is exact |
| `Score.ScoreRisesWithRecord` | programs/taop_reputation/src/state.rs:167-179 | more completions or fewer disputes never lower the score, for any quotient |
| `Score.ScoreRisesWithPeriod` | programs/taop_reputation/src/state.rs:172-179 | a longer decay period never lowers the score |
| `Score.WaitingShifts` | programs/taop_reputation/src/state.rs:175-179 | past the grace period, j more periods shift the score by j |
| `Score.InactivityReachesZero` | programs/taop_reputation/src/state.rs:176-179 | inactivity reaches zero if and only if the net is below 2^63 |
| `WebScore.WebAgreesWithSdk` | apps/web/src/lib/format.ts:127-171 | website and SDK agree if and only if the period is positive or no decay is due; net, elapsed time and period it shows are those the score rests on |
| `WebScore.NextHalvingIsDue` | apps/web/src/lib/format.ts:127-171 | for every input and every wait: another halving comes only for a positive net with recorded activity and fewer than 63 halvings, in the first period after `nextHalvingInSecs` plus whatever the activity lies in the future, later one second before it |
| `WebScore.AnnouncedHalvingIsExact` | apps/web/src/lib/format.ts:149-160 | the announced wait is the true one if and only if net and activity are positive, the activity is not in the future, and no halving is due yet |
| `WebScore.FutureActivityMissesHalving` | apps/web/src/lib/format.ts:142-160 | an input in its first period for which no halving follows the announced wait |
| `WebScore.DecaySeries` | apps/web/src/lib/format.ts:66-94 | for every number of points and every horizon: the projection starts at the base and at the last activity or now, ends at its horizon, never rises, every point is the halved base at its offset, and a single point is not a number |
| `WebScore.OffsetsAreEven` | apps/web/src/lib/format.ts:82-83 | the points are evenly spaced, the last one at the horizon |
| `WebScore.RoundIsNearest` | apps/web/src/lib/format.ts:89 | offsets are rounded to the nearest second, halves up |
| `WebScore.ChartEndsWithSdk` | apps/web/src/lib/format.ts:80-93 | over a whole number of periods the projection ends with the score of the SDK at that time |
| `WebScore.SeriesFollowsSdk` | apps/web/src/lib/format.ts:85-91 | at whole seconds the projection is the score of the SDK |
| `Seeds.U64BytesInjective` | packages/solana/src/pda.ts:96-100 | the little-endian encoding of a u64 is injective |
| `Seeds.SeedsInjective` | packages/solana/src/pda.ts:102-131 | over all arguments the seed bytes determine family and arguments |
| `Seeds.NamesSeparate` | packages/solana/src/pda.ts:102-131 | without a hash collision among the seeds involved, nested addresses are equal exactly for equal names |
| `Mechanisms.MechanismState.Attest` | benchmark/src/mechanisms.ts:119-161 | the mutable book after an attestation, costs included |
| `Mechanisms.MechanismState.Rate` | benchmark/src/mechanisms.ts:163-168 | the mutable book after a rating, under single and two-sided receipts |
| `Mechanisms.MechanismState.FindCompletion` | benchmark/src/mechanisms.ts:175-176 | the loop finds the first completion with the id |
| `Mechanisms.MechanismState.Challenge` | benchmark/src/mechanisms.ts:170-184 | the mutable book after a challenge: nothing if missing or challenged |
| `Mechanisms.MechanismState.Resolve` | benchmark/src/mechanisms.ts:186-212 | the mutable book after a resolution: nothing if unchallenged or resolved |
| `Mechanisms.MechanismState.SlashCapability` | benchmark/src/mechanisms.ts:214-220 | the mutable book after a slash, capped by what is locked |
| `Mechanisms.MechanismState.LockCapital` | benchmark/src/mechanisms.ts:349-359 | the mutable book after locking capital |
| `Mechanisms.MechanismState.Ensure` | benchmark/src/mechanisms.ts:110-117 | asking for an agent adds an empty record if there is none |
| `Mechanisms.MechanismState.ScoreAgent` | benchmark/src/mechanisms.ts:244-431 | the six score rules, and that asking only adds a missing record |
| `BenchmarkAccounts.ClampNeverFires` | benchmark/src/mechanisms.ts:198-206 | a resolution that takes effect finds the bond locked, so the clamp at zero changes nothing |
| `BenchmarkAccounts.ResolveAgrees` | benchmark/src/mechanisms.ts:186-212 | a resolution keeps counters, locked and slashed lamports equal to what the list of completions says |
| `BenchmarkAccounts.TraceAccounts` | benchmark/src/mechanisms.ts:119-212 | after any trace: completions and disputes count the records, locked = bond x pending, slashed = bond x rejected, for every agent |
| `BenchmarkSpending.SpendingIsAccounted` | benchmark/src/mechanisms.ts:119-220 | after any operations, slashes and locks included: spent = fees and rents + slashed + bond x pending, so an upheld challenge returns its bond in full, and only the rater pays for a rating |
| `MechanismScores.FadingIsHalving` | benchmark/src/mechanisms.ts:244-431 | TAOP and two-sided scores are the score at the last activity halved once per period due since; the other four do not depend on the time |
| `MechanismScores.TargetTakes` | benchmark/src/mechanisms.ts:244-431 | for each mechanism the exact conditions on completions, disputes, raters, confirmations and stake under which a score reaches a target |
| `MechanismScores.CounterpartiesAreEnough` | benchmark/src/mechanisms.ts:310-404 | the counterparties a mechanism asks for are exactly enough for the target |
| `MechanismScores.SlashMovesStake` | benchmark/src/mechanisms.ts:214-220 | a slash moves all locked lamports under stake gating, whose score is then zero, and else at most the capability bond; locked and slashed together stay the same |
| `Receipts.TraceAgrees` | benchmark/src/mechanisms.ts:407-418 | under two-sided receipts: distinct raters <= confirmed <= completions, after any trace |
| `Receipts.ScoreNeedsConfirmers` | benchmark/src/mechanisms.ts:402-431 | a score s >= 1 needs at least `counterpartiesRequiredForScore(s)` distinct confirmers |
| `Simulation.AttestMirrors` | benchmark/src/mechanisms.ts:152-161 | an attestation of the benchmark is matched by the program, which accepts it |
| `Simulation.StartMirrors` | benchmark/src/mechanisms.ts:236-238 | a freshly configured ledger matches the empty book |
| `Simulation.ChallengeMirrors` | benchmark/src/mechanisms.ts:170-184 | program and benchmark stay matched over a challenge, and accept under exactly the same condition, if whoever opens one can pay the bond |
| `Simulation.ResolveMirrors` | benchmark/src/mechanisms.ts:186-212 | program and benchmark stay matched over a resolution, and accept under exactly the same condition |
| `Simulation.OpMirrorsExactly` | benchmark/src/mechanisms.ts:119-212 | one operation keeps program and benchmark matched if and only if time does not go back, ids are not used up and a bond that becomes due can be paid |
| `Simulation.PlayMirrors` | benchmark/src/mechanisms.ts:119-212 | matched states stay matched over any trace the program can follow |
| `Simulation.BenchmarkSimulatesProgram` | benchmark/src/mechanisms.ts:230-254 | from a freshly configured ledger any trace leaves the same counters, flags, challengers and bonds on both sides |
| `Simulation.ScoresAgree` | benchmark/src/mechanisms.ts:244-254 | in matched states the scores agree if and only if the 32-bit cast is exact or harmless |
| `SlowBurn.RoundRobinHits` | benchmark/src/scenarios/slowBurn.ts:90-96 | t consecutive round-robin indices hit exactly min(t, n) distinct accomplices |
| `SlowBurn.AccumulatedScore` | benchmark/src/scenarios/slowBurn.ts:86-104 | the score after t attestations, for all six mechanisms, reaches the target exactly when t does |
| `SlowBurn.SlashedScore` | benchmark/src/scenarios/slowBurn.ts:106-121 | after the slash and the retroactive disputes only the naive count keeps a score |
| `SlowBurn.AccumulateDay` | benchmark/src/scenarios/slowBurn.ts:87-94 | one day adds `attestsPerDay` attestations and their round-robin receipts |
| `SlowBurn.TotalSpent` | benchmark/src/scenarios/slowBurn.ts:104-109 | adds up what the attacker and all accomplices spent |
| `SlowBurn.FirstDayIsFirst` | benchmark/src/scenarios/slowBurn.ts:86-104 | day d meets the target if and only if d >= ceil(target / attestsPerDay) |
| `SlowBurn.RunSlowBurnHarvest` | benchmark/src/scenarios/slowBurn.ts:47-130 | closed form of the whole scenario: day of the harvest or none, attestations, score, lamports spent, slashable amount and its share of the harvest, net profit, and a score of zero afterwards for all but the naive count |
| `RatingGraph.BuildGraph` | benchmark/src/scenarios/collusion.ts:69-97 | the loops build exactly the graph of the edge list: targets, neighbours, mutual counts, each node once |
| `RatingGraph.CountReciprocal` | benchmark/src/scenarios/collusion.ts:87-95 | the inner loop counts exactly the mutual neighbours |
| `RatingGraph.DetectByReciprocity` | benchmark/src/scenarios/collusion.ts:99-109 | flags exactly the nodes whose share of returned ratings reaches the threshold |
| `RatingGraph.DetectByMutualDegree` | benchmark/src/scenarios/collusion.ts:111-117 | flags exactly the nodes with enough mutual partners |
| `KCore.BuiltGraphsAreSymmetric` | benchmark/src/scenarios/collusion.ts:75-86 | every built graph is symmetric |
| `KCore.CoreIsUnique` | benchmark/src/scenarios/collusion.ts:125-170 | the k-core is unique, so the result cannot depend on node order |
| `KCore.CoresAreNested` | benchmark/src/scenarios/collusion.ts:135-164 | denser cores lie inside less dense ones |
| `KCore.Detach` | benchmark/src/scenarios/collusion.ts:148-155 | removing a node lowers exactly the degrees of its remaining neighbours |
| `KCore.Sweep` | benchmark/src/scenarios/collusion.ts:144-157 | one sweep removes only nodes outside every dense set, keeps the degrees, and without a change leaves none of too low degree |
| `KCore.RaiseSurvivors` | benchmark/src/scenarios/collusion.ts:160-162 | survivors of the k-th peeling get core number k |
| `KCore.Peel` | benchmark/src/scenarios/collusion.ts:136-159 | the `while (changed)` peeling terminates, and what is left is the largest set in which every member has k neighbours inside |
| `KCore.CoreNumbers` | benchmark/src/scenarios/collusion.ts:133-165 | the last number written is the largest k whose core holds the node |
| `KCore.DetectByKCore` | benchmark/src/scenarios/collusion.ts:125-170 | flags exactly the k-core, for every threshold and node order |
| `RingDetection.Evaluate` | benchmark/src/scenarios/collusion.ts:172-196 | hits, misses, and the shares of hits among the flagged (precision), among the planted (recall) and in both together (F1); when they are one or zero |
| `RingDetection.CountPlanted` | benchmark/src/scenarios/collusion.ts:177-178 | the loop counts the planted nodes among the flagged |
| `RingDetection.FlagsOfPlanted` | benchmark/src/scenarios/collusion.ts:288-295 | reciprocity flags the whole ring for a threshold of at most one and else none of it, mutual degree the whole ring with enough partners and else none of it |
| `RingDetection.RingCore` | benchmark/src/scenarios/collusion.ts:125-170 | the k-core of honest graph and ring together is the core of the honest graph, with the whole ring exactly when k <= size - 1 |
| `RingDetection.CoreOfPlanted` | benchmark/src/scenarios/collusion.ts:290-296 | the same for the graph the scenario builds |
| `RingDetection.CoreHasRing` | benchmark/src/scenarios/collusion.ts:125-170 | the k-core flags hold the whole ring when k <= size - 1 and else none of it |
| `RingDetection.RunDetectors` | benchmark/src/scenarios/collusion.ts:288-307 | for every node: reciprocity flags it exactly when the given share of those it rates at least rate it back, mutual degree exactly when at least 3 and at least floor((size-1)/2) partners are mutual, and the k-core flags are the largest set with k partners inside, all in terms of the ratings; the four verdicts are those of these sets and of their union; recall is one if one of three exact conditions holds, and else zero |
| `RingScenario.RateRing` | benchmark/src/scenarios/collusion.ts:243-251 | the triple loop plays exactly the ratings of the ring in their order, r in a row for every ordered pair, and records them where the mechanism does |
| `RatingOrder.RingCount` | benchmark/src/scenarios/collusion.ts:243-251 | every ordered pair of different members is rated exactly r times |
| `RatingOrder.DrawnRatingsHold` | benchmark/src/scenarios/collusion.ts:255-262 | the honest ratings are exactly the draws |
| `RatingOrder.DrawnCount` | benchmark/src/scenarios/collusion.ts:255-262 | every honest agent rates another exactly as often as it drew it |
| `RingScenario.AttestAll` | benchmark/src/scenarios/collusion.ts:232-241 | under receipts members attest M-1 times each and honest agents once, in this order |
| `RingScenario.StartRecords` | benchmark/src/scenarios/collusion.ts:232-241 | before the ratings every member has M-1 completions, every honest agent one, and nobody anything else |
| `RingScenario.RateHonest` | benchmark/src/scenarios/collusion.ts:253-262 | the loop plays exactly the draws of every honest agent, in order, and records them where the mechanism does |
| `RingScenario.HonestProgress` | benchmark/src/scenarios/collusion.ts:253-262 | honest ratings, whatever the draws, change no ring member |
| `RingScenario.MemberScore` | benchmark/src/scenarios/collusion.ts:264 | each member ends with min(M-1, 5*ceil((M-1)/r)) under two-sided receipts, M-1 under peer ratings, 0 otherwise |
| `RingScenario.MembersScoreAlike` | benchmark/src/scenarios/collusion.ts:228-264 | for any draws all members end with the same score, in the book of all ratings played |
| `RingScenario.RunCollusiveRing` | benchmark/src/scenarios/collusion.ts:208-307 | the whole scenario: the final book is that of the ratings played, the score of each member, the flags of the three detectors and the four verdicts as told by the ratings of the ring and the draws, and recall one or zero of the ensemble |
| `RingScenario.Inspect` | benchmark/src/scenarios/collusion.ts:288-307 | the detection stage on the ratings of ring and honest agents: flags, verdicts, and the k-core against the honest graph alone |
| `Dispatcher.DeliverWebhook` | packages/webhooks/src/dispatcher.ts:126-167 | succeeds exactly when one of the first `maxAttempts` responses is ok, after the first such one |
| `Dispatcher.DeliverEvents` | packages/webhooks/src/dispatcher.ts:256-276 | each event ends delivered or dead-lettered, counted once |
| `Dispatcher.Collect` | packages/webhooks/src/dispatcher.ts:197-217 | paging backwards over a log that grows meanwhile yields an unbroken newest stretch of the log as it stood at the first page |
| `Dispatcher.UnseenIsTail` | packages/webhooks/src/dispatcher.ts:225-234 | cutting at the cursor and reversing leaves the log from the cursor, or from 200 pages back, to the head |
| `Dispatcher.Poller.LoadState` | packages/webhooks/src/dispatcher.ts:104-112 | the cursor is the saved one, or none if the file cannot be read |
| `Dispatcher.Poller.PollOnce` | packages/webhooks/src/dispatcher.ts:184-284 | one pass over a log that may grow, with failing calls, does exactly what `Deliver` says of that stretch |
| `Dispatcher.Poller.HandOver` | packages/webhooks/src/dispatcher.ts:239-281 | the delivery loop: order, cursor, state file and counts, whatever stops it |
| `DispatcherRuns.DeliveryAtOnce` | packages/webhooks/src/dispatcher.ts:239-284 | a delivery in closed form: what it attempts, where both cursors end up, and whether it finished, failed or died |
| `DispatcherRuns.CursorPassesNothing` | packages/webhooks/src/dispatcher.ts:278-280 | nothing at or before a cursor was left out |
| `DispatcherRuns.PassSkipsNothing` | packages/webhooks/src/dispatcher.ts:184-284 | a pass keeps gap-freedom if and only if it attempts nothing or the unhanded backlog is at most 200 pages |
| `DispatcherRuns.RunSkipsNothing` | packages/webhooks/src/dispatcher.ts:287-316 | over every run of polls, failures, crashes, restarts and lost state: gap-free if and only if every attempting poll found its backlog within 200 pages |
| `DispatcherRuns.CursorsStayBehind` | packages/webhooks/src/dispatcher.ts:278-280 | in a run that keeps up neither cursor passes a transaction that was not attempted |
| `DispatcherRuns.CursorBoundsBacklog` | packages/webhooks/src/dispatcher.ts:197-217 | keeping the cursor within 200 pages of the head is enough to keep up |
| `DispatcherRuns.SecondPassIsIdle` | packages/webhooks/src/dispatcher.ts:184-284 | after a pass over available transactions a second pass over the same log attempts nothing |
| `DispatcherRuns.RunCatchesUp` | packages/webhooks/src/dispatcher.ts:184-284 | when the backlog fits and everything is available, one pass leaves nothing unhanded |
| `DispatcherRuns.LongHistoryIsSkipped` | packages/webhooks/src/dispatcher.ts:198-223 | a first start on a history above 200 pages skips its beginning for good |
| `DispatcherRuns.CleanRunsDeliverOnce` | packages/webhooks/src/dispatcher.ts:278-280 | without crash, failed write or lost state every transaction is handed over once and in order, and the state file agrees with the process |
| `DispatcherRuns.LosslessRunsDeliverOnce` | packages/webhooks/src/dispatcher.ts:278-280 | the same whenever no cursor is lost, even if every write of the state file fails, because the process keeps the cursor in memory |
| `DispatcherRuns.RestartTakesUp` | packages/webhooks/src/dispatcher.ts:104-112 | after a restart the next pass takes up behind the saved transaction, and without a readable file hands over everything within 200 pages again |
| `DispatcherRuns.RunDispatcher` | packages/webhooks/src/dispatcher.ts:287-316 | one life of the process plays exactly such a run |
| `EventLog.DecodeEvents` | packages/solana/src/events.ts:24-62 | the loop with its stack computes the scan of the marks of the lines, whose meaning the rows below fix without naming it |
| `EventLog.MentionIsAtTheEnd` | packages/solana/src/events.ts:30 | a line counts as an invocation marker if and only if it is some text followed by ` invoke [`, digits and `]` |
| `EventLog.MarkedLogs` | packages/solana/src/events.ts:30 | a log is filtered by program if and only if one of its lines ends in such a marker |
| `EventLog.OpensReads` | packages/solana/src/events.ts:35-39 | a line opens a frame of a program if and only if it is `Program `, the program without spaces, ` invoke [`, digits and `]` |
| `EventLog.ClosesReads` | packages/solana/src/events.ts:40-43 | a line closes a frame if and only if it is `Program `, a program and ` success`, or ` failed:` and a rest without line terminators |
| `EventLog.CarriesReads` | packages/solana/src/events.ts:45-46 | any other line carries the longest text without spaces after the first `Program data: ` that one follows, and is passed over if there is none |
| `EventLog.InvokeLineReads` | packages/solana/src/events.ts:35-39 | a printed invocation line is read back with its program |
| `EventLog.EndLineReads` | packages/solana/src/events.ts:40-43 | a printed success or failure line is read back as the end of a frame |
| `EventLog.DataLineReadsBack` | packages/solana/src/events.ts:40-46 | a payload alone on its line is read back if and only if it does not spell the end of a frame |
| `EventLog.DataLineReads` | packages/solana/src/events.ts:45-46 | a data line with a proper payload, whatever follows it, is read back with the payload |
| `EventLog.RenderReads` | packages/solana/src/events.ts:34-46 | a printed trace is read back as its shape |
| `EventLog.Base64IsProper` | packages/solana/src/events.ts:45 | base64 in whole groups of four never does |
| `EventLog.ScanShape` | packages/solana/src/events.ts:34-60 | scanning a frame yields its events and restores the stack |
| `EventLog.DecodingInvertsRendering` | packages/solana/src/events.ts:24-62 | exactly the decodable payloads logged in frames of the own program, in order, whatever other programs print outside those frames, short of an invocation of the own program |
| `EventLog.CalledLogsDecode` | packages/solana/src/events.ts:24-62 | the same for every such log that prints at least one call |
| `EventLog.LineInOwnFrame` | packages/solana/src/events.ts:34-48 | a line before an event in its own frame leaves the event alone if and only if it is passed over, carries nothing decodable, or reads as an invocation of the own program |
| `EventLog.LineInCalledFrame` | packages/solana/src/events.ts:34-48 | a line in a frame called from the own program keeps the data after it out if and only if it reads neither as an end nor as an invocation of the own program |
| `EventLog.UnmarkedLogYieldsEverything` | packages/solana/src/events.ts:30-47 | a log in which no line ends in an invocation marker yields every decodable payload |
| `EventLog.BareDataDecodes` | packages/solana/src/events.ts:30-58 | for any base64 payloads printed as data lines alone, all decodable ones, in order |
| `EventLog.TruncationKeepsPrefix` | packages/solana/src/events.ts:24-62 | a log cut short loses events at its end only |
| `EventLog.LogLineIsPlain` | packages/solana/src/events.ts:35-46 | a logged message is passed over if and only if it spells neither marker nor data line |
| `EventLog.LoggedSuccessHidesEvent` | packages/solana/src/events.ts:40-43 | the logged message "success" ends the frame of its program and hides the next event |
| `EventLog.LoggedSuccessMisattributesEvent` | packages/solana/src/events.ts:40-50 | logged in a frame called from the own program, it attributes the next data of the called program to the own one |

## Left out

Weaker than, or with more assumptions than, the code:

- LedgerProgram.Program.JoinAgent: the metadata URI, which the handler also stores, is not in the record; the same goes for the URIs of completions, challenges and capabilities, of which only the length is checked.
- LedgerMoney.MoneyEquation: lamports are counted at wallets and at the two families of vaults; rent deposits of records, refunds on closing them, and fees are not part of this model.
- LedgerMoney.WalletEquation: the treasury is a wallet by its type, so a treasury set to one of the program's own vaults is not modelled.
- Discovery.IndexEqualsScan: `getProgramAccounts` is any list without repetition of the records that match the filter; an index that cannot be read is modelled as absent, as the code treats it.
- Simulation.BenchmarkSimulatesProgram: a whole trace stays matched if every operation meets the condition of `Simulation.OpMirrorsExactly`; a trace that violates it once may match again later, and is not characterized. The benchmark's costs have no counterpart in the program.
- Seeds.NamesSeparate: derived addresses are an arbitrary function of the seed bytes, and absence of collisions among the seeds involved is an assumption; bump search and hashing are not modelled.
- WebScore.DecaySeries: period, times and number of points are whole numbers; the horizon is a real, and rounding of real quotients is not modelled.
- RingScenario.RunCollusiveRing: ring size from 2 to 1000, because honest ids start at 1000 and would overlap a larger ring, and at least one rating per pair; the honest targets are a parameter, so the resampling loop and its termination are not modelled. The cost ratios and the findings text are left out.
- RingDetection.Evaluate: shares are reals, without rounding.
- SlowBurn.RunSlowBurnHarvest: lamports are exact integers and the coverage a real, without rounding; the findings text is left out.
- Dispatcher.Poller.PollOnce: the log is an oracle that only appends and never repeats or forgets a signature; a delivery is a list of outcomes; failures of JSON encoding are not modelled.
- EventLog.DecodingInvertsRendering: inside the frames of the own program, lines other than markers and data must be lines that the decoder passes over; `EventLog.LogLineIsPlain` says exactly which log messages are.

Not modelled:

- Reading and writing account bytes, account discriminators, bump seeds, and emitted events. Signer and `address =` constraints are checks in the steps; the kind of a record is the map it is in.
- Runtime rent checks, transaction fees and compute limits; the rent minimum is one constant.
- RPC, HTTP, files, signals, sleeps and signatures: their answers are parameters.
- The parser of raw upgradeable-loader data, and the Borsh codecs of records and events.
- The Sybil scenario, report rendering, resistance scores, the pseudo-random stream, the website, the MCP server, the example agent and the scripts.
