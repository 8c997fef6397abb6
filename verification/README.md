# Oragami vaults: a verified model

A Dafny model of the Oragami vault system, with proofs about every run of it.

- **The yield vault** (`oragami-vault`) takes USDC at a NAV price, mints cVAULT, converts cVAULT one to
  one into cVAULT-TRADE, accrues yield, and checks its reserves. `OragamiSpec` is the state machine,
  `OragamiProgram` the program: a class whose handlers update the accounts step by step inside a
  runtime that undoes a failed transaction.
- **The custody factory** (`multi-asset-vault`) keeps one NAV-priced vault per asset: `CustodySpec` and
  `CustodyProgram`.
- **The NAV crank** computes a NAV from fetched prices and sends it to the yield vault: `PriceWalk` (the
  price search in a JSON response), `NavCrank` (the controller), `NavCrankService` (the service object,
  calling the program's class), `CrankOnChain` (the two together).
- **The line framer** of the research stream: `LineFramer`.
- **The two preflight services**, which predict whether a deposit will be accepted: `Preflight.dfy`.

Who may run the two programs, what each administrative instruction writes, and what stays of it over whole
runs is in `OragamiOversight` and `CustodyOversight`; what each error code means is in `Refusals.dfy`. These
are stated on the programs' own fields and in numbers, apart from the state machines they are about.

Both programs refine one small machine, `NavBook`: a book of tokens held, deposits recorded, shares
recorded and price. Its laws (value conservation, cover) are proved once and carried to both programs
by `OragamiRefinement` and `CustodyRefinement`, which also carry the invariants. Travel-rule records
work the same way over `TravelRuleLog`. Each handler's method is proved equal, in result and new state,
to its specification function; the theorems are about runs of those functions, in an open world where
anyone may open accounts, move and burn their own tokens, send tokens to a vault, and time passes.

## Findings

Properties that one might expect and that the code does not have; each has its exact condition.

- `set_nav` adds half the price without a check, and the release profile keeps overflow checks on: above
  12297829382473034410 the program refuses every update, so such a price can never change again
  (`NavGuard.StuckExactly`). Clamping greedily towards a target can walk into that range
  (`NavGuard.GreedyClampCanStick`); it arrives exactly at the targets within one full step of the start's
  crest (`NavGuard.GreedyArrivesExactly`), so always at movable targets. Stopping at the limit reaches
  every target.
- The two NAV guards are not the same function: the factory's multiplication overflows earlier
  (`NavGuard.GuardsAgree`).
- `distribute_yield`, when yield is pending, and `sync_yield`, always, move the day counter to now. What
  that costs at the next processing is exactly the daily yield times the difference between the full days
  since the old and the new counter (`OragamiCounter.MoveForfeitsExactly`), which can be a day even if no
  full day was unprocessed (`OragamiCounter.DistributionForfeitsADay`). Over whole runs nothing is lost if
  and only if skipped and unprocessed seconds stay below a day (`OragamiCounter.RunForfeitsExactly`).
- No instruction moves USDC out to the strategy, so an active liquidity band rejects as soon as anything
  is both deposited and allocated, and always once the deposits times 10000 leave 64 bits
  (`OragamiYield.BandCheckExactly`).
- The factory reads credentials of the yield vault program only; the credentials its own instructions
  issue admit nobody (`CredentialLifecycle.FactoryCredentialsAdmitNobody`).
- The crank does not step towards a target more than 1000 bps away; it waits until the target comes back.
  It lands exactly what its guards let it send and the network delivers (`NavCrank.LandsExactly`); after a
  jump of gold from 100 to 130 that is nothing, for as long as it stays there (`NavCrank.JumpNeverFollowed`,
  `NavCrank.GoldAtHundredThirty`).
- The crank's client and its interface file pass two accounts to `set_nav` (`nav-crank.service.ts:156-160`,
  `oragami_vault.idl.json:984`), while the program asks for the registry and the operator as well
  (`lib.rs:1215-1229`). An update is accepted if and only if the list supplies those accounts and the vault
  takes prices from the crank's signer (`CrankOnChain.SentIsTaken`); with the client's list the price never
  leaves par (`CrankOnChain.ClientNeverReprices`).
- The stream's last line is dropped if the stream does not end in a newline (`LineFramer.LeftoverIsLost`).
- Both preflights promise deposits that mint no share or whose arithmetic leaves 64 bits; the chain refuses
  them (`CustodyPreflight.DustPromise`, `OragamiPreflight.DustPromise`). To a client who brings record and
  tokens, the factory's preflight makes no other false promise (`CustodyPreflight.FalsePromiseExactly`). The
  yield vault's also ignores expiry and limits, and trusts the database for a wallet whose credential it did
  not read, whether missing or behind a failed read (`OragamiPreflight.FalsePromiseExactly`,
  `OragamiPreflight.IneligiblePromiseExactly`).
- Once the price has risen, the holders' claims may exceed what a vault holds. All of them can be paid if and
  only if the payouts of all accounts together are within it, and within the recorded deposits as soon as
  trade tokens are worth anything (`OragamiSolvency.SolventExactly`, `CustodySolvency.SolventExactly`).
- `update_config` is documented as leaving the mandate's ceiling to policy off chain; the code enforces it
  whenever the caller supplies the mandate account, and not otherwise, and a new mandate is not compared
  with the allocation in force. So the ceiling can be exceeded (`OragamiCeiling.CeilingCanBeExceeded`); it
  holds if and only if the last change of terms respected it (`OragamiCeiling.CeilingHeldExactly`). The
  liquidity band itself depends on buffer and allocation alone (`OragamiYield.BandNonEmptyExactly`).

## Assumptions

- The SPL token program is the ledger of `TokenLedger`: per mint, accounts with owner and balance, and a
  supply. Program-derived addresses are injective in their seeds, differ from ordinary keys, and sign
  only for their program. Account problems inside a token call surface as one error, so which of several
  simultaneous account failures is reported may differ. Delegates, freezing, closing of accounts and token
  accounts of other mints are not part of the ledger, so "holds" always means "owns the account".
- The USDC, cVAULT and cVAULT-TRADE mints are distinct; the trade mint starts without supply, with the
  vault's address as its mint authority. The chain clock is non-negative and does not run backwards.
- A failing transaction leaves every account as it was (`Transact` implements this by restoring them).
- In the crank, a fetch is an arbitrary result or a failure, a transaction either goes through at once or
  not at all, rounds do not overlap, and the wall clock does not run backwards. Prices are reals.
- Travel-rule records need no vault or factory, so unconsumed ones may exist before either starts.

## Model

| member | source | states |
|---|---|---|
| `NavBook.Conservation` | oragami-vault/programs/oragami-vault/src/lib.rs:340-386 | over every run of the abstract book (deposit, redemption, price change, gift): 10000·held + gain = supply·nav + dust + 10000·gifts, exactly |
| `NavBook.RecordedCover` | oragami-vault/programs/multi-asset-vault/src/instructions/redeem.rs:53-64 | the recorded deposits cover the share value up to price gains, although redemption subtracts with saturation |
| `NavBook.CustodyCoversRecord` | oragami-vault/programs/multi-asset-vault/src/instructions/redeem.rs:53-64 | tokens held never fall below recorded deposits; without gifts the two stay equal |
| `NavBook.NeverRaisedStaysCovered` | oragami-vault/programs/oragami-vault/src/lib.rs:209-222 | if no update raises the price, a covered book stays covered over every run |
| `NavBook.CoveredRedemption` | oragami-vault/programs/multi-asset-vault/src/instructions/redeem.rs:13-64 | in a covered book any redemption of outstanding shares is payable without saturation and leaves it covered |
| `Conversions.DepositLossExactly` | oragami-vault/programs/multi-asset-vault/src/instructions/deposit.rs:54-60 | converting an amount to shares and back at one price loses exactly ceil((amount·10000 mod nav)/10000), for every amount and price |
| `Conversions.RedemptionLossExactly` | oragami-vault/programs/multi-asset-vault/src/instructions/redeem.rs:13-17 | converting shares to tokens and back loses exactly ceil((shares·nav mod 10000)/nav), for every number of shares and price |
| `Conversions.DepositThenRedeem` | oragami-vault/programs/oragami-vault/src/lib.rs:354-361 | so a deposit redeemed at once never gains and loses at most ceil((nav-1)/10000); at some prices the worst loss is smaller |
| `Conversions.RedeemThenDeposit` | oragami-vault/programs/oragami-vault/src/lib.rs:452-459 | and a redemption deposited at once never gains shares and loses at most ceil(9999/nav); likewise |
| `Conversions.WorstDepositLoss` | oragami-vault/programs/oragami-vault/src/lib.rs:354-361 | the largest loss at each price is ceil((nav - gcd(nav, 10000))/10000): no amount loses more, and one loses that much |
| `Conversions.WorstRedemptionLoss` | oragami-vault/programs/oragami-vault/src/lib.rs:452-459 | the largest loss at each price is ceil((10000 - gcd(10000, nav))/nav): no number of shares loses more, and one loses that much |
| `Conversions.DepositBoundAttainedExactly` | oragami-vault/programs/oragami-vault/src/lib.rs:354-361 | some amount loses ceil((nav-1)/10000) if and only if that equals the worst loss at this price |
| `Conversions.RedemptionBoundAttainedExactly` | oragami-vault/programs/oragami-vault/src/lib.rs:452-459 | some number of shares loses ceil(9999/nav) if and only if that equals the worst loss at this price |
| `Conversions.SplitDeposit` | oragami-vault/programs/multi-asset-vault/src/instructions/deposit.rs:54-60 | splitting a deposit into k parts never mints more and loses at most k-1 shares |
| `Conversions.SplitRedemption` | oragami-vault/programs/multi-asset-vault/src/instructions/redeem.rs:13-17 | splitting a redemption into k parts never pays more and loses at most k-1 tokens |
| `FixedPoint.CheckedSharesExact` | oragami-vault/programs/multi-asset-vault/src/instructions/deposit.rs:54-60 | the checked multiply-then-divide is the exact floor conversion, or overflow exactly when the product exceeds 64 bits |
| `FixedPoint.CheckedAssetsExact` | oragami-vault/programs/multi-asset-vault/src/instructions/redeem.rs:13-17 | likewise for the payout of shares |
| `NavGuard.YieldGuardAccepts` | oragami-vault/programs/oragami-vault/src/lib.rs:211-218 | the guard accepts exactly the positive prices between half and one and a half times the current one, and nothing once the unchecked addition overflows |
| `NavGuard.CustodyGuardAccepts` | oragami-vault/programs/multi-asset-vault/src/instructions/set_nav.rs:16-50 | the factory's guard accepts the same range exactly while current·5000 fits 64 bits |
| `NavGuard.GuardsAgree` | oragami-vault/programs/multi-asset-vault/src/instructions/set_nav.rs:17-31 | the two guards accept the same values if and only if current·5000 fits or the price is above the movable range |
| `NavGuard.UpdatesBounded` | oragami-vault/programs/oragami-vault/src/lib.rs:211-218 | after k accepted updates 2^k·nav_k lies between nav_0 and 3^k·nav_0, and stays positive |
| `NavGuard.StuckExactly` | oragami-vault/programs/oragami-vault/src/lib.rs:211-218 | a positive price admits no change if and only if it is 1 or above the movable limit |
| `NavGuard.EveryTargetReachable` | oragami-vault/programs/oragami-vault/src/lib.rs:211-218 | from every movable price of at least 2, a computed finite path of accepted updates reaches every positive target |
| `NavGuard.GreedyPathAccepted` | oragami-vault/programs/oragami-vault/src/lib.rs:211-218 | every step of the greedily clamped path is accepted by the guard |
| `NavGuard.GreedyArrivesExactly` | oragami-vault/programs/oragami-vault/src/lib.rs:211-218 | from any positive start the greedy path ends at the target if and only if the target is at most one full step beyond the start's crest (the last movable price of full upward steps); from an immovable start, only at itself |
| `NavGuard.GreedyArrivesUnlessStuck` | oragami-vault/programs/oragami-vault/src/lib.rs:211-218 | equivalently, if and only if no stop short of the target is above the movable limit |
| `NavGuard.GreedyReachesMovable` | oragami-vault/programs/oragami-vault/src/lib.rs:211-218 | so greedy clamping reaches every movable target from every movable price of at least 2 |
| `NavGuard.GreedyClampCanStick` | oragami-vault/programs/oragami-vault/src/lib.rs:213-217 | a concrete greedy path that ends on an immovable price short of its target |
| `TokenLedger.TransferEffect` | oragami-vault/programs/oragami-vault/src/lib.rs:340-352 | a transfer keeps supply, owners and all other balances; to itself it changes nothing |
| `TokenLedger.TransferAccepted` | oragami-vault/programs/oragami-vault/src/lib.rs:340-352 | in a ledger whose supply is the sum of balances, a transfer is refused only for a wrong owner, a missing account or too few tokens |
| `TokenLedger.MintEffect` | oragami-vault/programs/oragami-vault/src/lib.rs:364-381 | minting raises supply and one balance by the amount and touches nothing else |
| `TokenLedger.BurnAccepted` | oragami-vault/programs/oragami-vault/src/lib.rs:466-476 | a burn is accepted exactly when the signer owns the account and it holds enough |
| `Compliance.ConsumeAccepted` | oragami-vault/programs/multi-asset-vault/src/instructions/deposit.rs:42-52 | the sequence of travel-rule checks accepts exactly an existing, unconsumed record with this payer and amount |
| `TravelRuleLog.RunExtends` | oragami-vault/programs/multi-asset-vault/src/instructions/travel_rule.rs:6-16 | over every run records are never removed, altered or un-consumed |
| `TravelRuleLog.ConsumptionsDistinct` | oragami-vault/programs/multi-asset-vault/src/instructions/deposit.rs:42-52 | two consumptions of one run never name the same record |
| `TravelRuleLog.CreatedBefore` | oragami-vault/programs/multi-asset-vault/src/instructions/travel_rule.rs:6-16 | every consumption of a run from no records is preceded by the record's creation with the same payer and amount |
| `TravelRuleLog.TotalsAgree` | oragami-vault/programs/multi-asset-vault/src/instructions/deposit.rs:42-52 | per payer, the consumptions of a run add up to the total of the consumed records at its end |
| `YieldAccrual.CadenceIndependent` | oragami-vault/programs/oragami-vault/src/lib.rs:657-695 | processing at any non-decreasing times gives the accrual of one call at the last time, and overflows exactly when that call does |
| `YieldAccrual.LessThanOneDayLeft` | oragami-vault/programs/oragami-vault/src/lib.rs:657-695 | after a successful call less than a day is unprocessed and the counter is not ahead of the clock |
| `YieldAccrual.CounterMoveHarmlessExactly` | oragami-vault/programs/oragami-vault/src/lib.rs:742-766 | moving the day counter up to t changes no later count of days if and only if it did not move, or no full day fits before the end of time |
| `YieldAccrual.DailyYieldExactly` | oragami-vault/programs/oragami-vault/src/lib.rs:671-683 | the staged daily yield goes through if and only if deposits·allocation fits 64 bits and so does its ten-thousandth times the rate; then it falls short of the unfloored yield by exactly what the three divisions leave over |
| `YieldAccrual.RateWithinParFails` | oragami-vault/programs/oragami-vault/src/lib.rs:671-683 | with a rate of at most par it fails if and only if deposits·allocation leaves 64 bits |
| `YieldAccrual.SeededRates` | oragami-backend/prisma/seed.ts:89-90 | five million USDC, 80% allocated at 5% a year, accrue 547945205 units a day |
| `YieldAccrual.DaysExactly` | oragami-vault/programs/oragami-vault/src/lib.rs:659-664 | the days counted are the full periods of 86400 seconds since the counter, none before it |
| `YieldAccrual.SeedFormulaIsExact` | oragami-backend/prisma/seed.ts:82-86 | dividing three times after multiplying equals the single exact floor |
| `YieldAccrual.StagedYieldAccurate` | oragami-vault/programs/oragami-vault/src/lib.rs:671-683 | the three-stage floored daily yield is the exact floor or one unit below it, for every input without overflow |
| `YieldAccrual.StagedYieldExactly` | oragami-vault/programs/oragami-vault/src/lib.rs:671-683 | the staged yield is the exact floor if and only if the divisions together leave less than one unit, and one unit below it otherwise |
| `OragamiOversight.LaunchExactly` | oragami-vault/programs/oragami-vault/src/lib.rs:92-131 | initialisation is refused only for limits the wrong way round; the vault starts at par, open and empty, with the given keys, limits and rates |
| `OragamiOversight.SetNavExactly` | oragami-vault/programs/oragami-vault/src/lib.rs:63-78 | a price is accepted if and only if there is a registry, the signer is the designated operator (the authority if there is none), and the price is positive, within half of the current one, without overflow; it writes the price and the registry's date, nothing else |
| `OragamiOversight.ProcessYieldExactly` | oragami-vault/programs/oragami-vault/src/lib.rs:652-705 | accepted if and only if the operator signs and less than a day has passed or both products and the new pending yield fit 64 bits; adds the yield of the full days, moves the counter by them, and writes nothing else |
| `OragamiOversight.DistributeAndSyncExactly` | oragami-vault/programs/oragami-vault/src/lib.rs:742-821 | whole result of both, on the fields: refused to anyone but the operator |
| `OragamiOversight.PostAttestationExactly` | oragami-vault/programs/oragami-vault/src/lib.rs:837-861 | accepted if and only if the operator posts the registry's digest; dated now |
| `OragamiOversight.RegisterUsxExactly` | oragami-vault/programs/oragami-vault/src/lib.rs:716-734 | accepted exactly from the operator; writes the two accounts in their places |
| `OragamiOversight.SetPauseExactly` | oragami-vault/programs/oragami-vault/src/lib.rs:772-776 | accepted exactly from the authority; the flag is as given |
| `OragamiOversight.UpdateConfigExactly` | oragami-vault/programs/oragami-vault/src/lib.rs:780-806 | accepted if and only if the authority signs, the allocation is at most par and, with the mandate supplied, at most its ceiling; each setting given is taken over and every other kept |
| `OragamiOversight.IssueCredentialExactly` | oragami-vault/programs/oragami-vault/src/lib.rs:245-273 | accepted if and only if the authority signs, the wallet has none and it expires after its issue date; exactly one active credential with this wallet and these dates is new |
| `OragamiOversight.RevokeCredentialExactly` | oragami-vault/programs/oragami-vault/src/lib.rs:277-286 | accepted if and only if the authority signs and the credential exists and is not revoked; exactly its status changes, to revoked |
| `OragamiOversight.MandateExactly` | oragami-vault/programs/oragami-vault/src/lib.rs:156-200 | one mandate, by the authority, with buffer and ceiling within par; enforcement switched by the authority |
| `OragamiOversight.RegistryExactly` | oragami-vault/programs/oragami-vault/src/lib.rs:138-191 | one registry, by the authority, who alone replaces its digest; either dates it |
| `OragamiOversight.InitTravelRuleExactly` | oragami-vault/programs/oragami-vault/src/lib.rs:417-434 | accepted if and only if the payer signs, the record is new and the amount is at least the threshold; exactly one unconsumed record is new |
| `OragamiOversight.SignedInEveryRun` | oragami-vault/programs/oragami-vault/src/lib.rs:63-78 | in every run each accepted operator instruction is signed by the operator of the start (the authority if there was none), and each authority instruction by the authority of the start: neither key ever changes |
| `OragamiOversight.AuthorityAloneCannotOperate` | oragami-vault/programs/oragami-vault/src/lib.rs:62-78 | once an operator is designated, the authority alone can price, process, distribute, sync, attest and register in no later state |
| `OragamiOversight.SettingsAreAmended` | oragami-vault/programs/oragami-vault/src/lib.rs:772-806 | after any run limits, allocation, rate, market and pause flag are those of the start with the accepted updates applied in order; nothing else touches them |
| `OragamiRefinement.RunRefines` | oragami-vault/programs/oragami-vault/src/lib.rs:299-650 | every run of the yield vault keeps the invariant, and its book moves exactly as the abstract book does |
| `OragamiTheorems.ValueConserved` | oragami-vault/programs/oragami-vault/src/lib.rs:340-386 | exact value conservation over every run of the program and its surroundings, gifts included |
| `OragamiTheorems.ValueConservedClosedAndOpen` | oragami-vault/programs/oragami-vault/src/lib.rs:449-498 | without gifts the law closes as an equality; with them supply·nav is still at most 10000·held + gain |
| `OragamiTheorems.CustodyCoversBook` | oragami-vault/programs/oragami-vault/src/lib.rs:340-382 | in every reachable state the vault's USDC is at least the recorded deposits, and equal when nobody sends it USDC |
| `OragamiTheorems.TwoMintSupply` | oragami-vault/programs/oragami-vault/src/lib.rs:513-550 | cVAULT supply + cVAULT-TRADE supply + shares burned outside = recorded supply, in every run |
| `OragamiTheorems.BurnedSharesAreRecorded` | oragami-vault/programs/oragami-vault/src/lib.rs:620-623 | after a successful burn of either token the checked subtraction on the recorded supply cannot fail |
| `OragamiTheorems.RedemptionRoutesAgree` | oragami-vault/programs/oragami-vault/src/lib.rs:590-623 | for equal holdings the trade route accepts exactly what the direct route accepts and the recorded deposits allow, with the same outcome |
| `OragamiTheorems.ClosedRunRoutesAgree` | oragami-vault/programs/oragami-vault/src/lib.rs:590-623 | in a run without gifts both routes accept the same amounts, leave the same USDC and totals, and the saturating subtraction never saturates |
| `OragamiTheorems.PriceFollowsGuard` | oragami-vault/programs/oragami-vault/src/lib.rs:209-222 | in every run the price moves only along a path of guard-accepted updates |
| `OragamiTheorems.PriceBounded` | oragami-vault/programs/oragami-vault/src/lib.rs:209-222 | from launch at par, k accepted updates leave a positive price within the k-fold bounds |
| `OragamiBankRun.BankRun` | oragami-vault/programs/oragami-vault/src/lib.rs:449-498 | after any run that never raised the price, any claims within balances are all paid, in any order, through either token, while unpaused and the share value fits 64 bits |
| `OragamiSolvency.SolventExactly` | oragami-vault/programs/oragami-vault/src/lib.rs:449-634 | in every reachable state of an unpaused vault, at any price, all claims within the holders' balances are paid in every order and through either token if and only if each account's payout fits 64 bits and the payouts of all accounts together are at most the USDC held, or at most the recorded deposits as soon as trade tokens are worth anything |
| `OragamiSolvency.ReadyIsSolvent` | oragami-vault/programs/oragami-vault/src/lib.rs:449-634 | the vault of the bank-run theorem, whose price never rose, satisfies that condition |
| `HolderValue.BurnLowersValue` | oragami-vault/programs/oragami-vault/src/lib.rs:452-476 | a redemption takes at least its payout off the sum of what all accounts would pay out, and exactly that if it empties the account |
| `HolderValue.LedgerValue` | oragami-vault/programs/oragami-vault/src/lib.rs:452-459 | account by account, holders could redeem at most what the whole supply is worth |
| `OragamiYield.ProcessYieldCadenceIndependent` | oragami-vault/programs/oragami-vault/src/lib.rs:652-705 | the whole state after process_yield at any non-decreasing times equals that of one call at the last time, or both overflow |
| `OragamiYield.YieldBookkeeping` | oragami-vault/programs/oragami-vault/src/lib.rs:742-766 | in every run accrued = distributed + pending, and the day counter never passes the clock |
| `OragamiYield.ProcessedUpToADay` | oragami-vault/programs/oragami-vault/src/lib.rs:657-695 | in every reachable state a successful process_yield leaves less than one day |
| `OragamiCounter.IdleDistribution` | oragami-vault/programs/oragami-vault/src/lib.rs:750-753 | with nothing pending a distribution changes nothing, the counter included |
| `OragamiCounter.MoveForfeitsExactly` | oragami-vault/programs/oragami-vault/src/lib.rs:742-821 | a distribution (with yield pending) or sync followed by processing accrues only the full days since the move; the loss against the undisturbed run is stated exactly, and is nil if and only if the daily yield is zero or both count the same days |
| `OragamiCounter.CounterAccounted` | oragami-vault/programs/oragami-vault/src/lib.rs:652-821 | in every run the counter advances by the days counted plus the seconds that distributions and syncs skipped, and by nothing else |
| `OragamiCounter.RunForfeitsExactly` | oragami-vault/programs/oragami-vault/src/lib.rs:652-821 | over any run at a steady positive daily yield, the accrual is that of all full days since the start if and only if skipped and unprocessed seconds together are less than a day; otherwise it is strictly less |
| `OragamiCounter.DistributionForfeitsADay` | oragami-vault/programs/oragami-vault/src/lib.rs:742-821 | a run from launch after which a distribution, or a sync, with no full day unprocessed costs a whole day's yield |
| `OragamiYield.ReserveFailsOnlyByOverflow` | oragami-vault/programs/oragami-vault/src/lib.rs:938-952 | with custody covering deposits and a ratio of at most par, the comparison never rejects; only overflow does |
| `OragamiYield.ReserveFailsAbovePar` | oragami-vault/programs/oragami-vault/src/lib.rs:938-952 | with a ratio above par it rejects every vault that holds just its deposits |
| `OragamiYield.ProofOfReserveExactly` | oragami-vault/programs/oragami-vault/src/lib.rs:882-963 | over reachable states with a ratio of at most par: accepted if and only if attestation fresh and matching, strategy accounts supplied, and the sum fits |
| `OragamiYield.FinancialCheckExactly` | oragami-vault/programs/oragami-vault/src/lib.rs:938-952 | for every ratio: passes if and only if both sides fit 64 bits and assets·10000 reach deposits·ratio; rejects if and only if both fit and they do not |
| `OragamiYield.ProofOfReserveForEveryRatio` | oragami-vault/programs/oragami-vault/src/lib.rs:882-963 | in any state and for any ratio: accepted if and only if mandate, registry and a fresh matching attestation are there, the registered strategy accounts are supplied, and that comparison passes |
| `OragamiYield.BandNonEmptyExactly` | oragami-vault/programs/oragami-vault/src/lib.rs:968-995 | the band exists for every total that does not overflow if and only if the buffer is at most par less the allocation |
| `OragamiYield.BandNonEmpty` | oragami-vault/programs/oragami-vault/src/lib.rs:156-163 | in particular for an admitted mandate whose ceiling the allocation respects |
| `OragamiCeiling.CeilingAfterChange` | oragami-vault/programs/oragami-vault/src/lib.rs:780-806 | after an accepted change of allocation or mandate the allocation is within the ceiling if and only if that change respected it, as every update with the mandate account supplied does |
| `OragamiCeiling.CeilingHeldExactly` | oragami-vault/programs/oragami-vault/src/lib.rs:780-806 | after any run the allocation is within the ceiling if and only if the last accepted change of terms respected it |
| `OragamiCeiling.BandInRespectfulRuns` | oragami-vault/programs/oragami-vault/src/lib.rs:156-163 | from launch, if that change respected the ceiling, the vault's band exists for every total that does not overflow |
| `OragamiCeiling.CeilingCanBeExceeded` | oragami-vault/programs/oragami-vault/src/lib.rs:791-797 | an accepted run from launch that sets an allocation above the ceiling and empties the band; with the mandate account supplied it is refused |
| `OragamiYield.BandCheckExactly` | oragami-vault/programs/oragami-vault/src/lib.rs:968-995 | over reachable states an active band check passes if and only if USDC equals deposits, nothing is allocated or nothing deposited, and the deposits times 10000 fit 64 bits |
| `OragamiYield.AllocatedBandRejects` | oragami-vault/programs/oragami-vault/src/lib.rs:968-995 | an active band with an allocation and deposits always rejects |
| `OragamiYield.LiquidityCheckExactly` | oragami-vault/programs/oragami-vault/src/lib.rs:968-995 | in any state: passes if and only if there is a mandate and it is not enforced, or the idle USDC lies between the buffer and what the allocation leaves, both products fitting |
| `OragamiTravelRule.LargeDepositsHaveOwnRecords` | oragami-vault/programs/oragami-vault/src/lib.rs:326-338 | from any start, every accepted deposit at or above the threshold consumes its own record for the same payer and amount, unconsumed at the start or created earlier in the run; no two share one |
| `OragamiTravelRule.ConsumedRecordsHaveDeposits` | oragami-vault/programs/oragami-vault/src/lib.rs:417-434 | every record consumed at the end but not at the start was consumed by an accepted large deposit of the run (with the converse: a bijection) |
| `OragamiTravelRule.LargeDepositTotals` | oragami-vault/programs/oragami-vault/src/lib.rs:326-338 | per payer, accepted large deposits total exactly what the consumed records grew by, and from launch exactly the consumed records |
| `OragamiTravelRule.RecordsArePermanent` | oragami-vault/programs/oragami-vault/src/lib.rs:1353-1360 | no record is ever removed, re-created, altered or un-consumed |
| `OragamiExchange.RedeemExactly` | oragami-vault/programs/oragami-vault/src/lib.rs:449-498 | a redemption is accepted if and only if the signer holds the shares, the vault is unpaused and the payout can be made |
| `OragamiExchange.RedeemPays` | oragami-vault/programs/oragami-vault/src/lib.rs:449-498 | it burns exactly those shares, pays exactly their value to the destination, and changes nothing else |
| `OragamiExchange.TradedExactly` | oragami-vault/programs/oragami-vault/src/lib.rs:552-634 | trade tokens are paid out under the same conditions and only while the recorded deposits cover the payout: an if-and-only-if |
| `OragamiExchange.TradedPays` | oragami-vault/programs/oragami-vault/src/lib.rs:552-634 | that burns exactly those tokens, pays exactly their value, takes it off the recorded deposits, and changes nothing else |
| `OragamiExchange.DepositExactly` | oragami-vault/programs/oragami-vault/src/lib.rs:299-386 | a deposit is accepted if and only if the payer signs, the vault is unpaused, the credential is in force, the amount is within the limits, a usable record is supplied when it is large, the tokens are at hand, and the shares are positive and fit; the recorded deposits are never the obstacle |
| `OragamiExchange.DepositPays` | oragami-vault/programs/oragami-vault/src/lib.rs:340-386 | a deposit moves exactly the amount from the payer's account, never the vault's own, into the vault |
| `OragamiRefusals.GateRefusals` | oragami-vault/programs/oragami-vault/src/lib.rs:299-324 | which error the gate of a deposit reports, as an if-and-only-if for each: signer, accounts, pause, limits, status and expiry, the first one wrong |
| `OragamiRefusals.RecordRefusals` | oragami-vault/programs/oragami-vault/src/lib.rs:326-338 | a large deposit is refused for a missing record, or for one that is not unconsumed, of this payer and this amount, and for nothing else |
| `OragamiRefusals.ExchangeRefusals` | oragami-vault/programs/oragami-vault/src/lib.rs:340-382 | the exchange is refused as too small exactly when the tokens move and no share results; otherwise only by tokens or overflow |
| `OragamiRefusals.DepositRefusals` | oragami-vault/programs/oragami-vault/src/lib.rs:299-386 | a deposit reports its gate's refusal, else its record's, else the exchange's |
| `OragamiRefusals.RedemptionRefusals` | oragami-vault/programs/oragami-vault/src/lib.rs:449-498 | when a redemption is refused as paused, overflowing or for want of funds, and a conversion as disabled |
| `OragamiRefusals.TradedRefusals` | oragami-vault/programs/oragami-vault/src/lib.rs:552-634 | a payout for trade tokens burns before it looks at the funds |
| `OragamiRefusals.PricingRefusals` | oragami-vault/programs/oragami-vault/src/lib.rs:209-218 | zero is invalid, outside the range too large a change, an overflowing upper end an abort: an if-and-only-if for each |
| `OragamiRefusals.ConfigRefusals` | oragami-vault/programs/oragami-vault/src/lib.rs:780-797 | above par is an invalid allocation, above a supplied mandate's ceiling a breach: an if-and-only-if for each |
| `OragamiRefusals.ReserveRefusals` | oragami-vault/programs/oragami-vault/src/lib.rs:882-936 | stale, mismatched, or with a wrong strategy account: the first one wrong |
| `OragamiRefusals.OversightRefusals` | oragami-vault/programs/oragami-vault/src/lib.rs:156-286 | what issuing, revoking, recording, attesting and mandating are refused for when the signer is right |
| `OragamiRefusals.OperatorRefusals` | oragami-vault/programs/oragami-vault/src/lib.rs:72-78 | everybody else is told that he is not the operator |
| `OragamiExchange.ConvertExactly` | oragami-vault/programs/oragami-vault/src/lib.rs:513-550 | conversion is accepted if and only if unpaused, market open, shares held and a trade account named |
| `OragamiExchange.ConvertThenRewrap` | oragami-vault/programs/oragami-vault/src/lib.rs:513-589 | converting and re-wrapping restores the whole state exactly |
| `OragamiExchange.RewrapThenConvert` | oragami-vault/programs/oragami-vault/src/lib.rs:552-589 | re-wrapping and converting restores the whole state, or is refused because the market is closed |
| `OragamiProgram.OragamiVault.SpendRecord` | oragami-vault/programs/oragami-vault/src/lib.rs:326-338 | large deposits mark their record consumed or fail; small ones leave even a supplied record alone |
| `OragamiProgram.OragamiVault.Deposit` | oragami-vault/programs/oragami-vault/src/lib.rs:299-407 | new accounts, or error, exactly as the deposit specification |
| `OragamiProgram.OragamiVault.Redeem` | oragami-vault/programs/oragami-vault/src/lib.rs:449-507 | new accounts, or error, exactly as the redemption specification |
| `OragamiProgram.OragamiVault.ConvertToTradeable` | oragami-vault/programs/oragami-vault/src/lib.rs:513-550 | new accounts, or error, exactly as the conversion specification |
| `OragamiProgram.OragamiVault.RedeemTradeable` | oragami-vault/programs/oragami-vault/src/lib.rs:552-634 | burns first, then re-wraps or pays out; new accounts, or error, as specified |
| `OragamiProgram.OragamiVault.SetNav` | oragami-vault/programs/oragami-vault/src/lib.rs:209-236 | new price and registry timestamp, or the guard's error, as specified |
| `OragamiProgram.OragamiVault.ProcessYield` | oragami-vault/programs/oragami-vault/src/lib.rs:652-705 | new pending yield and counter, or overflow, as specified |
| `OragamiProgram.OragamiVault.DistributeYield` | oragami-vault/programs/oragami-vault/src/lib.rs:742-766 | pending yield zeroed and counter set to now, or nothing when none is pending |
| `OragamiProgram.OragamiVault.UpdateConfig` | oragami-vault/programs/oragami-vault/src/lib.rs:780-806 | only the supplied settings change; allocation checked against par and, if supplied, the mandate |
| `OragamiProgram.OragamiVault.IssueCredential` | oragami-vault/programs/oragami-vault/src/lib.rs:245-273 | creates one active credential per wallet, or fails as specified |
| `OragamiProgram.OragamiVault.RevokeCredential` | oragami-vault/programs/oragami-vault/src/lib.rs:277-286 | revokes an active credential, or fails as specified |
| `OragamiProgram.OragamiVault.Transact` | oragami-vault/programs/oragami-vault/src/lib.rs:552-634 | any instruction has its whole specified effect or leaves every account as it was, even where the handler burned or spent a record before failing |
| `CustodyRefinement.RunRefines` | oragami-vault/programs/multi-asset-vault/src/instructions/deposit.rs:10-123 | every run of the factory keeps its invariant, and each vault's book moves exactly as the abstract book does |
| `CustodyTheorems.ValueConserved` | oragami-vault/programs/multi-asset-vault/src/instructions/deposit.rs:54-106 | exact value conservation for every asset over every run of the whole factory, closed without gifts to that vault |
| `CustodyTheorems.CustodyCoversBook` | oragami-vault/programs/multi-asset-vault/src/instructions/redeem.rs:53-64 | each vault's account covers its recorded deposits in every reachable state, with equality without gifts |
| `CustodyTheorems.ShareSupply` | oragami-vault/programs/multi-asset-vault/src/instructions/redeem.rs:53-64 | share supply + shares burned outside = recorded supply, per vault |
| `CustodyTheorems.OtherVaultsUntouched` | oragami-vault/programs/multi-asset-vault/src/instructions/deposit.rs:97-106 | an instruction on one asset leaves every other vault's record unchanged and takes nothing from its account |
| `CustodyTheorems.RegistryInEveryRun` | oragami-vault/programs/multi-asset-vault/src/instructions/register_asset.rs:19-66 | in every run the registry has no duplicates and is bounded; the duplicate check behind account creation is unreachable |
| `CustodyTheorems.PriceFollowsGuard` | oragami-vault/programs/multi-asset-vault/src/instructions/set_nav.rs:16-50 | a registered vault stays registered and its price moves only along guard-accepted updates |
| `CustodyTheorems.PriceBounded` | oragami-vault/programs/multi-asset-vault/src/instructions/set_nav.rs:16-50 | k accepted updates leave a vault's price positive and within the k-fold bounds |
| `CustodyBankRun.BankRun` | oragami-vault/programs/multi-asset-vault/src/instructions/redeem.rs:7-64 | after any run that never raised the claimed assets' prices, any claims within balances, across all vaults, are paid in any order, whatever the pause flags and credentials |
| `CustodyOversight.RegisterExactly` | oragami-vault/programs/multi-asset-vault/src/instructions/register_asset.rs:19-66 | in every reachable factory, registration is accepted if and only if the authority signs for a mint without a vault, the price is positive, the limits are the right way round and fewer than 16 vaults exist |
| `CustodyOversight.RegisterAdds` | oragami-vault/programs/multi-asset-vault/src/instructions/register_asset.rs:42-57 | the new vault has the given price, limits and travel rule, unpaused and empty; a share mint without supply and an empty account that only the vault signs for are new; nothing else changes |
| `CustodyOversight.NewMintCanBeRegistered` | oragami-vault/programs/multi-asset-vault/src/instructions/register_asset.rs:19-66 | any mint new to a reachable factory with room can be registered at once |
| `CustodyOversight.TermsNeverChange` | oragami-vault/programs/multi-asset-vault/src/instructions/register_asset.rs:50-57 | in every run a registered vault keeps the limits and travel rule of its registration, and its pause flag is as last set |
| `CustodyOversight.RegistrationDecidesTravelRule` | oragami-vault/programs/multi-asset-vault/src/instructions/deposit.rs:42-52 | from registration on, an accepted deposit into the vault of at least 1000000000 units falls under the travel rule if and only if it was registered with it, and then has consumed its own record |
| `CustodyOversight.SetNavExactly` | oragami-vault/programs/multi-asset-vault/src/instructions/set_nav.rs:16-50 | accepted if and only if the authority prices a registered asset within half of its positive price and the product fits; writes that price alone |
| `CustodyOversight.PauseVaultExactly` | oragami-vault/programs/multi-asset-vault/src/instructions/admin.rs:11-19 | accepted exactly from the authority for a registered asset; the flag is as given |
| `CustodyOversight.InitTravelRuleExactly` | oragami-vault/programs/multi-asset-vault/src/instructions/travel_rule.rs:6-16 | accepted if and only if the payer signs, the record is new and the amount is at least the threshold; exactly one unconsumed record is new |
| `CustodyOversight.IssueCredentialExactly` | oragami-vault/programs/multi-asset-vault/src/instructions/credential.rs:12-45 | accepted if and only if the authority signs, the wallet has none and it expires later than now; exactly one active credential is new |
| `CustodyOversight.RevokeCredentialExactly` | oragami-vault/programs/multi-asset-vault/src/instructions/credential.rs:49-58 | accepted if and only if the authority signs and it is not revoked yet; exactly its status changes, to revoked |
| `CustodyOversight.SignedInEveryRun` | oragami-vault/programs/multi-asset-vault/src/instructions/admin.rs:21-38 | in every run each accepted registration, price, pause and credential instruction is signed by the authority of the start |
| `CustodySolvency.SolventExactly` | oragami-vault/programs/multi-asset-vault/src/instructions/redeem.rs:7-64 | in every reachable factory, at any price, all claims on a vault within the holders' balances are paid in every order if and only if each account's payout fits 64 bits and the payouts of all accounts together are at most what the vault holds |
| `CustodySolvency.ReadyIsSolvent` | oragami-vault/programs/multi-asset-vault/src/instructions/redeem.rs:7-64 | the vault of the bank-run theorem, whose price never rose, satisfies that condition |
| `CustodyTravelRule.LargeDepositsHaveOwnRecords` | oragami-vault/programs/multi-asset-vault/src/instructions/deposit.rs:43-52 | in vaults that require it, from any start, every accepted large deposit consumes its own record of the same payer and amount, unconsumed at the start or created earlier in the run |
| `CustodyTravelRule.ConsumedRecordsHaveDeposits` | oragami-vault/programs/multi-asset-vault/src/instructions/travel_rule.rs:6-16 | and every record newly consumed in the run belongs to such a deposit |
| `CustodyTravelRule.LargeDepositTotals` | oragami-vault/programs/multi-asset-vault/src/instructions/deposit.rs:43-52 | per payer, such deposits total exactly what the consumed records grew by, from a new factory exactly the consumed records; records are permanent |
| `CustodyExchange.RedeemExactly` | oragami-vault/programs/multi-asset-vault/src/instructions/redeem.rs:7-64 | accepted if and only if the signer holds the shares and the payout can be made; pause flag and credentials play no part |
| `CustodyExchange.RedeemPays` | oragami-vault/programs/multi-asset-vault/src/instructions/redeem.rs:13-64 | burns exactly the shares, pays exactly their value, and changes nothing else in the factory |
| `CustodyExchange.DepositExactly` | oragami-vault/programs/multi-asset-vault/src/instructions/deposit.rs:10-106 | accepted if and only if the vault exists, the depositor is admitted (signer, pause, credential, limits, travel rule where required), the tokens are at hand, and the shares are positive and fit |
| `CustodyExchange.DepositPays` | oragami-vault/programs/multi-asset-vault/src/instructions/deposit.rs:65-76 | moves exactly the amount from the depositor's account into that vault's account |
| `CustodyRefusals.GateRefusals` | oragami-vault/programs/multi-asset-vault/src/instructions/deposit.rs:10-41 | which error the gate of a deposit reports, as an if-and-only-if for each: signer, pause, limits, credential program, status and expiry, the first one wrong |
| `CustodyRefusals.RecordRefusals` | oragami-vault/programs/multi-asset-vault/src/instructions/deposit.rs:42-52 | where a record is needed: missing, for another payer or amount, or consumed, and nothing else |
| `CustodyRefusals.ExchangeRefusals` | oragami-vault/programs/multi-asset-vault/src/instructions/deposit.rs:54-76 | refused for no shares exactly when the scaled amount fits and no share results; otherwise only by tokens or overflow |
| `CustodyRefusals.DepositRefusals` | oragami-vault/programs/multi-asset-vault/src/instructions/deposit.rs:10-106 | a deposit reports its gate's refusal, else its record's, else the exchange's |
| `CustodyRefusals.PayoutRefusals` | oragami-vault/programs/multi-asset-vault/src/instructions/redeem.rs:13-27 | a payout overflows exactly when its product does, and lacks funds exactly when the vault holds less |
| `CustodyRefusals.RedemptionRefusals` | oragami-vault/programs/multi-asset-vault/src/instructions/redeem.rs:7-64 | refused for no shares, else for its payout, else by the tokens |
| `CustodyRefusals.TransferRefusals` | oragami-vault/programs/multi-asset-vault/src/instructions/transfer_shares.rs:23-81 | which credential check of sender or receiver a transfer fails, as an if-and-only-if for each |
| `CustodyRefusals.RegistrationRefusals` | oragami-vault/programs/multi-asset-vault/src/instructions/register_asset.rs:27-41 | zero price, limits the wrong way round, or a full registry: the first one wrong |
| `CustodyRefusals.PricingRefusals` | oragami-vault/programs/multi-asset-vault/src/instructions/set_nav.rs:16-31 | zero, an overflowing product, or outside the range: an if-and-only-if for each |
| `CustodyRefusals.OversightRefusals` | oragami-vault/programs/multi-asset-vault/src/instructions/credential.rs:12-58 | what issuing, revoking and recording are refused for when the signer is right |
| `CustodyExchange.TransferSharesExactly` | oragami-vault/programs/multi-asset-vault/src/instructions/transfer_shares.rs:23-81 | accepted if and only if unpaused, shares held, and both wallets' credentials in force |
| `CustodyExchange.TransferSharesMovesOnlyShares` | oragami-vault/programs/multi-asset-vault/src/instructions/transfer_shares.rs:82-116 | only the two share balances change |
| `CustodyProgram.CustodyFactory.RegisterAsset` | oragami-vault/programs/multi-asset-vault/src/instructions/register_asset.rs:19-66 | new vault, mint, account and registry entry, or the first failing check's error, as specified |
| `CustodyProgram.CustodyFactory.SetNav` | oragami-vault/programs/multi-asset-vault/src/instructions/set_nav.rs:16-50 | new price, or the guard's error, as specified |
| `CustodyProgram.CustodyFactory.Deposit` | oragami-vault/programs/multi-asset-vault/src/instructions/deposit.rs:10-123 | new accounts, or error, exactly as the deposit specification |
| `CustodyProgram.CustodyFactory.Redeem` | oragami-vault/programs/multi-asset-vault/src/instructions/redeem.rs:7-81 | new accounts, or error, exactly as the redemption specification |
| `CustodyProgram.CustodyFactory.TransferShares` | oragami-vault/programs/multi-asset-vault/src/instructions/transfer_shares.rs:23-116 | new share balances, or the first failing check's error, as specified |
| `CustodyProgram.CustodyFactory.InitTravelRule` | oragami-vault/programs/multi-asset-vault/src/instructions/travel_rule.rs:6-16 | a fresh unconsumed record, or error, as specified |
| `CustodyProgram.CustodyFactory.IssueCredential` | oragami-vault/programs/multi-asset-vault/src/instructions/credential.rs:12-45 | the factory's own credential record, or error, as specified |
| `CustodyProgram.CustodyFactory.RevokeCredential` | oragami-vault/programs/multi-asset-vault/src/instructions/credential.rs:49-58 | revocation, or error, as specified |
| `CustodyProgram.CustodyFactory.PauseVault` | oragami-vault/programs/multi-asset-vault/src/instructions/admin.rs:11-19 | sets one vault's pause flag, for the factory's authority only |
| `CustodyProgram.CustodyFactory.Transact` | oragami-vault/programs/multi-asset-vault/src/instructions/redeem.rs:7-81 | any instruction has its whole specified effect or none |
| `CredentialLifecycle.RevokedForever` | oragami-vault/programs/oragami-vault/src/lib.rs:277-286 | once revoked, a wallet is refused in every later state of every run of both programs: deposits in either and share transfers from or to it |
| `CredentialLifecycle.NoSecondLife` | oragami-vault/programs/oragami-vault/src/lib.rs:1310-1318 | an existing credential can never be issued again, and is revoked exactly once, by the authority |
| `CredentialLifecycle.StatusAfterRun` | oragami-vault/programs/oragami-vault/src/lib.rs:277-286 | after any run of both programs an existing credential keeps wallet and dates, and is revoked if and only if it was before or an accepted revocation of the run named it |
| `CredentialLifecycle.InForceExactly` | oragami-vault/programs/oragami-vault/src/lib.rs:245-286 | from an accepted issue on, the credential is in force at a later moment if and only if it has not expired and the run has not revoked it; otherwise the wallet is shut out |
| `CredentialLifecycle.RevocationShutsOut` | oragami-vault/programs/oragami-vault/src/lib.rs:277-286 | after an accepted revocation the wallet is shut out of both programs in every later state, and its credential can be neither revoked again nor issued anew |
| `CredentialLifecycle.FactoryCredentialsAdmitNobody` | oragami-vault/programs/multi-asset-vault/src/instructions/deposit.rs:18-30 | a wallet without a yield-vault credential stays shut out, whatever the factory issues it |
| `CredentialLifecycle.TransfersBetweenCredentialed` | oragami-vault/programs/multi-asset-vault/src/instructions/transfer_shares.rs:29-81 | an accepted share transfer is between two wallets with credentials in force that carry their names: the omitted receiver comparison is implied |
| `PriceWalk.PricesAreOccurrences` | oragami-backend/src/crank/nav-crank.service.ts:244-272 | the reference list of prices holds exactly the positive finite numbers occurring anywhere in the tree |
| `PriceWalk.WalkForPrice` | oragami-backend/src/crank/nav-crank.service.ts:244-272 | terminates on every JSON tree and returns the first price of that list, or nothing if it is empty |
| `PriceWalk.ExtractPrice` | oragami-backend/src/crank/nav-crank.service.ts:231-242 | only arrays and objects are searched; the result is the search's |
| `PriceWalk.ExtractionIsSearch` | oragami-backend/src/crank/nav-crank.service.ts:231-242 | returns nothing if and only if no positive finite number occurs in the response; otherwise one that does |
| `PriceWalk.PriorityWins` | oragami-backend/src/crank/nav-crank.service.ts:255-264 | a price under an earlier priority key wins over everything else in the object |
| `PriceWalk.EarlierKeyWins` | oragami-backend/src/crank/nav-crank.service.ts:255-269 | of two prices under two keys, in either order of entries, the one under the earlier priority key wins, also against any other key |
| `PriceWalk.KeysByName` | oragami-backend/src/crank/nav-crank.service.ts:255-264 | the priority keys by name, in order |
| `PriceWalk.EarliestItemWins` | oragami-backend/src/crank/nav-crank.service.ts:246-251 | in an array the earliest item with a price wins |
| `PriceWalk.EarliestEntryWins` | oragami-backend/src/crank/nav-crank.service.ts:265-269 | with no price under a priority key, the earliest remaining entry with one wins |
| `NavCrank.WeightsExactly` | oragami-backend/src/crank/nav-crank.service.ts:16-18 | the weighted average is 5000·gold + 3000·franc + 2000·eUSX basis points |
| `NavCrank.NavIsNearest` | oragami-backend/src/crank/nav-crank.service.ts:223-228 | inside the band the NAV is the nearest basis point to the weighted average (half up); outside, the nearer end |
| `NavCrank.NavMonotone` | oragami-backend/src/crank/nav-crank.service.ts:213-228 | no factor can rise and lower the NAV |
| `NavCrank.SentIsAccepted` | oragami-backend/src/crank/nav-crank.service.ts:127-160 | whatever the NAV on chain, a NAV the crank sends lies in [5000, 20000] and passes both programs' guards; it lands exactly when delivered |
| `NavCrank.LandsExactly` | oragami-backend/src/crank/nav-crank.service.ts:127-163 | a round changes the NAV on chain if and only if the crank's own guards let it send and the transaction is delivered |
| `NavCrank.RoundExactly` | oragami-backend/src/crank/nav-crank.service.ts:127-163 | a round moves the NAV to its target and notes the time if and only if the vault was read, the target is within 1000 bps, 90 s have passed and the transaction is delivered; otherwise both stay |
| `NavCrank.NothingUndelivered` | oragami-backend/src/crank/nav-crank.service.ts:149-176 | while no transaction is delivered the NAV on chain does not move |
| `NavCrank.NavStaysInBand` | oragami-backend/src/crank/nav-crank.service.ts:127-163 | over every run the NAV on chain stays in [5000, 20000] |
| `NavCrank.MovesSinceUpdate` | oragami-backend/src/crank/nav-crank.service.ts:135-140 | nothing lands before the interval since the last update is over, then at most one bounded move per interval |
| `NavCrank.WindowBound` | oragami-backend/src/crank/nav-crank.service.ts:127-163 | over any window of T ms the NAV moves at most 1000·(1 + T/90000) bps |
| `NavCrank.FarTargetsNeverLand` | oragami-backend/src/crank/nav-crank.service.ts:127-133 | while the target stays more than 1000 bps away the crank lands nothing: it never approaches in steps |
| `NavCrank.JumpNeverFollowed` | oragami-backend/src/crank/nav-crank.service.ts:127-133 | if gold jumps after its first quote to a price whose target is more than 1000 bps from par and stays there, the crank aims there for ever and the NAV never leaves par, under any timing and delivery |
| `NavCrank.FrancAtOnePointOne` | oragami-backend/src/crank/nav-crank.service.ts:213-228 | the franc quoted at 1.00 and then 1.10 is aimed at, and when nothing else stands in the way reached, as 10300 |
| `NavCrank.EusxAtOnePointOne` | oragami-backend/src/crank/nav-crank.service.ts:213-228 | eUSX at 1.1 alone as 10200 |
| `NavCrank.GoldAtHundredTen` | oragami-backend/src/crank/nav-crank.service.ts:213-228 | gold at 100 and then 110 as 10500 |
| `NavCrank.GoldQuoted` | oragami-backend/src/crank/nav-crank.service.ts:231-272 | a response with one price field quotes exactly that price, so such rounds exist |
| `NavCrank.GoldAtHundredThirty` | oragami-backend/src/crank/nav-crank.service.ts:127-133 | for instance gold at 100 and then at 130: the target stays at 11500 and the NAV at 10000 |
| `NavCrank.RunPrices` | oragami-backend/src/crank/nav-crank.service.ts:72-97 | after any run each cache holds the last price fetched, each baseline the first ever, both positive, and one is missing exactly when the other is |
| `NavCrank.TargetOfHistory` | oragami-backend/src/crank/nav-crank.service.ts:197-228 | the target depends on the whole fetch history only through each feed's first and latest price and the current eUSX price |
| `NavCrank.ParAtBaselines` | oragami-backend/src/crank/nav-crank.service.ts:213-228 | with prices unfetched or at their baselines and eUSX at par, the target is par |
| `NavCrankService.NavCrankService.ComputeNavBps` | oragami-backend/src/crank/nav-crank.service.ts:197-228 | fixes missing baselines at the given prices and returns the weighted, clamped NAV |
| `NavCrankService.NavCrankService.Observe` | oragami-backend/src/crank/nav-crank.service.ts:67-121 | caches, baselines and report after the fetches are as specified, with cached prices standing in for missing ones |
| `NavCrankService.NavCrankService.UpdateNav` | oragami-backend/src/crank/nav-crank.service.ts:57-195 | one round moves the crank's memory and the vault exactly as specified; signed exactly when the update lands |
| `CrankOnChain.SentIsTaken` | oragami-vault/programs/oragami-vault/src/lib.rs:1214-1229 | a NAV that the crank sends is accepted if and only if its account list begins with the accounts the program requires and the vault takes prices from the crank's signer; it is never refused for its value |
| `CrankOnChain.ClientNeverReprices` | oragami-backend/src/crank/nav-crank.service.ts:156-160 | with the account list that the client sends, no update is ever accepted: from launch, whatever is fetched and whatever but repricing happens in between, the vault's price stays at par |
| `CrankOnChain.VisitsRefineRounds` | oragami-backend/src/crank/nav-crank.service.ts:57-195 | rounds interleaved with arbitrary activity on the real vault refine the crank's own machine |
| `CrankOnChain.CrankGovernsPrice` | oragami-backend/src/crank/nav-crank.service.ts:127-163 | from launch, with anything but repricing between rounds, the vault's own price stays in the band and obeys the window bound |
| `LineFramer.SplitIsJoinInverse` | oragami-frontend/lib/tinyfish.ts:109 | splitting yields pieces without newlines that join back to the text |
| `LineFramer.SplitOfJoin` | oragami-frontend/lib/tinyfish.ts:109 | and only those: splitting the join of newline-free pieces gives them back |
| `LineFramer.LinesEndAtLineFeeds` | oragami-frontend/lib/tinyfish.ts:109 | the line feed alone ends a line; a carriage return ends none |
| `LineFramer.Stream` | oragami-frontend/lib/tinyfish.ts:97-118 | for every way of cutting a text into chunks, the payloads handed on are those of all its lines but the last piece, in order, and the buffer holds exactly that piece, without a newline |
| `LineFramer.ChunkStep` | oragami-frontend/lib/tinyfish.ts:108-110 | one more chunk: completed lines join those handled before and the rest stays buffered |
| `LineFramer.PayloadExactly` | oragami-frontend/lib/tinyfish.ts:112-117 | a data line hands on its rest without the blanks around it, unless that is the end marker; any other line nothing |
| `LineFramer.TrimExactly` | oragami-frontend/lib/tinyfish.ts:114 | trimming takes off all blanks at both ends and nothing else |
| `LineFramer.BlanksExactly` | oragami-frontend/lib/tinyfish.ts:114 | the blanks are the white space and line ends of JavaScript's trim, by code point |
| `LineFramer.LeftoverIsLost` | oragami-frontend/lib/tinyfish.ts:104-110 | the buffer is empty at the end of the stream exactly when the text is empty or ends in a newline; otherwise its last line is never handled |
| `CustodyPreflight.StatusExactly` | oragami-backend/src/multi-asset-vault/multi-asset-vault.service.ts:220-255 | each status text stands for exactly one situation of the credential |
| `CustodyPreflight.ReportExactly` | oragami-backend/src/multi-asset-vault/multi-asset-vault.service.ts:338-376 | the first obstacle in order as the reason, or none exactly when the deposit is promised; beside it status, record and estimate |
| `CustodyPreflight.PredictionAgrees` | oragami-backend/src/multi-asset-vault/multi-asset-vault.service.ts:338-360 | when the credential can be read, a deposit is accepted if and only if predicted, with a usable record where asked for, the tokens at hand, and room for the totals |
| `CustodyPreflight.FalsePromiseExactly` | oragami-backend/src/multi-asset-vault/multi-asset-vault.service.ts:338-360 | whatever could be read, a deposit promised to a client who brings record and tokens is refused on chain if and only if it would mint no share or a product or total leaves 64 bits |
| `CustodyPreflight.FalseRefusalExactly` | oragami-backend/src/multi-asset-vault/multi-asset-vault.service.ts:220-255 | a deposit that the chain accepts was promised if and only if the credential could be read |
| `CustodyPreflight.DustPromiseBroken` | oragami-backend/src/multi-asset-vault/multi-asset-vault.service.ts:345-347 | a promise for an amount worth less than one share, with its estimate of zero, is broken for every account and record |
| `CustodyPreflight.DustPromise` | oragami-backend/src/multi-asset-vault/multi-asset-vault.service.ts:338-360 | such a promise exists in a state that satisfies the invariant: two units at a price of 20001 |
| `CustodyPreflight.EstimateIsMinted` | oragami-backend/src/multi-asset-vault/multi-asset-vault.service.ts:345-347 | an accepted deposit mints exactly the estimate to the named account and nothing else |
| `CustodyPreflight.ActiveButRefused` | oragami-backend/src/multi-asset-vault/multi-asset-vault.service.ts:231-240 | the status text says active while the verdict refuses exactly at the second of expiry |
| `OragamiPreflight.ReportExactly` | oragami-backend/src/deposits/deposits.service.ts:24-71 | the reason, the status as read or from the database, record and estimate; none given exactly when the deposit is promised |
| `OragamiPreflight.PredictionAgrees` | oragami-backend/src/deposits/deposits.service.ts:24-71 | when the credential can be read, a deposit is accepted if and only if predicted and the part the preflight does not look at holds; so on-chain success implies the prediction and the travel-rule flag |
| `OragamiPreflight.EstimateIsMinted` | oragami-backend/src/deposits/deposits.service.ts:61 | an accepted deposit mints exactly the estimate |
| `OragamiPreflight.ActiveExactly` | oragami-backend/src/deposits/deposits.service.ts:28-38 | the status reads active exactly for a credential read as active, or, where none was read because it is missing or the read failed, for a database row that says so |
| `OragamiPreflight.FalsePromiseExactly` | oragami-backend/src/deposits/deposits.service.ts:28-61 | whatever could be read, a deposit promised to a client who brings record and tokens is refused on chain if and only if the payer is not eligible (credential in force, amount within limits), or it would mint no share, or a product or total leaves 64 bits |
| `OragamiPreflight.IneligiblePromiseExactly` | oragami-backend/src/deposits/deposits.service.ts:28-59 | an ineligible payer is promised a deposit exactly in an open vault where the credential was read as active, or was not read, because missing or behind a failed read, while the database row says active |
| `OragamiPreflight.FalseRefusalExactly` | oragami-backend/src/deposits/deposits.service.ts:28-59 | a deposit that the chain accepts was promised if and only if the read succeeded or the database row says active |
| `OragamiPreflight.DustPromiseBroken` | oragami-backend/src/deposits/deposits.service.ts:61 | every deposit worth less than one share is refused on chain, whatever accounts and record come with it |
| `OragamiPreflight.DustPromise` | oragami-backend/src/deposits/deposits.service.ts:28-61 | such a deposit promised to an eligible payer, in a state that satisfies the invariant |
| `OragamiPreflight.FalsePromises` | oragami-backend/src/deposits/deposits.service.ts:28-59 | four concrete false promises: expired, unknown on chain, over the limit, and revoked with a failed read |

## Left out

- Floating point: prices, weights and eUSX values are exact reals, rounded half up as `Math.round` does; NaN cannot occur, and NAVs above 2^53 are read exactly.
- Instruction data and account (de)serialisation, PDA derivation, SHA-256, events, log messages and institution metadata (name, jurisdiction, tier, KYC fields).
- `initialize_vault` and the factory's initialisation as transactions: they are the start states `Initial`.
- The registry's other fields and the mandate's asset-type and leverage fields, which no handler reads.
- OragamiProgram.OragamiVault.Transact: the accounts are fields holding values (ledgers are maps, the vault record is reassigned as a whole), so aliasing between two account arguments is modelled by equal addresses, not by shared memory.
- CustodyProgram.CustodyFactory.Transact: likewise, the vault records and ledgers are map fields that the methods reassign.
- The order of the checks that the runtime makes on accounts before a handler starts, beyond signer, existence and address.
- `programs/cvault-transfer-hook`: one-branch checks behind the Token-2022 runtime.
- The crank's reserve attestation, yield tick, snapshots and audit log after an update, and a transaction that lands although its confirmation is lost.
- CrankOnChain.CrankGovernsPrice: activity of others falls between rounds, not between a round's read and its landing.
- JSON parsing and the event cases behind a data line's payload: the framer hands the trimmed payload on. A read error in the middle of the stream.
- Network, database and RPC calls everywhere; the preflights read the same state and clock as the deposit they predict.
- The front end, lead parsing, embeddings, price display and the remaining back-end services.
